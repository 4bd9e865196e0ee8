/** What the store shows and keeps after any run, stated over the full history of StoreRuns' reference. */
module StoreResults {
  import opened Check
  import opened Ring
  import opened StoreModel
  import opened StoreRuns
  import opened Streaks
  import Keys

  /** After any run the key list is duplicate-free, is exactly the set of rings, and no ring is empty. */
  lemma OrderListsTheRings(ops: seq<Op>)
    ensures
      var s := Run(ops).rings;
      && (forall i, j :: 0 <= i < j < |s.order| ==> s.order[i] != s.order[j])
      && (forall k :: k in s.order <==> k in s.checks)
      && (forall k :: k in s.checks ==> s.checks[k].buf.Valid() && s.checks[k].buf.entries != [])
  {
    var s, ref := Run(ops).rings, RefRun(ops).rings;
    RunTracks(ops);
    forall k | k in s.checks
      ensures s.checks[k].buf.Valid() && s.checks[k].buf.entries != []
    {
      assert KeyTracks(s, ref, k);
      HeldIsNotEmpty(s.checks[k].buf, Entries(ref.hist[k]));
    }
  }

  lemma HeldIsNotEmpty(b: Buffer, h: seq<Entry>)
    requires Holds(b, h) && h != []
    ensures b.entries != []
  {
    assert |b.Ordered()| == |b.entries|;
  }

  /** After any run a ring shows the last 90 results of the reference history of its key, oldest first. */
  lemma HistoryIsLastNinety(ops: seq<Op>, k: string)
    ensures
      var checks, hist := Run(ops).rings.checks, RefRun(ops).rings.hist;
      && (k in checks <==> k in hist)
      && (k in checks ==>
            checks[k].buf.Valid() && checks[k].buf.Ordered() == Last(Entries(hist[k]), MAX_HISTORY))
  {
    RunTracks(ops);
    if k in Run(ops).rings.checks {
      assert KeyTracks(Run(ops).rings, RefRun(ops).rings, k);
    }
  }

  /** The entry carries the fields of the result; its duration is in milliseconds. */
  ghost predicate Shows(e: Entry, r: Result) {
    && e.success == r.success
    && e.infraError == r.infraError
    && e.timestamp == r.timestamp
    && e.detail == r.detail
    && e.durationMs * 1_000_000.0 == r.duration as real
  }

  /** The list shows the last of the results, at most 90 of them, oldest first. */
  ghost predicate ShowsLast(entries: seq<Entry>, h: seq<Result>) {
    && |entries| == (if |h| <= 90 then |h| else 90)
    && forall i :: 0 <= i < |entries| ==> Shows(entries[i], h[|h| - |entries| + i])
  }

  lemma WindowShowsLast(h: seq<Result>)
    ensures ShowsLast(Last(Entries(h), MAX_HISTORY), h)
  {
  }

  /** After any run a ring shows the fields of the last 90 results of its reference history, in order. */
  lemma HistoryShowsResults(ops: seq<Op>, k: string)
    ensures
      var checks, hist := Run(ops).rings.checks, RefRun(ops).rings.hist;
      k in checks ==> k in hist && checks[k].buf.Valid() && ShowsLast(checks[k].buf.Ordered(), hist[k])
  {
    HistoryIsLastNinety(ops, k);
    if k in Run(ops).rings.checks {
      WindowShowsLast(RefRun(ops).rings.hist[k]);
    }
  }

  lemma LastOfWindow(h: seq<Result>)
    requires h != []
    ensures
      var window := Last(Entries(h), MAX_HISTORY);
      window != [] && window[|window| - 1] == ToEntry(h[|h| - 1])
  {
    assert Entries(h)[|h| - 1] == ToEntry(h[|h| - 1]);
  }

  lemma {:induction false} FirstTimestampIsZeroIff(h: seq<Result>)
    ensures FirstTimestamp(h) == ZERO_TIME <==> AllZero(h)
  {
    if h == [] {
    } else {
      FirstTimestampIsZeroIff(h[1..]);
      assert forall i :: 1 <= i < |h| ==> h[i] == h[1..][i - 1];
    }
  }

  /** The run is the longest stretch of real failures at the end of the history. */
  lemma FailureRunIsMaximal(h: seq<Result>)
    ensures
      var start := |h| - |FailureRun(h)|;
      && 0 <= start
      && FailureRun(h) == h[start..]
      && (forall i :: start <= i < |h| ==> h[i].RealFailure())
      && (start > 0 ==> !h[start - 1].RealFailure())
  {
    TrailingTrueIsMaximal(Failures(h));
  }

  ghost predicate AllZero(h: seq<Result>) {
    forall i :: 0 <= i < |h| ==> h[i].timestamp == ZERO_TIME
  }

  lemma FirstTimestampIsFirst(h: seq<Result>)
    requires h != []
    ensures FirstTimestamp(h) == h[0].timestamp <==> h[0].timestamp != ZERO_TIME || AllZero(h)
  {
    FirstTimestampIsZeroIff(h);
  }

  /**
   The down-since instant over the full history, however far it reaches behind the window of 90. It is
   set only if an unbroken run of real failures ends the history; an infrastructure error ends a run.
   It is the timestamp of the run's first result exactly when that timestamp is not the zero time, or
   all timestamps of the run are.
   */
  lemma DownSinceIsRunStart(ops: seq<Op>, k: string)
    ensures
      var checks, hist := Run(ops).rings.checks, RefRun(ops).rings.hist;
      k in checks ==>
        && k in hist
        && var run := FailureRun(hist[k]);
        && (checks[k].downSince != ZERO_TIME ==> run != [])
        && (run != [] ==>
              (checks[k].downSince == run[0].timestamp <==> run[0].timestamp != ZERO_TIME || AllZero(run)))
  {
    RunTracks(ops);
    if k in Run(ops).rings.checks {
      assert KeyTracks(Run(ops).rings, RefRun(ops).rings, k);
      var run := FailureRun(RefRun(ops).rings.hist[k]);
      if run != [] {
        FirstTimestampIsFirst(run);
      }
    }
  }

  /** Without any assumption on timestamps: the instant is unset exactly when the run holds only zero times. */
  lemma DownSinceUnsetIff(ops: seq<Op>, k: string)
    ensures
      var checks, hist := Run(ops).rings.checks, RefRun(ops).rings.hist;
      k in checks ==>
        && k in hist
        && (checks[k].downSince == ZERO_TIME <==> AllZero(FailureRun(hist[k])))
  {
    RunTracks(ops);
    if k in Run(ops).rings.checks {
      assert KeyTracks(Run(ops).rings, RefRun(ops).rings, k);
      FirstTimestampIsZeroIff(FailureRun(RefRun(ops).rings.hist[k]));
    }
  }

  /** Severity is fail, warn or pass exactly as the trailing violation streak is 3 or more, 1 or 2, or 0. */
  lemma SeverityIsStreak(ops: seq<Op>, k: string)
    ensures
      var budgets, flags := Run(ops).budgets, RefRun(ops).budgets;
      && (k in budgets <==> k in flags)
      && (k in budgets ==>
            var n := TrailingTrue(flags[k]);
            SeverityOf(budgets[k]) == if n >= 3 then Fail else if n >= 1 then Warn else Pass)
  {
    RunTracks(ops);
    if k in Run(ops).budgets {
      assert BudgetTracks(Run(ops).budgets[k], RefRun(ops).budgets[k]);
    }
  }

  /** Every flag ever recorded for a key, across restarts from saved images. */
  function Flags(ref: RefBudgets, key: string): seq<bool> {
    if key in ref then ref[key] else []
  }

  /** RecordBudgetCheck reports a crossing exactly where the streak over the full flag history is 3. */
  lemma CrossingIsThirdInARow(ops: seq<Op>, check: string, metric: string, violated: bool)
    ensures
      CrossesThreshold(Run(ops).budgets, check, metric, violated) <==>
      TrailingTrue(Flags(RefRun(ops).budgets, Keys.BudgetKey(check, metric)) + [violated]) == 3
  {
    RunTracks(ops);
    TrailingTrueSnoc(Flags(RefRun(ops).budgets, Keys.BudgetKey(check, metric)), violated);
  }

  /** A maximal run of violations reports exactly one crossing, at its third flag, if it has one. */
  lemma OneCrossingPerStreak(flags: seq<bool>, a: nat, b: nat, i: nat)
    requires StartsRun(flags, a, b) && a <= i < b
    ensures TrailingTrue(flags[..i + 1]) == BUDGET_FAIL_THRESHOLD <==> i == a + 2
  {
    StreakCountsRunPositions(flags, a, b, i);
  }

  lemma RunAppended(ops: seq<Op>, op: Op)
    ensures Run(ops + [op]) == Step(Run(ops), op)
  {
    assert (ops + [op])[..|ops|] == ops;
  }

  lemma RingKey(ops: seq<Op>, k: string)
    ensures
      var s := Run(ops).rings;
      k in s.checks ==> k == Keys.CheckKey(s.checks[k].typ, s.checks[k].name)
  {
    RunTracks(ops);
    if k in Run(ops).rings.checks {
      assert KeyTracks(Run(ops).rings, RefRun(ops).rings, k);
    }
  }

  lemma ActiveKeyIff(configs: seq<CheckConfig>, types: set<string>, typ: string, name: string)
    requires Keys.NoTypeExtendsAnother(types) && typ in types
    requires forall c :: c in configs ==> c.typ in types
    ensures Keys.CheckKey(typ, name) in ActiveKeys(configs) <==> CheckConfig(typ, name) in configs
  {
    if Keys.CheckKey(typ, name) in ActiveKeys(configs) {
      var c :| c in configs && Keys.CheckKey(c.typ, c.name) == Keys.CheckKey(typ, name);
      Keys.SameKeySameCheck(types, c.typ, c.name, typ, name);
    }
    if CheckConfig(typ, name) in configs {
      var c := CheckConfig(typ, name);
      assert c in configs && Keys.CheckKey(c.typ, c.name) == Keys.CheckKey(typ, name);
    }
  }

  lemma ReconcileKeepsKey(s: Rings, configs: seq<CheckConfig>, types: set<string>, k: string)
    requires s.Valid() && k in s.checks && k == Keys.CheckKey(s.checks[k].typ, s.checks[k].name)
    requires Keys.NoTypeExtendsAnother(types) && s.checks[k].typ in types
    requires forall c :: c in configs ==> c.typ in types
    ensures
      var after := ReconcileRings(s, configs);
      && (k in after.checks <==> CheckConfig(s.checks[k].typ, s.checks[k].name) in configs)
      && (k in after.checks ==> after.checks[k] == s.checks[k])
  {
    PrunedRingsValid(s, ActiveKeys(configs));
    ActiveKeyIff(configs, types, s.checks[k].typ, s.checks[k].name);
  }

  /** Reconcile keeps a ring exactly when its check is configured, and leaves what it keeps alone. */
  lemma ReconcileKeepsConfigured(ops: seq<Op>, configs: seq<CheckConfig>, types: set<string>, k: string)
    requires Keys.NoTypeExtendsAnother(types)
    requires forall c :: c in configs ==> c.typ in types
    ensures
      var before, after := Run(ops).rings.checks, Run(ops + [Reconcile(configs)]).rings.checks;
      && (k in after ==> k in before && after[k] == before[k])
      && (k in before && before[k].typ in types ==>
            (k in after <==> CheckConfig(before[k].typ, before[k].name) in configs))
  {
    RunAppended(ops, Reconcile(configs));
    RingKey(ops, k);
    PrunedRingsValid(Run(ops).rings, ActiveKeys(configs));
    if k in Run(ops).rings.checks && Run(ops).rings.checks[k].typ in types {
      ReconcileKeepsKey(Run(ops).rings, configs, types, k);
    }
  }

  /** Reconcile keeps a budget state exactly when some configured check has its name, streak included. */
  lemma ReconcileKeepsBudgets(ops: seq<Op>, configs: seq<CheckConfig>, check: string, metric: string)
    requires ':' !in metric
    ensures
      var key := Keys.BudgetKey(check, metric);
      var before, after := Run(ops).budgets, Run(ops + [Reconcile(configs)]).budgets;
      && (key in after <==> key in before && exists c :: c in configs && c.name == check)
      && (key in after ==> after[key] == before[key])
  {
    RunAppended(ops, Reconcile(configs));
    Keys.BudgetKeySplits(check, metric);
  }

  /** A push touches the ring of its own check and no other. */
  lemma PushTouchesOneRing(ops: seq<Op>, r: Result, types: set<string>, k: string)
    requires Keys.NoTypeExtendsAnother(types) && r.typ in types
    ensures
      var before, after := Run(ops).rings.checks, Run(ops + [Push(r)]).rings.checks;
      k in before && before[k].typ in types && (before[k].typ, before[k].name) != (r.typ, r.name) ==>
        k in after && after[k] == before[k]
  {
    RunAppended(ops, Push(r));
    RingKey(ops, k);
    if k in Run(ops).rings.checks && Run(ops).rings.checks[k].typ in types {
      var ring := Run(ops).rings.checks[k];
      Keys.SameKeySameCheck(types, ring.typ, ring.name, r.typ, r.name);
      if k != Keys.CheckKey(r.typ, r.name) {
        PushKeepsOthers(Run(ops).rings, r, k);
      }
    }
  }

  lemma PushKeepsOthers(s: Rings, r: Result, k: string)
    requires s.Valid() && k in s.checks && k != Keys.CheckKey(r.typ, r.name)
    ensures k in PushRings(s, r).checks && PushRings(s, r).checks[k] == s.checks[k]
  {
  }
}
