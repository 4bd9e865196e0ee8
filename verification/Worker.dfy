/**
 The worker's drain loop: every result goes to the status store, to the notifier and through budget
 evaluation, whose threshold crossings go back to the notifier.
 */
module Worker {
  import opened Wrappers
  import opened Check
  import opened Streaks
  import opened StoreModel
  import opened Notify
  import Budget
  import Keys
  import Sorting
  import Store

  // ----- What one budget result does -----

  /** The budget states of the store, the notifier's budget flags, and the budget events dispatched so far. */
  datatype Side = Side(budgets: Budgets, tracker: BudgetTracker, events: seq<Event>)

  function FlagStep(s: Side, c: Budget.CheckResult, now: int): Side {
    var budgets := RecordBudget(s.budgets, c.check, c.metric, c.violated);
    if CrossesThreshold(s.budgets, c.check, c.metric, c.violated) then
      var (tracker, event) := OnBudget(s.tracker, c.check, c.metric, true, now);
      Side(budgets, tracker, s.events + if event.Some? then [event.value] else [])
    else Side(budgets, s.tracker, s.events)
  }

  function FlagRun(s: Side, cs: seq<Budget.CheckResult>, now: int): Side {
    if cs == [] then s else FlagStep(FlagRun(s, cs[..|cs| - 1], now), cs[|cs| - 1], now)
  }

  /** The budget results of one check result: none for infrastructure errors or without budgets. */
  ghost function Flagged(r: Result, entries: seq<Budget.Entry>): seq<Budget.CheckResult> {
    if |entries| > 0 && !r.infraError then Budget.Evaluation(r, entries) else []
  }

  // ----- The loop body -----

  /** What the notifier remembers, send times aside. */
  datatype Memory = Memory(checks: CheckTracker, certs: CertTracker, budgets: BudgetTracker)

  ghost function MemoryOf(notifier: Manager): Memory
    reads notifier
  {
    Memory(notifier.Checks(), notifier.certStates, notifier.budgetStates)
  }

  datatype Outcome = Outcome(memory: Memory, budgets: Budgets, events: seq<Event>)

  /** Memory, budget states and dispatched events after one result. */
  ghost function AfterResult(m: Memory, b: Budgets, r: Result, entries: seq<Budget.Entry>, now: int): Outcome {
    var (checks, event) := OnResult(m.checks, r);
    var (certs, certEvent) := OnCert(m.certs, r);
    var side := FlagRun(Side(b, m.budgets, []), Flagged(r, entries), now);
    Outcome(Memory(checks, certs, side.tracker), side.budgets, Listed(event) + Listed(certEvent) + side.events)
  }

  /** Everything the drain loop does with one result when webhooks are configured. */
  method Drain(store: Store.Store, notifier: Manager, entries: seq<Budget.Entry>, r: Result, now: int)
    returns (events: seq<Event>)
    requires store.Valid()
    modifies store, store.checks.Values, notifier
    ensures store.Valid() && store.rings == PushRings(old(store.rings), r)
    ensures Outcome(MemoryOf(notifier), store.budgetChecks, events) ==
              AfterResult(old(MemoryOf(notifier)), old(store.budgetChecks), r, entries, now)
    ensures notifier.lastSent == SendAll(notifier.webhooks, old(notifier.lastSent), events, now)
  {
    Keep(store, r, notifier);
    events := Notice(store, notifier, entries, r, now);
  }

  /** The store's share: the notifier is not touched. */
  method Keep(store: Store.Store, r: Result, ghost notifier: Manager)
    requires store.Valid()
    modifies store, store.checks.Values
    ensures store.Valid() && store.rings == PushRings(old(store.rings), r)
    ensures store.budgetChecks == old(store.budgetChecks) && MemoryOf(notifier) == old(MemoryOf(notifier))
    ensures notifier.lastSent == old(notifier.lastSent)
  {
    store.Push(r);
  }

  /** Send times after dispatching the events one after the other. */
  function SendAll(webhooks: seq<Webhook>, lastSent: map<string, int>, events: seq<Event>, now: int): map<string, int> {
    if events == [] then lastSent
    else AfterDispatch(webhooks, SendAll(webhooks, lastSent, events[..|events| - 1], now), events[|events| - 1], now)
  }

  lemma {:induction false} SendAllConcat(
    webhooks: seq<Webhook>, lastSent: map<string, int>, a: seq<Event>, b: seq<Event>, now: int)
    ensures SendAll(webhooks, lastSent, a + b, now) == SendAll(webhooks, SendAll(webhooks, lastSent, a, now), b, now)
  {
    if b == [] {
      assert a + b == a;
    } else {
      SendAllConcat(webhooks, lastSent, a, b[..|b| - 1], now);
      assert (a + b)[..|a + b| - 1] == a + b[..|b| - 1];
    }
  }

  lemma SendListed(webhooks: seq<Webhook>, lastSent: map<string, int>, e: Option<Event>, now: int)
    ensures
      SendAll(webhooks, lastSent, Listed(e), now) ==
      if e.Some? then AfterDispatch(webhooks, lastSent, e.value, now) else lastSent
  {
    if e.Some? {
      assert Listed(e)[..0] == [];
    }
  }

  /** The notifier's and the budgets' share: the rings are not touched. */
  method Notice(store: Store.Store, notifier: Manager, entries: seq<Budget.Entry>, r: Result, now: int)
    returns (events: seq<Event>)
    requires store.Valid()
    modifies store`budgetChecks, store`snapCache, store`stale, notifier
    ensures store.Valid()
    ensures Outcome(MemoryOf(notifier), store.budgetChecks, events) ==
              AfterResult(old(MemoryOf(notifier)), old(store.budgetChecks), r, entries, now)
    ensures notifier.lastSent == SendAll(notifier.webhooks, old(notifier.lastSent), events, now)
  {
    events := NoticeState(notifier, r, now);
    var budgetEvents := [];
    if |entries| > 0 && !r.infraError {
      var cs := Budget.EvaluateAll(r, entries);
      budgetEvents := DrainBudgets(store, notifier, cs, now);
    }
    SendAllConcat(notifier.webhooks, old(notifier.lastSent), events, budgetEvents, now);
    events := events + budgetEvents;
  }

  /** Down, up and certificate events. */
  method NoticeState(notifier: Manager, r: Result, now: int) returns (events: seq<Event>)
    modifies notifier`checkStates, notifier`failCounts, notifier`notifiedDown, notifier`certStates, notifier`lastSent
    ensures notifier.Checks() == OnResult(old(notifier.Checks()), r).0
    ensures notifier.certStates == OnCert(old(notifier.certStates), r).0
    ensures events == Listed(OnResult(old(notifier.Checks()), r).1) + Listed(OnCert(old(notifier.certStates), r).1)
    ensures notifier.lastSent == SendAll(notifier.webhooks, old(notifier.lastSent), events, now)
  {
    var event, _ := notifier.HandleResult(r, now);
    SendListed(notifier.webhooks, old(notifier.lastSent), event, now);
    ghost var between := notifier.lastSent;
    var certEvent, _ := notifier.HandleCertResult(r, now);
    SendListed(notifier.webhooks, between, certEvent, now);
    events := Listed(event) + Listed(certEvent);
    SendAllConcat(notifier.webhooks, old(notifier.lastSent), Listed(event), Listed(certEvent), now);
  }

  function Listed(e: Option<Event>): seq<Event> {
    if e.Some? then [e.value] else []
  }

  method DrainBudgets(store: Store.Store, notifier: Manager, cs: seq<Budget.CheckResult>, now: int)
    returns (events: seq<Event>)
    modifies store`budgetChecks, store`snapCache, store`stale, notifier`budgetStates, notifier`lastSent
    ensures Side(store.budgetChecks, notifier.budgetStates, events) ==
              FlagRun(Side(old(store.budgetChecks), old(notifier.budgetStates), []), cs, now)
    ensures notifier.lastSent == SendAll(notifier.webhooks, old(notifier.lastSent), events, now)
  {
    events := [];
    ghost var start := Side(store.budgetChecks, notifier.budgetStates, []);
    for i := 0 to |cs|
      invariant Side(store.budgetChecks, notifier.budgetStates, events) == FlagRun(start, cs[..i], now)
      invariant notifier.lastSent == SendAll(notifier.webhooks, old(notifier.lastSent), events, now)
    {
      assert cs[..i + 1][..i] == cs[..i];
      var event := DrainBudget(store, notifier, cs[i], now);
      SendAllConcat(notifier.webhooks, old(notifier.lastSent), events, Listed(event), now);
      events := events + Listed(event);
    }
    assert cs[..|cs|] == cs;
  }

  /** One budget result: recorded, and announced if it makes the streak reach the threshold. */
  method DrainBudget(store: Store.Store, notifier: Manager, c: Budget.CheckResult, now: int)
    returns (event: Option<Event>)
    modifies store`budgetChecks, store`snapCache, store`stale, notifier`budgetStates, notifier`lastSent
    ensures forall events :: FlagStep(Side(old(store.budgetChecks), old(notifier.budgetStates), events), c, now) ==
                               Side(store.budgetChecks, notifier.budgetStates, events + Listed(event))
    ensures notifier.lastSent == SendAll(notifier.webhooks, old(notifier.lastSent), Listed(event), now)
  {
    event := None;
    var crossed := store.RecordBudgetCheck(c.check, c.metric, c.violated);
    if crossed {
      var announced, _ := notifier.HandleBudgetViolation(c.check, c.metric, true, now);
      event := announced;
    }
    SendListed(notifier.webhooks, old(notifier.lastSent), event, now);
  }

  // ----- Reference: streaks and crossings of one (check, metric) pair -----

  /** The violated flags recorded for the pair, in order. */
  function PairFlags(cs: seq<Budget.CheckResult>, check: string, metric: string): seq<bool> {
    if cs == [] then []
    else
      var c := cs[|cs| - 1];
      PairFlags(cs[..|cs| - 1], check, metric) + if c.check == check && c.metric == metric then [c.violated] else []
  }

  /** The violation streak after the flags, starting from a streak of n. */
  function StreakFrom(n: int, flags: seq<bool>): int {
    if flags == [] then n
    else if flags[|flags| - 1] then StreakFrom(n, flags[..|flags| - 1]) + 1
    else 0
  }

  /** How often the streak reaches the fail threshold. */
  function Crossings(n: int, flags: seq<bool>): nat {
    if flags == [] then 0
    else Crossings(n, flags[..|flags| - 1]) + if StreakFrom(n, flags) == BUDGET_FAIL_THRESHOLD then 1 else 0
  }

  lemma {:induction false} StreaksConcat(n: int, a: seq<bool>, b: seq<bool>)
    ensures StreakFrom(n, a + b) == StreakFrom(StreakFrom(n, a), b)
    ensures Crossings(n, a + b) == Crossings(n, a) + Crossings(StreakFrom(n, a), b)
  {
    if b == [] {
      assert a + b == a;
    } else {
      StreaksConcat(n, a, b[..|b| - 1]);
      assert (a + b)[..|a + b| - 1] == a + b[..|b| - 1];
    }
  }

  /** A stored streak is the trailing run of the flags recorded before, so streaks span restarts. */
  lemma {:induction false} StreakSpansRestart(before: seq<bool>, flags: seq<bool>)
    ensures StreakFrom(TrailingTrue(before), flags) == TrailingTrue(before + flags)
  {
    if flags == [] {
      assert before + flags == before;
    } else {
      StreakSpansRestart(before, flags[..|flags| - 1]);
      assert before + flags == before + flags[..|flags| - 1] + [flags[|flags| - 1]];
      TrailingTrueSnoc(before + flags[..|flags| - 1], flags[|flags| - 1]);
    }
  }

  predicate About(e: Event, check: string, metric: string) {
    e.typ == BudgetViolation && e.check == check && e.metric == metric
  }

  function CountAbout(es: seq<Event>, check: string, metric: string): nat {
    if es == [] then 0
    else CountAbout(es[..|es| - 1], check, metric) + if About(es[|es| - 1], check, metric) then 1 else 0
  }

  lemma {:induction false} CountConcat(a: seq<Event>, b: seq<Event>, check: string, metric: string)
    ensures CountAbout(a + b, check, metric) == CountAbout(a, check, metric) + CountAbout(b, check, metric)
  {
    if b == [] {
      assert a + b == a;
    } else {
      CountConcat(a, b[..|b| - 1], check, metric);
      assert (a + b)[..|a + b| - 1] == a + b[..|b| - 1];
    }
  }

  // ----- One process lifetime -----

  ghost predicate ColonFree(cs: seq<Budget.CheckResult>) {
    forall i :: 0 <= i < |cs| ==> ':' !in cs[i].metric
  }

  /** How the state of a pair moves when it has seen the given flags. */
  ghost predicate Moved(s: Side, t: Side, check: string, metric: string, flags: seq<bool>) {
    var key := Keys.BudgetKey(check, metric);
    var n := BudgetAt(s.budgets, key).streak;
    && BudgetAt(t.budgets, key).streak == StreakFrom(n, flags)
    && (BudgetFlag(t.tracker, key) <==> BudgetFlag(s.tracker, key) || Crossings(n, flags) > 0)
    && CountAbout(t.events, check, metric) ==
       CountAbout(s.events, check, metric) + if !BudgetFlag(s.tracker, key) && Crossings(n, flags) > 0 then 1 else 0
  }

  lemma PairFlagsOne(c: Budget.CheckResult, check: string, metric: string)
    ensures PairFlags([c], check, metric) == if c.check == check && c.metric == metric then [c.violated] else []
  {
    var cs := [c];
    assert cs[..|cs| - 1] == [];
  }

  lemma StreakOne(n: int, v: bool)
    ensures StreakFrom(n, [v]) == if v then n + 1 else 0
    ensures Crossings(n, [v]) == if StreakFrom(n, [v]) == BUDGET_FAIL_THRESHOLD then 1 else 0
  {
    var flags := [v];
    assert flags[..|flags| - 1] == [];
  }

  lemma FlagStepMoves(s: Side, c: Budget.CheckResult, now: int, check: string, metric: string)
    requires ':' !in c.metric && ':' !in metric
    ensures Moved(s, FlagStep(s, c, now), check, metric, PairFlags([c], check, metric))
  {
    PairFlagsOne(c, check, metric);
    if c.check == check && c.metric == metric {
      StreakOne(BudgetAt(s.budgets, Keys.BudgetKey(check, metric)).streak, c.violated);
    } else {
      if Keys.BudgetKey(c.check, c.metric) == Keys.BudgetKey(check, metric) {
        Keys.BudgetKeyInjective(c.check, c.metric, check, metric);
      }
    }
    var t := FlagStep(s, c, now);
    if t.events != s.events {
      assert t.events[..|t.events| - 1] == s.events;
    }
  }

  lemma MovesCompose(s: Side, t: Side, u: Side, check: string, metric: string, a: seq<bool>, b: seq<bool>)
    requires Moved(s, t, check, metric, a) && Moved(t, u, check, metric, b)
    ensures Moved(s, u, check, metric, a + b)
  {
    StreaksConcat(BudgetAt(s.budgets, Keys.BudgetKey(check, metric)).streak, a, b);
  }

  lemma {:induction false} FlagRunMoves(s: Side, cs: seq<Budget.CheckResult>, now: int, check: string, metric: string)
    requires ColonFree(cs) && ':' !in metric
    ensures Moved(s, FlagRun(s, cs, now), check, metric, PairFlags(cs, check, metric))
  {
    if cs == [] {
    } else {
      var n := |cs| - 1;
      var t := FlagRun(s, cs[..n], now);
      FlagRunMoves(s, cs[..n], now, check, metric);
      FlagStepMoves(t, cs[n], now, check, metric);
      MovesCompose(s, t, FlagStep(t, cs[n], now), check, metric,
                   PairFlags(cs[..n], check, metric), PairFlags([cs[n]], check, metric));
      PairFlagsOne(cs[n], check, metric);
      assert PairFlags(cs, check, metric) == PairFlags(cs[..n], check, metric) + PairFlags([cs[n]], check, metric);
    }
  }

  lemma FlaggedIsColonFree(r: Result, entries: seq<Budget.Entry>)
    ensures ColonFree(Flagged(r, entries))
  {
    var cs := Flagged(r, entries);
    forall i | 0 <= i < |cs|
      ensures ':' !in cs[i].metric
    {
      Budget.EvaluationMeaning(r, entries, cs[i].metric);
      Budget.MeasuredMetricsAreColonFree(r, cs[i].metric);
    }
  }

  datatype Input = Input(r: Result, now: int)

  const FRESH := Memory(NO_CHECKS, map[], map[])

  /** A process from its start with loaded budget states: the outcome of draining the inputs in order. */
  ghost function Lifetime(b: Budgets, inputs: seq<Input>, entries: seq<Budget.Entry>): Outcome {
    if inputs == [] then Outcome(FRESH, b, [])
    else
      var o := Lifetime(b, inputs[..|inputs| - 1], entries);
      var last := inputs[|inputs| - 1];
      var next := AfterResult(o.memory, o.budgets, last.r, entries, last.now);
      Outcome(next.memory, next.budgets, o.events + next.events)
  }

  /** The flags a process records for a pair. */
  ghost function RecordedFlags(inputs: seq<Input>, entries: seq<Budget.Entry>, check: string, metric: string): seq<bool> {
    if inputs == [] then []
    else RecordedFlags(inputs[..|inputs| - 1], entries, check, metric) +
         PairFlags(Flagged(inputs[|inputs| - 1].r, entries), check, metric)
  }

  ghost function SideOf(o: Outcome): Side {
    Side(o.budgets, o.memory.budgets, o.events)
  }

  lemma OtherEventsDoNotCount(e: Option<Event>, check: string, metric: string)
    requires e.Some? ==> e.value.typ != BudgetViolation
    ensures CountAbout(Listed(e), check, metric) == 0
  {
    if e.Some? {
      assert [e.value][..0] == [];
    }
  }

  lemma AfterResultMoves(
    o: Outcome, r: Result, entries: seq<Budget.Entry>, now: int, check: string, metric: string)
    requires ':' !in metric
    ensures
      var next := AfterResult(o.memory, o.budgets, r, entries, now);
      Moved(SideOf(o), Side(next.budgets, next.memory.budgets, o.events + next.events), check, metric,
            PairFlags(Flagged(r, entries), check, metric))
  {
    var side := Side(o.budgets, o.memory.budgets, []);
    var run := FlagRun(side, Flagged(r, entries), now);
    var event, certEvent := OnResult(o.memory.checks, r).1, OnCert(o.memory.certs, r).1;
    FlaggedIsColonFree(r, entries);
    FlagRunMoves(side, Flagged(r, entries), now, check, metric);
    OtherEventsDoNotCount(event, check, metric);
    OtherEventsDoNotCount(certEvent, check, metric);
    CountConcat(Listed(event), Listed(certEvent), check, metric);
    CountConcat(Listed(event) + Listed(certEvent), run.events, check, metric);
    CountConcat(o.events, Listed(event) + Listed(certEvent) + run.events, check, metric);
  }

  lemma {:induction false} LifetimeMoves(
    b: Budgets, inputs: seq<Input>, entries: seq<Budget.Entry>, check: string, metric: string)
    requires ':' !in metric
    ensures Moved(Side(b, map[], []), SideOf(Lifetime(b, inputs, entries)), check, metric,
                  RecordedFlags(inputs, entries, check, metric))
  {
    if inputs == [] {
    } else {
      var n := |inputs| - 1;
      var o := Lifetime(b, inputs[..n], entries);
      LifetimeMoves(b, inputs[..n], entries, check, metric);
      AfterResultMoves(o, inputs[n].r, entries, inputs[n].now, check, metric);
      MovesCompose(Side(b, map[], []), SideOf(o), SideOf(Lifetime(b, inputs, entries)), check, metric,
                   RecordedFlags(inputs[..n], entries, check, metric),
                   PairFlags(Flagged(inputs[n].r, entries), check, metric));
    }
  }

  /**
   In one process lifetime a pair gets at most one budget event: exactly one when its streak,
   continued from the stored one, reaches the threshold at least once, and none otherwise.
   */
  lemma OneBudgetEventPerProcess(
    b: Budgets, inputs: seq<Input>, entries: seq<Budget.Entry>, check: string, metric: string)
    requires ':' !in metric
    ensures
      var stored := BudgetAt(b, Keys.BudgetKey(check, metric)).streak;
      var crossings := Crossings(stored, RecordedFlags(inputs, entries, check, metric));
      CountAbout(Lifetime(b, inputs, entries).events, check, metric) == if crossings > 0 then 1 else 0
  {
    LifetimeMoves(b, inputs, entries, check, metric);
  }

  /** Every crossing is announced exactly when there is at most one of them. */
  lemma EveryCrossingAnnouncedIff(
    b: Budgets, inputs: seq<Input>, entries: seq<Budget.Entry>, check: string, metric: string)
    requires ':' !in metric
    ensures
      var stored := BudgetAt(b, Keys.BudgetKey(check, metric)).streak;
      var crossings := Crossings(stored, RecordedFlags(inputs, entries, check, metric));
      CountAbout(Lifetime(b, inputs, entries).events, check, metric) == crossings <==> crossings <= 1
  {
    OneBudgetEventPerProcess(b, inputs, entries, check, metric);
  }

  // ----- The recorded flags are the evaluated ones -----

  lemma {:induction false} OneFlagPerMetric(cs: seq<Budget.CheckResult>, name: string, metric: string)
    requires forall i :: 0 <= i < |cs| ==> cs[i].check == name
    requires forall i, j :: 0 <= i < j < |cs| ==> cs[i].metric != cs[j].metric
    ensures forall i :: 0 <= i < |cs| && cs[i].metric == metric ==> PairFlags(cs, name, metric) == [cs[i].violated]
    ensures (forall i :: 0 <= i < |cs| ==> cs[i].metric != metric) ==> PairFlags(cs, name, metric) == []
  {
    if cs == [] {
    } else {
      var n := |cs| - 1;
      OneFlagPerMetric(cs[..n], name, metric);
      assert forall i :: 0 <= i < n ==> cs[..n][i] == cs[i];
    }
  }

  lemma {:induction false} OtherNamesRecordNothing(cs: seq<Budget.CheckResult>, check: string, metric: string)
    requires forall i :: 0 <= i < |cs| ==> cs[i].check != check
    ensures PairFlags(cs, check, metric) == []
  {
    if cs == [] {
    } else {
      OtherNamesRecordNothing(cs[..|cs| - 1], check, metric);
    }
  }

  /**
   A result records a flag for a pair exactly when it is no infrastructure error, carries the check's
   name, and the metric is both measured and budgeted; the flag says that the value exceeds the
   threshold that applies.
   */
  lemma FlagMeaning(r: Result, entries: seq<Budget.Entry>, check: string, metric: string)
    ensures
      var applied := Budget.AppliedThreshold(entries, r.name, metric);
      var actuals := Budget.ExtractMetrics(r);
      PairFlags(Flagged(r, entries), check, metric) ==
      if !r.infraError && r.name == check && metric in actuals && applied.Some?
      then [actuals[metric] > applied.value.threshold]
      else []
  {
    var cs := Flagged(r, entries);
    if r.infraError || |entries| == 0 {
      assert cs == [];
    } else {
      Budget.EvaluationMeaning(r, entries, metric);
      if r.name != check {
        OtherNamesRecordNothing(cs, check, metric);
      } else {
        var ms := Budget.MetricsOf(cs);
        forall i, j | 0 <= i < j < |cs|
          ensures cs[i].metric != cs[j].metric
        {
          Sorting.StringLessAsymmetric(ms[i], ms[j]);
        }
        OneFlagPerMetric(cs, check, metric);
        if metric in ms {
          var i :| 0 <= i < |ms| && ms[i] == metric;
          assert cs[i].metric == metric;
        } else {
          assert forall i :: 0 <= i < |cs| ==> cs[i].metric == ms[i];
        }
      }
    }
  }

  /** The flag of a pair by the result's own fields. */
  lemma FlagByFields(r: Result, entries: seq<Budget.Entry>, check: string, metric: string, v: real)
    requires Budget.Measures(r, metric, v)
    ensures
      var applied := Budget.AppliedThreshold(entries, r.name, metric);
      PairFlags(Flagged(r, entries), check, metric) ==
      if !r.infraError && r.name == check && applied.Some? then [v > applied.value.threshold] else []
  {
    FlagMeaning(r, entries, check, metric);
    Budget.MeasuresIff(r, metric, v);
  }

  // ----- Checks of different types that share a name -----

  /** The flags that results of one check type record for the pair. */
  ghost function FlagsOfType(
    inputs: seq<Input>, entries: seq<Budget.Entry>, typ: string, check: string, metric: string): seq<bool>
  {
    if inputs == [] then []
    else
      var r := inputs[|inputs| - 1].r;
      FlagsOfType(inputs[..|inputs| - 1], entries, typ, check, metric) +
      if r.typ == typ then PairFlags(Flagged(r, entries), check, metric) else []
  }

  /** The result is no infrastructure error, carries the name, and measures a metric that has a threshold. */
  predicate RecordsFlag(r: Result, entries: seq<Budget.Entry>, check: string, metric: string) {
    && !r.infraError
    && r.name == check
    && metric in Budget.ExtractMetrics(r)
    && Budget.AppliedThreshold(entries, r.name, metric).Some?
  }

  ghost predicate OnlyType(inputs: seq<Input>, entries: seq<Budget.Entry>, typ: string, check: string, metric: string) {
    forall i :: 0 <= i < |inputs| && inputs[i].r.typ != typ ==> !RecordsFlag(inputs[i].r, entries, check, metric)
  }

  lemma RecordsFlagIff(r: Result, entries: seq<Budget.Entry>, check: string, metric: string)
    ensures RecordsFlag(r, entries, check, metric) <==> PairFlags(Flagged(r, entries), check, metric) != []
  {
    FlagMeaning(r, entries, check, metric);
  }

  ghost predicate OthersSilent(inputs: seq<Input>, entries: seq<Budget.Entry>, typ: string, check: string, metric: string) {
    forall i :: 0 <= i < |inputs| && inputs[i].r.typ != typ ==>
      PairFlags(Flagged(inputs[i].r, entries), check, metric) == []
  }

  lemma OthersSilentSnoc(inputs: seq<Input>, entries: seq<Budget.Entry>, typ: string, check: string, metric: string)
    requires inputs != []
    ensures
      var n := |inputs| - 1;
      OthersSilent(inputs, entries, typ, check, metric) <==>
      && OthersSilent(inputs[..n], entries, typ, check, metric)
      && (inputs[n].r.typ != typ ==> PairFlags(Flagged(inputs[n].r, entries), check, metric) == [])
  {
    var n := |inputs| - 1;
    assert forall i :: 0 <= i < n ==> inputs[..n][i] == inputs[i];
  }

  lemma {:induction false} ForeignFlagsAdd(
    inputs: seq<Input>, entries: seq<Budget.Entry>, typ: string, check: string, metric: string)
    ensures
      var all := RecordedFlags(inputs, entries, check, metric);
      var own := FlagsOfType(inputs, entries, typ, check, metric);
      if OthersSilent(inputs, entries, typ, check, metric) then all == own else |all| > |own|
  {
    if inputs == [] {
    } else {
      ForeignFlagsAdd(inputs[..|inputs| - 1], entries, typ, check, metric);
      OthersSilentSnoc(inputs, entries, typ, check, metric);
    }
  }

  /**
   Budget state is keyed by name and metric, so the flags of a check (type and name) are those the store
   counts if and only if no result of another type with that name records a flag for the metric.
   */
  lemma FlagsArePerCheckIff(
    inputs: seq<Input>, entries: seq<Budget.Entry>, typ: string, check: string, metric: string)
    ensures
      RecordedFlags(inputs, entries, check, metric) == FlagsOfType(inputs, entries, typ, check, metric) <==>
      OnlyType(inputs, entries, typ, check, metric)
  {
    ForeignFlagsAdd(inputs, entries, typ, check, metric);
    forall i | 0 <= i < |inputs|
      ensures RecordsFlag(inputs[i].r, entries, check, metric) <==>
              PairFlags(Flagged(inputs[i].r, entries), check, metric) != []
    {
      RecordsFlagIff(inputs[i].r, entries, check, metric);
    }
  }

  /** The streak of the pair that the store counts, and that of the check's own flags, both from a stored n. */
  ghost predicate StreaksAgree(
    n: int, inputs: seq<Input>, entries: seq<Budget.Entry>, typ: string, check: string, metric: string)
  {
    StreakFrom(n, RecordedFlags(inputs, entries, check, metric)) ==
    StreakFrom(n, FlagsOfType(inputs, entries, typ, check, metric))
  }

  /** A result of another type leaves the check's streak alone: no flag, or a pass while the streak is 0. */
  ghost predicate Harmless(
    n: int, before: seq<Input>, r: Result, entries: seq<Budget.Entry>, typ: string, check: string, metric: string)
  {
    r.typ != typ ==>
      var flags := PairFlags(Flagged(r, entries), check, metric);
      flags == [] || (flags == [false] && StreakFrom(n, FlagsOfType(before, entries, typ, check, metric)) == 0)
  }

  lemma FlagsAppended(inputs: seq<Input>, k: nat, entries: seq<Budget.Entry>, typ: string, check: string, metric: string)
    requires k < |inputs|
    ensures
      var flags := PairFlags(Flagged(inputs[k].r, entries), check, metric);
      && RecordedFlags(inputs[..k + 1], entries, check, metric) == RecordedFlags(inputs[..k], entries, check, metric) + flags
      && FlagsOfType(inputs[..k + 1], entries, typ, check, metric) ==
         FlagsOfType(inputs[..k], entries, typ, check, metric) + (if inputs[k].r.typ == typ then flags else [])
      && |flags| <= 1
  {
    assert inputs[..k + 1][..k] == inputs[..k];
    FlagMeaning(inputs[k].r, entries, check, metric);
  }

  lemma {:induction false} StreakStaysNatural(n: int, flags: seq<bool>)
    requires n >= 0
    ensures StreakFrom(n, flags) >= 0
  {
    if flags == [] {
    } else {
      StreakStaysNatural(n, flags[..|flags| - 1]);
    }
  }

  lemma StreaksStep(n: int, all: seq<bool>, own: seq<bool>, flags: seq<bool>, mine: bool)
    requires n >= 0 && |flags| <= 1 && StreakFrom(n, all) == StreakFrom(n, own)
    ensures
      StreakFrom(n, all + flags) == StreakFrom(n, own + if mine then flags else []) <==>
      mine || flags == [] || (flags == [false] && StreakFrom(n, own) == 0)
  {
    StreakStaysNatural(n, own);
    StreaksConcat(n, all, flags);
    StreaksConcat(n, own, flags);
    assert own + [] == own;
    if flags != [] {
      assert flags == [flags[0]];
      StreakOne(StreakFrom(n, all), flags[0]);
    }
  }

  /** One result: streaks that agree before it agree after it exactly when it is harmless. */
  lemma StreaksAgreeStep(
    n: int, inputs: seq<Input>, k: nat, entries: seq<Budget.Entry>, typ: string, check: string, metric: string)
    requires n >= 0 && k < |inputs| && StreaksAgree(n, inputs[..k], entries, typ, check, metric)
    ensures StreaksAgree(n, inputs[..k + 1], entries, typ, check, metric) <==>
            Harmless(n, inputs[..k], inputs[k].r, entries, typ, check, metric)
  {
    FlagsAppended(inputs, k, entries, typ, check, metric);
    StreaksStep(n, RecordedFlags(inputs[..k], entries, check, metric), FlagsOfType(inputs[..k], entries, typ, check, metric),
      PairFlags(Flagged(inputs[k].r, entries), check, metric), inputs[k].r.typ == typ);
  }

  /** If each step keeps `agree` exactly when it is `harmless`, it holds throughout exactly when all steps are. */
  lemma {:induction false} AllStepsIff(agree: nat -> bool, harmless: nat -> bool, m: nat)
    requires agree(0) && forall k :: 0 <= k < m && agree(k) ==> (agree(k + 1) <==> harmless(k))
    ensures (forall k :: 0 <= k <= m ==> agree(k)) <==> (forall k :: 0 <= k < m ==> harmless(k))
  {
    if m == 0 {
    } else {
      AllStepsIff(agree, harmless, m - 1);
      assert agree(m - 1) ==> (agree(m - 1 + 1) <==> harmless(m - 1));
      if forall k :: 0 <= k < m ==> harmless(k) {
        assert harmless(m - 1) && agree(m - 1);
      }
      if forall k :: 0 <= k <= m ==> agree(k) {
        assert agree(m - 1) && agree(m);
      }
    }
  }

  /**
   The streak the store counts is at every moment that of one check if and only if every flag of
   another type under its name is a pass and arrives while the check's own streak is 0.
   */
  lemma StreakIsPerCheckIff(
    n: int, inputs: seq<Input>, entries: seq<Budget.Entry>, typ: string, check: string, metric: string)
    requires n >= 0
    ensures
      (forall k :: 0 <= k <= |inputs| ==> StreaksAgree(n, inputs[..k], entries, typ, check, metric)) <==>
      (forall k :: 0 <= k < |inputs| ==> Harmless(n, inputs[..k], inputs[k].r, entries, typ, check, metric))
  {
    var agree := (k: nat) => k <= |inputs| && StreaksAgree(n, inputs[..k], entries, typ, check, metric);
    var harmless := (k: nat) => k < |inputs| && Harmless(n, inputs[..k], inputs[k].r, entries, typ, check, metric);
    assert inputs[..0] == [];
    forall k | 0 <= k < |inputs| && agree(k)
      ensures agree(k + 1) <==> harmless(k)
    {
      StreaksAgreeStep(n, inputs, k, entries, typ, check, metric);
    }
    AllStepsIff(agree, harmless, |inputs|);
    assert forall k: nat :: agree(k) <==> k <= |inputs| && StreaksAgree(n, inputs[..k], entries, typ, check, metric);
    assert forall k: nat :: harmless(k) <==> k < |inputs| && Harmless(n, inputs[..k], inputs[k].r, entries, typ, check, metric);
  }

  /**
   If only one type uses the name, the threshold is crossed exactly where this check's own violations,
   continued from the stored streak, make three in a row.
   */
  lemma UniqueNameCrossesOnItsOwn(
    b: Budgets, inputs: seq<Input>, entries: seq<Budget.Entry>, typ: string, check: string, metric: string, violated: bool)
    requires ':' !in metric
    requires forall i :: 0 <= i < |inputs| && inputs[i].r.name == check ==> inputs[i].r.typ == typ
    ensures
      var stored := BudgetAt(b, Keys.BudgetKey(check, metric)).streak;
      CrossesThreshold(Lifetime(b, inputs, entries).budgets, check, metric, violated) <==>
      StreakFrom(stored, FlagsOfType(inputs, entries, typ, check, metric) + [violated]) == BUDGET_FAIL_THRESHOLD
  {
    var own := FlagsOfType(inputs, entries, typ, check, metric);
    assert OnlyType(inputs, entries, typ, check, metric);
    FlagsArePerCheckIff(inputs, entries, typ, check, metric);
    LifetimeMoves(b, inputs, entries, check, metric);
    assert (own + [violated])[..|own|] == own;
  }
}
