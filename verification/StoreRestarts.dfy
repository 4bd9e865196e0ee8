/**
 Restarts: what a save brings back when other operations overlap it, when that is a state the store
 was in, and that a process restarted from such a state cannot be told from one that never stopped.
 */
module StoreRestarts {
  import opened Check
  import opened Ring
  import opened Seqs
  import opened StoreModel
  import opened StoreRuns
  import opened StoreResults
  import Keys

  // ----- A restart from a save that other operations may overlap -----

  ghost predicate SameLive(a: RefWorld, b: RefWorld) {
    a.rings == b.rings && a.budgets == b.budgets
  }

  predicate LiveOp(op: Op) {
    op.Push? || op.Record? || op.Reconcile?
  }

  lemma RefRunAppended(ops: seq<Op>, op: Op)
    ensures RefRun(ops + [op]) == RefStep(RefRun(ops), op)
  {
    assert (ops + [op])[..|ops|] == ops;
  }

  /**
   A save that reads the rings, then the budgets with `between` happening in the meantime, and commits
   after `after`; then a restart from the image it committed.
   */
  function SaveAndRestart(ops: seq<Op>, id: nat, between: seq<Op>, after: seq<Op>): seq<Op> {
    ops + [SaveRings(id)] + between + [SaveBudgets(id)] + after + [SaveCommit(id)] + [Op.Restart(|RefRun(ops).disk|)]
  }

  lemma {:induction false} LiveOpsKeepSaves(ops: seq<Op>, live: seq<Op>)
    requires forall op :: op in live ==> LiveOp(op)
    ensures RefRun(ops + live).saves == RefRun(ops).saves && RefRun(ops + live).disk == RefRun(ops).disk
  {
    if live == [] {
      assert ops + live == ops;
    } else {
      var n := |live| - 1;
      LiveOpsKeepSaves(ops, live[..n]);
      assert ops + live == ops + live[..n] + [live[n]];
      RefRunAppended(ops + live[..n], live[n]);
      assert LiveOp(live[n]);
    }
  }

  lemma BothReadsPending(ops: seq<Op>, id: nat, between: seq<Op>)
    requires forall op :: op in between ==> LiveOp(op)
    ensures
      var w := RefRun(ops + [SaveRings(id)] + between + [SaveBudgets(id)]);
      && id in w.saves
      && w.saves[id] == ReadBoth(Image(RefRun(ops).rings, RefRun(ops + between).budgets))
      && w.disk == RefRun(ops).disk
  {
    var a := ops + [SaveRings(id)];
    RefRunAppended(ops, SaveRings(id));
    LiveOpsKeepSaves(a, between);
    SameLiveSameFuture(a, ops, between);
    RefRunAppended(a + between, SaveBudgets(id));
  }

  lemma CommitAndRestart(ops: seq<Op>, id: nat)
    requires id in RefRun(ops).saves && RefRun(ops).saves[id].ReadBoth?
    ensures
      var w := RefRun(ops + [SaveCommit(id)] + [Op.Restart(|RefRun(ops).disk|)]);
      w.rings == RefRun(ops).saves[id].image.rings && w.budgets == RefRun(ops).saves[id].image.budgets
  {
    RefRunAppended(ops, SaveCommit(id));
    RefRunAppended(ops + [SaveCommit(id)], Op.Restart(|RefRun(ops).disk|));
  }

  /** A restart brings back the rings as they were read and the budgets as they were read, and nothing later. */
  lemma RestartJoinsTwoReads(ops: seq<Op>, id: nat, between: seq<Op>, after: seq<Op>)
    requires forall op :: op in between ==> LiveOp(op)
    requires forall op :: op in after ==> LiveOp(op)
    ensures RefRun(SaveAndRestart(ops, id, between, after)).rings == RefRun(ops).rings
    ensures RefRun(SaveAndRestart(ops, id, between, after)).budgets == RefRun(ops + between).budgets
  {
    var c := ops + [SaveRings(id)] + between + [SaveBudgets(id)];
    BothReadsPending(ops, id, between);
    LiveOpsKeepSaves(c, after);
    CommitAndRestart(c + after, id);
  }

  // ----- When such a restart brings back a state the store was in -----

  /** The operations of the drain loop. */
  predicate DrainOp(op: Op) {
    op.Push? || op.Record?
  }

  ghost predicate PushBeforeRecord(between: seq<Op>) {
    exists i, j :: 0 <= i < j < |between| && between[i].Push? && between[j].Record?
  }

  function HistoryLength(w: RefWorld, key: string): nat {
    if key in w.rings.hist then |w.rings.hist[key]| else 0
  }

  function FlagsLength(w: RefWorld, key: string): nat {
    |Flags(w.budgets, key)|
  }

  lemma DrainStepGrows(ops: seq<Op>, op: Op, key: string)
    requires DrainOp(op)
    ensures HistoryLength(RefRun(ops + [op]), key) >= HistoryLength(RefRun(ops), key)
    ensures FlagsLength(RefRun(ops + [op]), key) >= FlagsLength(RefRun(ops), key)
    ensures op.Push? && key == Keys.CheckKey(op.r.typ, op.r.name) ==>
              HistoryLength(RefRun(ops + [op]), key) > HistoryLength(RefRun(ops), key)
    ensures op.Record? && key == Keys.BudgetKey(op.check, op.metric) ==>
              FlagsLength(RefRun(ops + [op]), key) > FlagsLength(RefRun(ops), key)
    ensures op.Record? ==> RefRun(ops + [op]).rings == RefRun(ops).rings
    ensures op.Push? ==> RefRun(ops + [op]).budgets == RefRun(ops).budgets
  {
    RefRunAppended(ops, op);
  }

  /** Histories and flag lists only grow from one point of a stretch of drain operations to a later one. */
  lemma {:induction false} DrainGrows(ops: seq<Op>, between: seq<Op>, i: nat, j: nat, key: string)
    requires i <= j <= |between| && forall op :: op in between ==> DrainOp(op)
    ensures HistoryLength(RefRun(ops + between[..j]), key) >= HistoryLength(RefRun(ops + between[..i]), key)
    ensures FlagsLength(RefRun(ops + between[..j]), key) >= FlagsLength(RefRun(ops + between[..i]), key)
    decreases j
  {
    if i == j {
    } else {
      DrainGrows(ops, between, i, j - 1, key);
      assert ops + between[..j] == ops + between[..j - 1] + [between[j - 1]];
      DrainStepGrows(ops + between[..j - 1], between[j - 1], key);
    }
  }

  /** The state after j of them has the rings of the start only if none of those j was a push. */
  lemma SameRingsNoPush(ops: seq<Op>, between: seq<Op>, j: nat, i: nat)
    requires i < j <= |between| && forall op :: op in between ==> DrainOp(op)
    requires RefRun(ops + between[..j]).rings == RefRun(ops).rings
    ensures !between[i].Push?
  {
    if between[i].Push? {
      var key := Keys.CheckKey(between[i].r.typ, between[i].r.name);
      assert ops + between[..0] == ops;
      assert ops + between[..i + 1] == ops + between[..i] + [between[i]];
      DrainGrows(ops, between, 0, i, key);
      DrainStepGrows(ops + between[..i], between[i], key);
      DrainGrows(ops, between, i + 1, j, key);
    }
  }

  /** It has the budgets of the end only if none of the later ones is a record. */
  lemma SameBudgetsNoRecord(ops: seq<Op>, between: seq<Op>, j: nat, i: nat)
    requires j <= i < |between| && forall op :: op in between ==> DrainOp(op)
    requires RefRun(ops + between[..j]).budgets == RefRun(ops + between).budgets
    ensures !between[i].Record?
  {
    if between[i].Record? {
      var key := Keys.BudgetKey(between[i].check, between[i].metric);
      assert ops + between[..|between|] == ops + between;
      assert ops + between[..i + 1] == ops + between[..i] + [between[i]];
      DrainGrows(ops, between, j, i, key);
      DrainStepGrows(ops + between[..i], between[i], key);
      DrainGrows(ops, between, i + 1, |between|, key);
    }
  }

  lemma {:induction false} RecordsKeepRings(ops: seq<Op>, between: seq<Op>, j: nat)
    requires j <= |between| && forall i :: 0 <= i < j ==> between[i].Record?
    ensures RefRun(ops + between[..j]).rings == RefRun(ops).rings
    decreases j
  {
    if j == 0 {
      assert ops + between[..0] == ops;
    } else {
      RecordsKeepRings(ops, between, j - 1);
      assert ops + between[..j] == ops + between[..j - 1] + [between[j - 1]];
      DrainStepGrows(ops + between[..j - 1], between[j - 1], "");
    }
  }

  lemma {:induction false} PushesKeepBudgets(ops: seq<Op>, between: seq<Op>, j: nat, n: nat)
    requires j <= n <= |between| && forall i :: j <= i < n ==> between[i].Push?
    ensures RefRun(ops + between[..j]).budgets == RefRun(ops + between[..n]).budgets
    decreases n
  {
    if j == n {
    } else {
      PushesKeepBudgets(ops, between, j, n - 1);
      assert ops + between[..n] == ops + between[..n - 1] + [between[n - 1]];
      DrainStepGrows(ops + between[..n - 1], between[n - 1], "");
    }
  }

  /** How many operations come before the first push. */
  function LeadingRecords(between: seq<Op>): (j: nat)
    ensures j <= |between| && forall i :: 0 <= i < j ==> !between[i].Push?
    ensures j < |between| ==> between[j].Push?
  {
    if between == [] || between[0].Push? then 0
    else
      assert forall i :: 1 <= i < |between| ==> between[i] == between[1..][i - 1];
      1 + LeadingRecords(between[1..])
  }

  /** Without a push before a record, the restart brings back the histories after the leading records. */
  lemma OrderedOverlapIsConsistent(ops: seq<Op>, id: nat, between: seq<Op>, after: seq<Op>) returns (j: nat)
    requires forall op :: op in between ==> DrainOp(op)
    requires forall op :: op in after ==> LiveOp(op)
    requires !PushBeforeRecord(between)
    ensures j <= |between|
    ensures SameLive(RefRun(SaveAndRestart(ops, id, between, after)), RefRun(ops + between[..j]))
  {
    j := LeadingRecords(between);
    assert forall i :: 0 <= i < |between| ==> between[i] in between;
    RecordsKeepRings(ops, between, j);
    PushesKeepBudgets(ops, between, j, |between|);
    assert between[..|between|] == between;
    RestartJoinsTwoReads(ops, id, between, after);
  }

  /**
   In terms of everything that ever happened: what a restart brings back are the histories and flags as
   they were at one moment of the save if and only if no push came before a budget record between the
   two reads.
   */
  lemma HistoriesAreConsistentIff(ops: seq<Op>, id: nat, between: seq<Op>, after: seq<Op>)
    requires forall op :: op in between ==> DrainOp(op)
    requires forall op :: op in after ==> LiveOp(op)
    ensures
      (exists j :: 0 <= j <= |between| &&
         SameLive(RefRun(SaveAndRestart(ops, id, between, after)), RefRun(ops + between[..j]))) <==>
      !PushBeforeRecord(between)
  {
    var back := RefRun(SaveAndRestart(ops, id, between, after));
    if !PushBeforeRecord(between) {
      var j := OrderedOverlapIsConsistent(ops, id, between, after);
      assert SameLive(back, RefRun(ops + between[..j]));
    }
    if j :| 0 <= j <= |between| && SameLive(back, RefRun(ops + between[..j])) {
      RestartJoinsTwoReads(ops, id, between, after);
      forall a, b | 0 <= a < b < |between|
        ensures !(between[a].Push? && between[b].Record?)
      {
        if a < j {
          SameRingsNoPush(ops, between, j, a);
        } else {
          SameBudgetsNoRecord(ops, between, j, b);
        }
      }
    }
  }

  lemma {:induction false} SameLiveSameFuture(a: seq<Op>, b: seq<Op>, more: seq<Op>)
    requires SameLive(RefRun(a), RefRun(b)) && forall op :: op in more ==> LiveOp(op)
    ensures SameLive(RefRun(a + more), RefRun(b + more))
  {
    if more == [] {
      assert a + more == a && b + more == b;
    } else {
      var n := |more| - 1;
      SameLiveSameFuture(a, b, more[..n]);
      assert a + more == a + more[..n] + [more[n]] && b + more == b + more[..n] + [more[n]];
      RefRunAppended(a + more[..n], more[n]);
      RefRunAppended(b + more[..n], more[n]);
      assert LiveOp(more[n]);
    }
  }

  // ----- The store keeps less than the histories: what it can be told apart by -----

  /** What of a ring can be read: everything but the position of its oldest entry. */
  ghost predicate SameView(x: RingState, y: RingState) {
    && x.buf.Valid()
    && y.buf.Valid()
    && x.buf.Ordered() == y.buf.Ordered()
    && x.(buf := EMPTY) == y.(buf := EMPTY)
  }

  ghost predicate SameRings(s: Rings, t: Rings) {
    && s.order == t.order
    && s.checks.Keys == t.checks.Keys
    && forall k :: k in s.checks ==> SameView(s.checks[k], t.checks[k])
  }

  /** Two stores that no reader and no later operation can tell apart, as the lemmas below show. */
  ghost predicate SameStore(a: World, b: World) {
    SameRings(a.rings, b.rings) && a.budgets == b.budgets
  }

  /** Two runs with the same reference differ at most in how their rings are laid out. */
  lemma HistoriesDecideRings(a: seq<Op>, b: seq<Op>)
    requires RefRun(a).rings == RefRun(b).rings
    ensures SameRings(Run(a).rings, Run(b).rings)
  {
    RunTracks(a);
    RunTracks(b);
    var s, t, ref := Run(a).rings, Run(b).rings, RefRun(a).rings;
    forall k | k in s.checks
      ensures SameView(s.checks[k], t.checks[k])
    {
      assert KeyTracks(s, ref, k) && KeyTracks(t, ref, k);
    }
  }

  lemma FlagsDecideBudgets(a: seq<Op>, b: seq<Op>)
    requires RefRun(a).budgets == RefRun(b).budgets
    ensures Run(a).budgets == Run(b).budgets
  {
    RunTracks(a);
    RunTracks(b);
    SameBudgets(Run(a).budgets, Run(b).budgets, RefRun(a).budgets);
  }

  lemma SameBudgets(b: Budgets, c: Budgets, ref: RefBudgets)
    requires BudgetsTrack(b, ref) && BudgetsTrack(c, ref)
    ensures b == c
  {
    forall k | k in b
      ensures b[k] == c[k]
    {
      assert BudgetTracks(b[k], ref[k]) && BudgetTracks(c[k], ref[k]);
    }
  }

  /** A push shows the same afterwards on any two rings that showed the same before. */
  lemma PushKeepsView(x: RingState, y: RingState, r: Result)
    requires SameView(x, y)
    ensures SameView(PushRing(x, r), PushRing(y, r))
  {
    assert |x.buf.Ordered()| == |x.buf.entries| && |y.buf.Ordered()| == |y.buf.entries|;
    PushHolds(x.buf, x.buf.Ordered(), ToEntry(r));
    PushHolds(y.buf, y.buf.Ordered(), ToEntry(r));
  }

  lemma PushKeepsSame(s: Rings, t: Rings, r: Result)
    requires s.Valid() && t.Valid() && SameRings(s, t)
    ensures SameRings(PushRings(s, r), PushRings(t, r))
  {
    var key := Keys.CheckKey(r.typ, r.name);
    if key in s.checks {
      PushKeepsView(s.checks[key], t.checks[key], r);
    } else {
      PushKeepsView(NewRing(r), NewRing(r), r);
    }
  }

  lemma ReconcileKeepsSame(s: Rings, t: Rings, configs: seq<CheckConfig>)
    requires s.Valid() && t.Valid() && SameRings(s, t)
    ensures SameRings(ReconcileRings(s, configs), ReconcileRings(t, configs))
  {
    PrunedRingsValid(s, ActiveKeys(configs));
    PrunedRingsValid(t, ActiveKeys(configs));
  }

  lemma LiveStepKeepsSame(a: World, b: World, op: Op)
    requires SameStore(a, b) && LiveOp(op)
    ensures SameStore(Step(a, op), Step(b, op))
  {
    match op
    case Push(r) => PushKeepsSame(a.rings, b.rings, r);
    case Record(_, _, _) =>
    case Reconcile(configs) => ReconcileKeepsSame(a.rings, b.rings, configs);
  }

  lemma SameStoreStep(a: seq<Op>, b: seq<Op>, op: Op, a': seq<Op>, b': seq<Op>)
    requires SameStore(Run(a), Run(b)) && LiveOp(op) && a' == a + [op] && b' == b + [op]
    ensures SameStore(Run(a'), Run(b'))
  {
    RunAppended(a, op);
    RunAppended(b, op);
    LiveStepKeepsSame(Run(a), Run(b), op);
  }

  /** Stores that are the same now stay the same under all further pushes, budget checks and reconciles. */
  lemma {:induction false} SameStoreSameFuture(a: seq<Op>, b: seq<Op>, more: seq<Op>)
    requires SameStore(Run(a), Run(b)) && forall op :: op in more ==> LiveOp(op)
    ensures SameStore(Run(a + more), Run(b + more))
  {
    if more == [] {
      assert a + more == a && b + more == b;
    } else {
      var n := |more| - 1;
      SameStoreSameFuture(a, b, more[..n]);
      Snoc(more);
      Associative(a, more[..n], [more[n]]);
      Associative(b, more[..n], [more[n]]);
      SameStoreStep(a + more[..n], b + more[..n], more[n], a + more, b + more);
    }
  }

  // ----- When a restart brings back a state the store was in -----

  lemma RestartedStore(ops: seq<Op>, id: nat, between: seq<Op>, after: seq<Op>)
    requires forall op :: op in between ==> LiveOp(op)
    requires forall op :: op in after ==> LiveOp(op)
    ensures
      var back := Run(SaveAndRestart(ops, id, between, after));
      SameRings(back.rings, Run(ops).rings) && back.budgets == Run(ops + between).budgets
  {
    RestartJoinsTwoReads(ops, id, between, after);
    HistoriesDecideRings(SaveAndRestart(ops, id, between, after), ops);
    FlagsDecideBudgets(SaveAndRestart(ops, id, between, after), ops + between);
  }

  /** No push of the stretch repeats the timestamp of the entry that was its ring's newest at the start. */
  ghost predicate NewTimestamps(ops: seq<Op>, between: seq<Op>) {
    forall i :: 0 <= i < |between| && between[i].Push? ==>
      var key := Keys.CheckKey(between[i].r.typ, between[i].r.name);
      key in Run(ops).rings.checks ==> NewestTimestamp(Run(ops).rings.checks[key]) != between[i].r.timestamp
  }

  function NewestTimestamp(ring: RingState): int
    requires ring.buf.Valid()
  {
    var entries := ring.buf.Ordered();
    if entries == [] then ZERO_TIME else entries[|entries| - 1].timestamp
  }

  ghost predicate EndsWithPush(h: seq<Result>, between: seq<Op>, j: nat)
    requires j <= |between|
  {
    h != [] && exists i :: 0 <= i < j && between[i].Push? && between[i].r == h[|h| - 1]
  }

  lemma PushedIsLast(s: RefRings, r: Result)
    ensures
      var key := Keys.CheckKey(r.typ, r.name);
      var hist := RefPush(s, r).hist;
      key in hist && hist[key] != [] && hist[key][|hist[key]| - 1] == r
    ensures forall k :: k in s.hist && k != Keys.CheckKey(r.typ, r.name) ==> k in RefPush(s, r).hist && RefPush(s, r).hist[k] == s.hist[k]
  {
  }

  lemma LastStep(s: RefWorld, op: Op, between: seq<Op>, j: nat, key: string)
    requires j < |between| && op == between[j] && DrainOp(op)
    requires key in s.rings.hist && EndsWithPush(s.rings.hist[key], between, j)
    ensures
      var hist := RefStep(s, op).rings.hist;
      key in hist && EndsWithPush(hist[key], between, j + 1)
  {
    if op.Push? {
      PushedIsLast(s.rings, op.r);
    }
  }

  /** Once the stretch has pushed under a key, the history under it ends with one of those pushes. */
  lemma {:induction false} LastIsPushed(ops: seq<Op>, between: seq<Op>, j: nat, p: nat)
    requires p < j <= |between| && between[p].Push? && forall op :: op in between ==> DrainOp(op)
    ensures
      var key := Keys.CheckKey(between[p].r.typ, between[p].r.name);
      var hist := RefRun(ops + between[..j]).rings.hist;
      key in hist && EndsWithPush(hist[key], between, j)
    decreases j
  {
    var before := ops + between[..j - 1];
    assert ops + between[..j] == before + [between[j - 1]];
    RefRunAppended(before, between[j - 1]);
    assert between[j - 1] in between;
    if p == j - 1 {
      PushedIsLast(RefRun(before).rings, between[p].r);
    } else {
      LastIsPushed(ops, between, j - 1, p);
      LastStep(RefRun(before), between[j - 1], between, j - 1, Keys.CheckKey(between[p].r.typ, between[p].r.name));
    }
  }

  lemma NewestIsLast(ops: seq<Op>, key: string)
    requires key in RefRun(ops).rings.hist
    ensures
      var h := RefRun(ops).rings.hist[key];
      && key in Run(ops).rings.checks && h != []
      && NewestTimestamp(Run(ops).rings.checks[key]) == h[|h| - 1].timestamp
      && Keys.CheckKey(h[|h| - 1].typ, h[|h| - 1].name) == key
  {
    RunTracks(ops);
    assert KeyTracks(Run(ops).rings, RefRun(ops).rings, key);
    LastOfWindow(RefRun(ops).rings.hist[key]);
  }

  /** After a push of the stretch the ring of its key ends with a pushed entry. */
  lemma NewestIsPushed(ops: seq<Op>, between: seq<Op>, j: nat, p: nat, later: seq<Op>) returns (i: nat)
    requires p < j <= |between| && between[p].Push? && forall op :: op in between ==> DrainOp(op)
    requires later == ops + between[..j]
    ensures i < j && between[i].Push?
    ensures
      var key := Keys.CheckKey(between[p].r.typ, between[p].r.name);
      var checks := Run(later).rings.checks;
      && Keys.CheckKey(between[i].r.typ, between[i].r.name) == key
      && key in checks && NewestTimestamp(checks[key]) == between[i].r.timestamp
  {
    var key := Keys.CheckKey(between[p].r.typ, between[p].r.name);
    LastIsPushed(ops, between, j, p);
    NewestIsLast(later, key);
    i := PushThatEnds(RefRun(later).rings.hist[key], between, j);
  }

  lemma PushThatEnds(h: seq<Result>, between: seq<Op>, j: nat) returns (i: nat)
    requires j <= |between| && EndsWithPush(h, between, j)
    ensures i < j && between[i].Push? && between[i].r == h[|h| - 1]
  {
    i :| 0 <= i < j && between[i].Push? && between[i].r == h[|h| - 1];
  }

  /** So the rings no longer show what they showed at its start. */
  lemma PushShows(ops: seq<Op>, between: seq<Op>, j: nat, p: nat)
    requires p < j <= |between| && between[p].Push? && forall op :: op in between ==> DrainOp(op)
    requires NewTimestamps(ops, between)
    ensures !SameRings(Run(ops).rings, Run(ops + between[..j]).rings)
  {
    var i := NewestIsPushed(ops, between, j, p, ops + between[..j]);
    SameRingsSameNewest(Run(ops).rings, Run(ops + between[..j]).rings,
      Keys.CheckKey(between[p].r.typ, between[p].r.name));
  }

  lemma SameRingsSameNewest(s: Rings, t: Rings, key: string)
    requires s.Valid() && t.Valid()
    ensures SameRings(s, t) && key in t.checks ==>
              key in s.checks && NewestTimestamp(s.checks[key]) == NewestTimestamp(t.checks[key])
  {
    if SameRings(s, t) && key in t.checks {
      assert SameView(s.checks[key], t.checks[key]);
    }
  }

  /**
   The exact condition, on the store itself: a restart brings back a state the store was in while the
   save ran if and only if the budget states at the second read are those after some of the records
   that came before the first push. The rings are as they were until that push; the budgets may have
   moved on and come back, as they do when checks that pass go on passing.
   */
  lemma RestartIsConsistentIff(ops: seq<Op>, id: nat, between: seq<Op>, after: seq<Op>)
    requires forall op :: op in between ==> DrainOp(op)
    requires forall op :: op in after ==> LiveOp(op)
    requires NewTimestamps(ops, between)
    ensures
      (exists j :: 0 <= j <= |between| &&
         SameStore(Run(SaveAndRestart(ops, id, between, after)), Run(ops + between[..j]))) <==>
      (exists j :: 0 <= j <= LeadingRecords(between) &&
         Run(ops + between[..j]).budgets == Run(ops + between).budgets)
  {
    var back := Run(SaveAndRestart(ops, id, between, after));
    RestartedStore(ops, id, between, after);
    if j :| 0 <= j <= LeadingRecords(between) && Run(ops + between[..j]).budgets == Run(ops + between).budgets {
      SameStoreBefore(ops, id, between, after, j);
    }
    if j :| 0 <= j <= |between| && SameStore(back, Run(ops + between[..j])) {
      var p := LeadingRecords(between);
      if p < j {
        PushShows(ops, between, j, p);
        SameRingsJoin(back.rings, Run(ops).rings, Run(ops + between[..j]).rings);
      }
    }
  }

  lemma SameRingsJoin(x: Rings, s: Rings, t: Rings)
    requires SameRings(x, s) && SameRings(x, t)
    ensures SameRings(s, t)
  {
    forall k | k in s.checks
      ensures SameView(s.checks[k], t.checks[k])
    {
      assert SameView(x.checks[k], s.checks[k]) && SameView(x.checks[k], t.checks[k]);
    }
  }

  /** One direction needs no assumption on timestamps. */
  lemma SameStoreBefore(ops: seq<Op>, id: nat, between: seq<Op>, after: seq<Op>, j: nat)
    requires forall op :: op in between ==> DrainOp(op)
    requires forall op :: op in after ==> LiveOp(op)
    requires j <= LeadingRecords(between) && Run(ops + between[..j]).budgets == Run(ops + between).budgets
    ensures SameStore(Run(SaveAndRestart(ops, id, between, after)), Run(ops + between[..j]))
  {
    assert forall i :: 0 <= i < |between| ==> between[i] in between;
    RestartJoinsTwoReads(ops, id, between, after);
    RecordsKeepRings(ops, between, j);
    HistoriesDecideRings(SaveAndRestart(ops, id, between, after), ops + between[..j]);
    RestartedStore(ops, id, between, after);
  }

  /** A record changes nothing exactly when it passes a pair that is on record and passing. */
  lemma RecordChangesNothingIff(b: Budgets, check: string, metric: string, violated: bool)
    ensures
      var key := Keys.BudgetKey(check, metric);
      RecordBudget(b, check, metric, violated) == b <==> key in b && b[key] == BudgetState(false, 0) && !violated
  {
    var key := Keys.BudgetKey(check, metric);
    var after := RecordBudget(b, check, metric, violated);
    assert key in after && after[key] == NextBudgetState(BudgetAt(b, key), violated);
    if key in b && b[key] == BudgetState(false, 0) && !violated {
      assert after == b;
    }
  }

  ghost predicate StillPassing(b: Budgets, op: Op) {
    op.Record? ==> !op.violated && Keys.BudgetKey(op.check, op.metric) in b &&
                   b[Keys.BudgetKey(op.check, op.metric)] == BudgetState(false, 0)
  }

  lemma PassingStep(ops: seq<Op>, op: Op, b: Budgets, ops': seq<Op>)
    requires Run(ops).budgets == b && DrainOp(op) && StillPassing(b, op) && ops' == ops + [op]
    ensures Run(ops').budgets == b
  {
    RunAppended(ops, op);
    if op.Record? {
      RecordChangesNothingIff(b, op.check, op.metric, op.violated);
    }
  }

  lemma {:induction false} PassingKeepsBudgets(ops: seq<Op>, between: seq<Op>, b: Budgets)
    requires Run(ops).budgets == b && forall op :: op in between ==> DrainOp(op) && StillPassing(b, op)
    ensures Run(ops + between).budgets == b
  {
    if between == [] {
      assert ops + between == ops;
    } else {
      var n := |between| - 1;
      PassingKeepsBudgets(ops, between[..n], b);
      Snoc(between);
      Associative(ops, between[..n], [between[n]]);
      PassingStep(ops + between[..n], between[n], b, ops + between);
    }
  }

  /** The common case: whatever passing checks drain during a save, a restart brings back the first read. */
  lemma PassingOverlapIsConsistent(ops: seq<Op>, id: nat, between: seq<Op>, after: seq<Op>)
    requires forall op :: op in between ==> DrainOp(op) && StillPassing(Run(ops).budgets, op)
    requires forall op :: op in after ==> LiveOp(op)
    ensures SameStore(Run(SaveAndRestart(ops, id, between, after)), Run(ops))
  {
    PassingKeepsBudgets(ops, between, Run(ops).budgets);
    assert ops + between[..0] == ops;
    SameStoreBefore(ops, id, between, after, 0);
  }

  /** What the drain loop does with one slow first result. */
  function SlowResult(r: Result): seq<Op> {
    [Push(r), Record(r.name, "duration", true)]
  }

  lemma SlowResultRecorded(r: Result)
    ensures RefRun(SlowResult(r)).budgets == map[Keys.BudgetKey(r.name, "duration") := [true]]
  {
    assert SlowResult(r) == [] + [Push(r)] + [Record(r.name, "duration", true)];
    RefRunAppended([], Push(r));
    RefRunAppended([] + [Push(r)], Record(r.name, "duration", true));
    assert [] + [true] == [true];
  }

  /**
   A torn save: the first result of a check arrives between the two reads. After the restart the store
   has no ring at all and yet one violation of that check on record, a state it was never in.
   */
  lemma TornSave(r: Result, id: nat)
    ensures
      var ops := SaveAndRestart([], id, SlowResult(r), []);
      && Run(ops).rings == Rings(map[], [])
      && Run(ops).budgets == map[Keys.BudgetKey(r.name, "duration") := BudgetState(true, 1)]
      && forall j :: 0 <= j <= 2 ==> !SameStore(Run(ops), Run(SlowResult(r)[..j]))
  {
    var between := SlowResult(r);
    var ops := SaveAndRestart([], id, between, []);
    RestartJoinsTwoReads([], id, between, []);
    assert [] + between == between;
    SlowResultRecorded(r);
    RunTracks(ops);
    var key := Keys.BudgetKey(r.name, "duration");
    assert BudgetTracks(Run(ops).budgets[key], [true]);
    forall j | 0 <= j <= 2
      ensures !SameStore(Run(ops), Run(between[..j]))
    {
      NeverEmptyAndViolated(r, j);
    }
  }

  /** At the start nothing is on record, and after the push there is a ring. */
  lemma NeverEmptyAndViolated(r: Result, j: nat)
    requires j <= 2
    ensures j == 0 ==> Run(SlowResult(r)[..j]).budgets == map[]
    ensures j > 0 ==> !SameRings(Rings(map[], []), Run(SlowResult(r)[..j]).rings)
  {
    var between := SlowResult(r);
    assert [] + between[..j] == between[..j];
    if j == 0 {
      assert between[..0] == [];
    } else {
      PushShows([], between, j, 0);
    }
  }
}
