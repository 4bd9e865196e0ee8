/** What a snapshot says after any run of the store, in terms of the full history. */
module SnapshotRuns {
  import opened Wrappers
  import opened Check
  import opened Ring
  import opened Seqs
  import opened StoreModel
  import opened Latencies
  import opened StoreRuns
  import opened StoreResults
  import opened StoreRestarts
  import opened Snapshots
  import opened ComputeSnapshot
  import opened Streaks
  import Keys

  // ----- Counts -----

  lemma {:induction false} CountsAddUp(cs: seq<CheckState>)
    ensures Count(cs, Up) + Count(cs, Down) + Count(cs, Error) + Count(cs, Pending) == |cs|
  {
    if cs == [] {
    } else {
      CountsAddUp(cs[..|cs| - 1]);
    }
  }

  lemma {:induction false} NonePending(cs: seq<CheckState>)
    requires forall i :: 0 <= i < |cs| ==> !cs[i].status.Pending?
    ensures Count(cs, Pending) == 0
  {
    if cs == [] {
    } else {
      NonePending(cs[..|cs| - 1]);
    }
  }

  /** The reference history of the i-th check in order. */
  ghost function HistoryOf(ops: seq<Op>, i: nat): seq<Result>
    requires i < |Run(ops).rings.order|
  {
    var k := Run(ops).rings.order[i];
    if k in RefRun(ops).rings.hist then RefRun(ops).rings.hist[k] else []
  }

  /** The check is shown with its name and type, its latest target, and the fields of its last 90 results. */
  ghost predicate Describes(c: CheckState, h: seq<Result>) {
    && h != []
    && var last := h[|h| - 1];
    && (c.status == Up <==> last.success)
    && (c.status == Error <==> !last.success && last.infraError)
    && (c.status == Down <==> !last.success && !last.infraError)
    && c.latest.Some? && Shows(c.latest.value, last)
    && ShowsLast(c.history, h)
    && c.latency == LatencyOf(Durations(c.history))
    && c.name == h[0].name && c.typ == h[0].typ && c.domain == LatestTarget(h)
  }

  lemma RingIsDescribed(ring: RingState, h: seq<Result>)
    requires RingTracks(ring, h)
    ensures Describes(BaseState(ring), h)
  {
    WindowShowsLast(h);
    LastOfWindow(h);
  }

  lemma BaseIsDescribed(ops: seq<Op>, i: nat)
    requires i < |Run(ops).rings.order|
    ensures Describes(BaseStates(Run(ops).rings, |Run(ops).rings.order|)[i], HistoryOf(ops, i))
    ensures Tagged(Run(ops).rings, |Run(ops).rings.order|)[i].0 == LatestGroup(HistoryOf(ops, i))
  {
    var s, ref := Run(ops).rings, RefRun(ops).rings;
    var k := s.order[i];
    RunTracks(ops);
    assert k in s.order;
    assert KeyTracks(s, ref, k);
    RingIsDescribed(s.checks[k], ref.hist[k]);
    assert BaseStates(s, |s.order|)[i] == RingAt(s, i).1;
  }

  /**
   After any run, in terms of the pushed results' own fields: each check of the snapshot is up, in error
   or down as its last result is a success, an infrastructure error or a real failure, and shows the
   fields of its last 90 results.
   */
  lemma StatusIsLatestResult(ops: seq<Op>, i: nat)
    requires i < |Run(ops).rings.order|
    ensures
      var snap := SnapshotOf(Run(ops).rings, Run(ops).budgets);
      i < |snap.checks| && Describes(snap.checks[i], HistoryOf(ops, i))
  {
    BaseIsDescribed(ops, i);
  }

  // ----- The summary counts results -----

  /** Positions in the check list whose last result satisfies p. */
  ghost function ChecksWhere(ops: seq<Op>, p: Result -> bool): set<int> {
    set i | 0 <= i < |Run(ops).rings.order| && HistoryOf(ops, i) != [] && p(HistoryOf(ops, i)[|HistoryOf(ops, i)| - 1])
  }

  ghost function PositionsWith(cs: seq<CheckState>, st: Status): set<int> {
    set i | 0 <= i < |cs| && cs[i].status == st
  }

  lemma {:induction false} CountIsCardinality(cs: seq<CheckState>, st: Status)
    ensures Count(cs, st) == |PositionsWith(cs, st)|
  {
    if cs == [] {
    } else {
      var n := |cs| - 1;
      CountIsCardinality(cs[..n], st);
      PositionsWithSnoc(cs, st);
    }
  }

  lemma PositionsWithSnoc(cs: seq<CheckState>, st: Status)
    requires cs != []
    ensures
      var n := |cs| - 1;
      |PositionsWith(cs, st)| == |PositionsWith(cs[..n], st)| + if cs[n].status == st then 1 else 0
  {
    var n := |cs| - 1;
    var before := PositionsWith(cs[..n], st);
    assert n !in before;
    assert PositionsWith(cs, st) == if cs[n].status == st then before + {n} else before;
  }

  lemma CountedWhere(ops: seq<Op>, st: Status, p: Result -> bool)
    requires
      forall i :: 0 <= i < |Run(ops).rings.order| ==>
        var h := HistoryOf(ops, i);
        h != [] && (BaseStates(Run(ops).rings, |Run(ops).rings.order|)[i].status == st <==> p(h[|h| - 1]))
    ensures Count(BaseStates(Run(ops).rings, |Run(ops).rings.order|), st) == |ChecksWhere(ops, p)|
  {
    var base := BaseStates(Run(ops).rings, |Run(ops).rings.order|);
    CountIsCardinality(base, st);
    assert PositionsWith(base, st) == ChecksWhere(ops, p);
  }

  /** After any run the summary counts the checks whose last result is a success, a real failure, an infrastructure error. */
  lemma SummaryCountsResults(ops: seq<Op>)
    ensures
      var summary := SnapshotOf(Run(ops).rings, Run(ops).budgets).summary;
      && summary.total == |Run(ops).rings.order|
      && summary.up == |ChecksWhere(ops, (r: Result) => r.success)|
      && summary.down == |ChecksWhere(ops, (r: Result) => !r.success && !r.infraError)|
      && summary.error == |ChecksWhere(ops, (r: Result) => !r.success && r.infraError)|
  {
    BaseStatuses(ops);
    CountedWhere(ops, Up, (r: Result) => r.success);
    CountedWhere(ops, Down, (r: Result) => !r.success && !r.infraError);
    CountedWhere(ops, Error, (r: Result) => !r.success && r.infraError);
  }

  lemma BaseStatuses(ops: seq<Op>)
    ensures
      forall i :: 0 <= i < |Run(ops).rings.order| ==>
        var h, st := HistoryOf(ops, i), BaseStates(Run(ops).rings, |Run(ops).rings.order|)[i].status;
        && h != []
        && (st == Up <==> h[|h| - 1].success)
        && (st == Down <==> !h[|h| - 1].success && !h[|h| - 1].infraError)
        && (st == Error <==> !h[|h| - 1].success && h[|h| - 1].infraError)
  {
    forall i | 0 <= i < |Run(ops).rings.order|
      ensures Describes(BaseStates(Run(ops).rings, |Run(ops).rings.order|)[i], HistoryOf(ops, i))
    {
      BaseIsDescribed(ops, i);
    }
  }

  /** It also counts the budget pairs on record and those whose last flag was a violation. */
  lemma SummaryCountsBudgets(ops: seq<Op>)
    ensures
      var summary, flags := SnapshotOf(Run(ops).rings, Run(ops).budgets).summary, RefRun(ops).budgets;
      && summary.budgetTotal == |flags|
      && summary.budgetViolations == |set k | k in flags && flags[k] != [] && flags[k][|flags[k]| - 1]|
  {
    RunTracks(ops);
    var b, flags := Run(ops).budgets, RefRun(ops).budgets;
    assert |b| == |b.Keys| && |flags| == |flags.Keys|;
    forall k | k in b
      ensures flags[k] != [] && (b[k].violated <==> flags[k][|flags[k]| - 1])
    {
      assert BudgetTracks(b[k], flags[k]);
    }
    assert ViolatedKeys(b) == set k | k in flags && flags[k] != [] && flags[k][|flags[k]| - 1];
  }

  /** After any run every check is up, down or in error, and the counts add up to the total. */
  lemma CountsCoverTotal(ops: seq<Op>)
    ensures
      var summary := SnapshotOf(Run(ops).rings, Run(ops).budgets).summary;
      summary.up + summary.down + summary.error == summary.total
  {
    var s := Run(ops).rings;
    var base := BaseStates(s, |s.order|);
    CountsAddUp(base);
    forall i | 0 <= i < |base|
      ensures !base[i].status.Pending?
    {
      BaseIsDescribed(ops, i);
    }
    NonePending(base);
  }

  lemma {:induction false} CountPositiveIff(cs: seq<CheckState>, st: Status)
    ensures Count(cs, st) > 0 <==> exists i :: 0 <= i < |cs| && cs[i].status == st
  {
    if cs == [] {
    } else {
      var n := |cs| - 1;
      CountPositiveIff(cs[..n], st);
      assert cs == cs[..n] + [cs[n]];
      if i :| 0 <= i < |cs| && cs[i].status == st {
        if i < n {
          assert cs[..n][i].status == st;
        }
      }
      if j :| 0 <= j < n && cs[..n][j].status == st {
        assert cs[j].status == st;
      }
    }
  }

  /**
   Overall is operational when some check is up and none down, down when some is down and none up,
   degraded when both occur, and pending when neither does.
   */
  lemma OverallMeaning(s: Rings, b: Budgets)
    requires s.Valid()
    ensures
      var base := BaseStates(s, |s.order|);
      var someUp := exists i :: 0 <= i < |base| && base[i].status == Up;
      var someDown := exists i :: 0 <= i < |base| && base[i].status == Down;
      SnapshotOf(s, b).overall ==
      if someUp && someDown then Degraded else if someUp then Operational else if someDown then AllDown else Unknown
  {
    CountPositiveIff(BaseStates(s, |s.order|), Up);
    CountPositiveIff(BaseStates(s, |s.order|), Down);
  }

  // ----- Groups -----

  /** The groups' members, group by group. */
  function Flatten<T>(items: seq<(string, T)>, names: seq<string>): seq<T>
    decreases |names|
  {
    if names == [] then []
    else Flatten(items, names[..|names| - 1]) + Members(items, names[|names| - 1])
  }

  function Untagged<T>(items: seq<(string, T)>): (r: seq<T>)
    ensures |r| == |items|
    ensures forall i :: 0 <= i < |items| ==> r[i] == items[i].1
  {
    seq(|items|, i requires 0 <= i < |items| => items[i].1)
  }

  lemma {:induction false} NamesAreFirstOccurrences<T>(items: seq<(string, T)>)
    ensures Distinct(GroupNames(items))
    ensures forall i :: 0 <= i < |items| ==> items[i].0 in GroupNames(items)
  {
    if items == [] {
    } else {
      NamesAreFirstOccurrences(items[..|items| - 1]);
      assert forall i :: 0 <= i < |items| - 1 ==> items[..|items| - 1][i] == items[i];
    }
  }

  lemma {:induction false} StrangersHaveNoMembers<T>(items: seq<(string, T)>, g: string)
    requires g !in GroupNames(items)
    ensures Members(items, g) == []
  {
    if items == [] {
    } else {
      StrangersHaveNoMembers(items[..|items| - 1], g);
    }
  }

  lemma MembersSnoc<T>(items: seq<(string, T)>, x: (string, T), g: string)
    ensures Members(items + [x], g) == Members(items, g) + if x.0 == g then [x.1] else []
  {
    assert (items + [x])[..|items|] == items;
  }

  lemma {:induction false} FlattenStep<T>(items: seq<(string, T)>, x: (string, T), names: seq<string>)
    requires Distinct(names)
    ensures
      multiset(Flatten(items + [x], names)) ==
      multiset(Flatten(items, names)) + if x.0 in names then multiset{x.1} else multiset{}
    decreases |names|
  {
    if names == [] {
    } else {
      var m := |names| - 1;
      FlattenStep(items, x, names[..m]);
      MembersSnoc(items, x, names[m]);
      assert x.0 in names <==> x.0 in names[..m] || x.0 == names[m];
      assert names[m] !in names[..m];
    }
  }

  lemma NewGroup<T>(items: seq<(string, T)>, x: (string, T))
    requires x.0 !in GroupNames(items)
    ensures
      Flatten(items + [x], GroupNames(items) + [x.0]) == Flatten(items + [x], GroupNames(items)) + [x.1]
  {
    var names := GroupNames(items) + [x.0];
    assert names[..|names| - 1] == GroupNames(items);
    StrangersHaveNoMembers(items, x.0);
    MembersSnoc(items, x, x.0);
  }

  lemma FlattenSnoc<T>(init: seq<(string, T)>, x: (string, T))
    ensures
      multiset(Flatten(init + [x], GroupNames(init + [x]))) == multiset(Flatten(init, GroupNames(init))) + multiset{x.1}
  {
    assert (init + [x])[..|init|] == init;
    NamesAreFirstOccurrences(init);
    FlattenStep(init, x, GroupNames(init));
    if x.0 !in GroupNames(init) {
      NewGroup(init, x);
    }
  }

  lemma UntaggedSnoc<T>(init: seq<(string, T)>, x: (string, T))
    ensures multiset(Untagged(init + [x])) == multiset(Untagged(init)) + multiset{x.1}
  {
    assert Untagged(init + [x]) == Untagged(init) + [x.1];
  }

  lemma {:induction false} FlattenIsPermutation<T>(items: seq<(string, T)>)
    ensures multiset(Flatten(items, GroupNames(items))) == multiset(Untagged(items))
  {
    if items == [] {
      assert Untagged(items) == [];
    } else {
      var n := |items| - 1;
      FlattenIsPermutation(items[..n]);
      FlattenSnoc(items[..n], items[n]);
      UntaggedSnoc(items[..n], items[n]);
      Snoc(items);
    }
  }

  /** The checks of the groups, group by group. */
  function AllChecks(groups: seq<Group>): seq<CheckState> {
    if groups == [] then [] else AllChecks(groups[..|groups| - 1]) + groups[|groups| - 1].checks
  }

  ghost function AttachItems(b: Budgets, items: seq<(string, CheckState)>): (r: seq<(string, CheckState)>)
    ensures |r| == |items|
    ensures forall i :: 0 <= i < |items| ==> r[i].0 == items[i].0
  {
    seq(|items|, i requires 0 <= i < |items| =>
      (items[i].0, items[i].1.(budgetChecks := BudgetChecksFor(b, items[i].1.name))))
  }

  lemma {:induction false} AttachCommutes(b: Budgets, items: seq<(string, CheckState)>, g: string)
    ensures Members(AttachItems(b, items), g) == Attach(b, Members(items, g))
    ensures GroupNames(AttachItems(b, items)) == GroupNames(items)
  {
    if items == [] {
    } else {
      var n := |items| - 1;
      AttachCommutes(b, items[..n], g);
      assert AttachItems(b, items)[..n] == AttachItems(b, items[..n]);
    }
  }

  lemma {:induction false} GroupsFlatten(b: Budgets, items: seq<(string, CheckState)>, n: nat)
    requires n <= |GroupNames(items)|
    ensures AllChecks(GroupsOf(items, b)[..n]) == Flatten(AttachItems(b, items), GroupNames(items)[..n])
  {
    if n == 0 {
    } else {
      var groups, names := GroupsOf(items, b), GroupNames(items);
      GroupsFlatten(b, items, n - 1);
      AttachCommutes(b, items, names[n - 1]);
      assert groups[..n][..n - 1] == groups[..n - 1] && names[..n][..n - 1] == names[..n - 1];
    }
  }

  lemma GroupsHoldItems(b: Budgets, items: seq<(string, CheckState)>)
    ensures multiset(AllChecks(GroupsOf(items, b))) == multiset(Untagged(AttachItems(b, items)))
  {
    var groups, names := GroupsOf(items, b), GroupNames(items);
    GroupsFlatten(b, items, |names|);
    assert groups[..|names|] == groups && names[..|names|] == names;
    AttachCommutes(b, items, "");
    FlattenIsPermutation(AttachItems(b, items));
  }

  lemma AttachedChecks(s: Rings, b: Budgets)
    requires s.Valid()
    ensures Untagged(AttachItems(b, Tagged(s, |s.order|))) == SnapshotOf(s, b).checks
  {
    var items, base := Tagged(s, |s.order|), BaseStates(s, |s.order|);
    assert forall i :: 0 <= i < |base| ==> base[i] == items[i].1;
    assert SnapshotOf(s, b).checks == Attach(b, base);
  }

  /** Groups partition the checks: no name occurs twice, and together they hold every check of the snapshot once. */
  lemma GroupsPartitionChecks(s: Rings, b: Budgets)
    requires s.Valid()
    ensures
      forall i, j :: 0 <= i < j < |SnapshotOf(s, b).groups| ==>
        SnapshotOf(s, b).groups[i].name != SnapshotOf(s, b).groups[j].name
    ensures multiset(AllChecks(SnapshotOf(s, b).groups)) == multiset(SnapshotOf(s, b).checks)
  {
    var items := Tagged(s, |s.order|);
    NamesAreFirstOccurrences(items);
    assert SnapshotOf(s, b).groups == GroupsOf(items, b);
    GroupsHoldItems(b, items);
    AttachedChecks(s, b);
  }

  /** Positions, in order, of the items of a group. */
  function Positions<T>(items: seq<(string, T)>, g: string): seq<nat> {
    if items == [] then []
    else
      var n := |items| - 1;
      Positions(items[..n], g) + if items[n].0 == g then [n] else []
  }

  ghost predicate AscendingTo(idx: seq<nat>, n: nat) {
    && (forall k :: 0 <= k < |idx| ==> idx[k] < n)
    && (forall j, k :: 0 <= j < k < |idx| ==> idx[j] < idx[k])
  }

  ghost predicate Selects<T>(idx: seq<nat>, items: seq<(string, T)>, g: string) {
    && AscendingTo(idx, |items|)
    && (forall k :: 0 <= k < |idx| ==> items[idx[k]].0 == g)
    && (forall i :: 0 <= i < |items| && items[i].0 == g ==> i in idx)
  }

  lemma SelectsSnoc<T>(idx: seq<nat>, items: seq<(string, T)>, g: string)
    requires items != [] && Selects(idx, items[..|items| - 1], g)
    ensures Selects(idx + if items[|items| - 1].0 == g then [|items| - 1] else [], items, g)
  {
    var n := |items| - 1;
    assert forall i :: 0 <= i < n ==> items[..n][i] == items[i];
    var idx' := idx + if items[n].0 == g then [n] else [];
    assert forall i :: i in idx ==> i in idx';
  }

  lemma {:induction false} PositionsSelect<T>(items: seq<(string, T)>, g: string)
    ensures Selects(Positions(items, g), items, g)
    ensures Picks(Members(items, g), Positions(items, g), items)
  {
    if items == [] {
    } else {
      var n := |items| - 1;
      PositionsSelect(items[..n], g);
      SelectsSnoc(Positions(items[..n], g), items, g);
      PicksSnoc(Members(items[..n], g), Positions(items[..n], g), items);
    }
  }

  /** The values are those of the items at the positions. */
  ghost predicate Picks<T>(values: seq<T>, idx: seq<nat>, items: seq<(string, T)>) {
    && |values| == |idx|
    && forall k :: 0 <= k < |idx| ==> idx[k] < |items| && values[k] == items[idx[k]].1
  }

  lemma PicksSnoc<T>(values: seq<T>, idx: seq<nat>, items: seq<(string, T)>)
    requires items != [] && Picks(values, idx, items[..|items| - 1])
    ensures Picks(values, idx, items)
    ensures Picks(values + [items[|items| - 1].1], idx + [|items| - 1], items)
  {
    var n := |items| - 1;
    assert forall i :: 0 <= i < n ==> items[..n][i] == items[i];
  }

  /**
   A group of the snapshot lists exactly the checks of that group, in the order of the check list:
   its k-th member is the check at position idx[k].
   */
  lemma GroupsKeepOrder(s: Rings, b: Budgets, j: nat) returns (idx: seq<nat>)
    requires s.Valid() && j < |GroupNames(Tagged(s, |s.order|))|
    ensures
      var snap := SnapshotOf(s, b);
      var g := snap.groups[j];
      && Selects(idx, Tagged(s, |s.order|), g.name)
      && |idx| == |g.checks|
      && forall k :: 0 <= k < |idx| ==> idx[k] < |snap.checks| && g.checks[k] == snap.checks[idx[k]]
  {
    var items := Tagged(s, |s.order|);
    var name := GroupNames(items)[j];
    idx := Positions(items, name);
    PositionsSelect(items, name);
    AttachSelected(s, b, items, idx, name);
  }

  lemma AttachSelected(s: Rings, b: Budgets, items: seq<(string, CheckState)>, idx: seq<nat>, name: string)
    requires s.Valid() && items == Tagged(s, |s.order|) && AscendingTo(idx, |items|)
    requires |Members(items, name)| == |idx|
    requires forall k :: 0 <= k < |idx| ==> Members(items, name)[k] == items[idx[k]].1
    ensures forall k :: 0 <= k < |idx| ==>
      Attach(b, Members(items, name))[k] == Attach(b, BaseStates(s, |s.order|))[idx[k]]
  {
  }

  ghost predicate FirstOf<T>(items: seq<(string, T)>, i: nat, g: string) {
    && i < |items|
    && items[i].0 == g
    && forall h :: 0 <= h < i ==> items[h].0 != g
  }

  ghost predicate FirstsOf<T>(items: seq<(string, T)>, firsts: seq<nat>, names: seq<string>) {
    && |firsts| == |names|
    && AscendingTo(firsts, |items|)
    && forall j :: 0 <= j < |firsts| ==> FirstOf(items, firsts[j], names[j])
  }

  lemma FirstsExtended<T>(items: seq<(string, T)>, firsts: seq<nat>, names: seq<string>)
    requires items != [] && FirstsOf(items[..|items| - 1], firsts, names)
    ensures FirstsOf(items, firsts, names)
  {
    var n := |items| - 1;
    assert forall i :: 0 <= i < n ==> items[..n][i] == items[i];
    forall j | 0 <= j < |firsts|
      ensures FirstOf(items, firsts[j], names[j])
    {
      assert FirstOf(items[..n], firsts[j], names[j]);
    }
  }

  lemma FirstsAppended<T>(items: seq<(string, T)>, firsts: seq<nat>, names: seq<string>)
    requires items != [] && FirstsOf(items, firsts, names) && AscendingTo(firsts, |items| - 1)
    requires FirstOf(items, |items| - 1, items[|items| - 1].0)
    ensures FirstsOf(items, firsts + [|items| - 1], names + [items[|items| - 1].0])
  {
  }

  /** Groups appear in the order of their first check. */
  lemma {:induction false} GroupsByFirstAppearance<T>(items: seq<(string, T)>) returns (firsts: seq<nat>)
    ensures FirstsOf(items, firsts, GroupNames(items))
  {
    if items == [] {
      firsts := [];
    } else {
      var n := |items| - 1;
      firsts := GroupsByFirstAppearance(items[..n]);
      FirstsExtended(items, firsts, GroupNames(items[..n]));
      if items[n].0 !in GroupNames(items[..n]) {
        NewIsFirst(items);
        FirstsAppended(items, firsts, GroupNames(items[..n]));
        firsts := firsts + [n];
      }
    }
  }

  lemma NewIsFirst<T>(items: seq<(string, T)>)
    requires items != [] && items[|items| - 1].0 !in GroupNames(items[..|items| - 1])
    ensures FirstOf(items, |items| - 1, items[|items| - 1].0)
  {
    var n := |items| - 1;
    NamesAreFirstOccurrences(items[..n]);
    assert forall i :: 0 <= i < n ==> items[..n][i] == items[i];
  }

  // ----- Types -----

  lemma {:induction false} OnlySeenKeepsOrder(types: seq<string>, seen: set<string>)
    requires Distinct(types)
    ensures Distinct(OnlySeen(types, seen))
    ensures forall t :: t in OnlySeen(types, seen) <==> t in types && t in seen
  {
    if types == [] {
    } else {
      var n := |types| - 1;
      OnlySeenKeepsOrder(types[..n], seen);
      assert types == types[..n] + [types[n]];
    }
  }

  lemma TypeOrderIsDistinct()
    ensures Distinct(TYPE_ORDER)
  {
  }

  /** The snapshot lists a known type exactly once if some check has it, and no other type. */
  lemma TypesAreThoseSeen(s: Rings, b: Budgets, t: string)
    requires s.Valid()
    ensures Distinct(SnapshotOf(s, b).types)
    ensures t in SnapshotOf(s, b).types <==>
      t in TYPE_ORDER && exists i :: 0 <= i < |s.order| && RingAt(s, i).1.typ == t
  {
    TypeOrderIsDistinct();
    OnlySeenKeepsOrder(TYPE_ORDER, TypesSeen(s, |s.order|));
  }

  // ----- Budgets -----

  /**
   After any run, a check's budget list shows a metric exactly when a flag was recorded for the pair,
   with fail, warn or pass as the trailing violation streak over all flags is 3 or more, 1 or 2, or 0.
   */
  lemma BudgetListShowsStreaks(ops: seq<Op>, name: string, metric: string, severity: Severity)
    requires ':' !in metric
    ensures
      var key := Keys.BudgetKey(name, metric);
      var flags := Flags(RefRun(ops).budgets, key);
      BudgetCheck(metric, severity) in BudgetChecksFor(Run(ops).budgets, name) <==>
      && key in RefRun(ops).budgets
      && severity == if TrailingTrue(flags) >= 3 then Fail else if TrailingTrue(flags) >= 1 then Warn else Pass
  {
    var b := Run(ops).budgets;
    var key := Keys.BudgetKey(name, metric);
    var c := BudgetCheck(metric, severity);
    RunTracks(ops);
    ListedIff(b, name, c);
    Keys.BudgetKeySplits(name, metric);
    if key in b {
      SeverityIsStreak(ops, key);
      assert BelongsTo(key, name) && Shown(b, key).metric == metric;
    }
    if k :| k in b && BelongsTo(k, name) && c == Shown(b, k) {
      MetricNamesKey(k, name);
      assert k == key;
    }
  }

  // ----- Restarts -----

  lemma SameRingsSameSnapshot(s: Rings, t: Rings, b: Budgets)
    requires s.Valid() && t.Valid() && SameRings(s, t)
    ensures SnapshotOf(s, b) == SnapshotOf(t, b)
  {
    var n := |s.order|;
    forall i: nat | i < n
      ensures RingAt(s, i) == RingAt(t, i)
    {
      assert s.order[i] in s.order;
      assert SameView(s.checks[s.order[i]], t.checks[s.order[i]]);
    }
    assert BaseStates(s, n) == BaseStates(t, n);
    assert Tagged(s, n) == Tagged(t, n);
    assert TypesSeen(s, n) == TypesSeen(t, n);
  }

  /**
   A restart from a save that brings back a state the store was in (StoreRestarts.RestartIsConsistentIff
   says when) cannot be seen: after any further pushes, budget checks and reconciles the snapshot is
   that of a process that was never restarted and went on from that state.
   */
  lemma RestartIsInvisible(ops: seq<Op>, id: nat, between: seq<Op>, after: seq<Op>, j: nat, more: seq<Op>)
    requires forall op :: op in between ==> DrainOp(op)
    requires forall op :: op in after + more ==> LiveOp(op)
    requires j <= LeadingRecords(between) && Run(ops + between[..j]).budgets == Run(ops + between).budgets
    ensures
      var w, w' := Run(ops + between[..j] + more), Run(SaveAndRestart(ops, id, between, after) + more);
      SnapshotOf(w'.rings, w'.budgets) == SnapshotOf(w.rings, w.budgets)
  {
    assert forall op :: op in after || op in more ==> op in after + more;
    var restarted, plain := SaveAndRestart(ops, id, between, after), ops + between[..j];
    SameStoreBefore(ops, id, between, after, j);
    SameStoreSameFuture(restarted, plain, more);
    SameRingsSameSnapshot(Run(restarted + more).rings, Run(plain + more).rings, Run(plain + more).budgets);
  }
}
