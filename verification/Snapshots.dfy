/**
 The status snapshot as a function of the rings and the budget states. Display texts that depend
 on the wall clock or on number formatting are not part of it.
 */
module Snapshots {
  import opened Wrappers
  import opened Check
  import opened Ring
  import opened StoreModel
  import opened Latencies
  import opened Sorting
  import Keys

  datatype Status = Pending | Up | Down | Error

  datatype BudgetCheck = BudgetCheck(metric: string, severity: Severity)

  datatype CheckState = CheckState(
    name: string, typ: string, domain: string, status: Status, latency: Option<Latency>,
    latest: Option<Entry>, history: seq<Entry>, budgetChecks: seq<BudgetCheck>)

  datatype Group = Group(name: string, checks: seq<CheckState>)

  datatype Summary = Summary(
    total: nat, up: nat, down: nat, error: nat, budgetTotal: nat, budgetViolations: nat)

  datatype Overall = Operational | AllDown | Degraded | Unknown

  datatype Snapshot = Snapshot(
    overall: Overall, summary: Summary, types: seq<string>, groups: seq<Group>, checks: seq<CheckState>)

  // ----- One check -----

  function StatusOf(e: Entry): Status {
    if e.success then Up else if e.infraError then Error else Down
  }

  function BaseState(ring: RingState): CheckState
    requires ring.buf.Valid()
  {
    var entries := ring.buf.Ordered();
    CheckState(ring.name, ring.typ, ring.target,
               if entries == [] then Pending else StatusOf(entries[|entries| - 1]),
               LatencyOf(Durations(entries)),
               if entries == [] then None else Some(entries[|entries| - 1]),
               entries, [])
  }

  /** The first n checks in order. */
  function BaseStates(s: Rings, n: nat): (r: seq<CheckState>)
    requires s.Valid() && n <= |s.order|
    ensures |r| == n
  {
    seq(n, i requires 0 <= i < n => RingAt(s, i).1)
  }

  /** Group name and state of the check at position i. */
  function RingAt(s: Rings, i: nat): (string, CheckState)
    requires s.Valid() && i < |s.order|
  {
    assert s.order[i] in s.order;
    (s.checks[s.order[i]].group, BaseState(s.checks[s.order[i]]))
  }

  function Count(cs: seq<CheckState>, st: Status): (n: nat)
    ensures n <= |cs|
  {
    if cs == [] then 0 else Count(cs[..|cs| - 1], st) + if cs[|cs| - 1].status == st then 1 else 0
  }

  function OverallOf(up: nat, down: nat): Overall {
    if down == 0 && up > 0 then Operational
    else if up == 0 && down > 0 then AllDown
    else if down > 0 then Degraded
    else Unknown
  }

  // ----- Groups -----

  /** The first n checks, each with the name of its group. */
  function Tagged(s: Rings, n: nat): (r: seq<(string, CheckState)>)
    requires s.Valid() && n <= |s.order|
    ensures |r| == n
  {
    seq(n, i requires 0 <= i < n => RingAt(s, i))
  }

  /** Group names in order of first appearance. */
  function GroupNames<T>(items: seq<(string, T)>): seq<string> {
    if items == [] then []
    else
      var names := GroupNames(items[..|items| - 1]);
      var g := items[|items| - 1].0;
      if g in names then names else names + [g]
  }

  /** The items of a group, in order. */
  function Members<T>(items: seq<(string, T)>, g: string): seq<T> {
    if items == [] then []
    else
      var last := items[|items| - 1];
      Members(items[..|items| - 1], g) + if last.0 == g then [last.1] else []
  }

  // ----- Types -----

  ghost function TypesSeen(s: Rings, n: nat): set<string>
    requires s.Valid() && n <= |s.order|
  {
    set i | 0 <= i < n :: RingAt(s, i).1.typ
  }

  function OnlySeen(types: seq<string>, seen: set<string>): seq<string> {
    if types == [] then []
    else OnlySeen(types[..|types| - 1], seen) + if types[|types| - 1] in seen then [types[|types| - 1]] else []
  }

  // ----- Budgets -----

  predicate BelongsTo(key: string, name: string) {
    Keys.BudgetKeyCheck(key) == Some(name)
  }

  ghost function MetricsFor(b: Budgets, name: string): set<string> {
    set k | k in b && BelongsTo(k, name) :: Keys.BudgetKeyMetric(k)
  }

  lemma MetricNamesKey(key: string, name: string)
    requires BelongsTo(key, name)
    ensures key == Keys.BudgetKey(name, Keys.BudgetKeyMetric(key))
  {
  }

  /** The budget checks of a check name, sorted by metric. */
  ghost function BudgetChecksFor(b: Budgets, name: string): seq<BudgetCheck> {
    var metrics := SortedListing(MetricsFor(b, name));
    seq(|metrics|, i requires 0 <= i < |metrics| =>
      BudgetCheck(metrics[i], SeverityOf(BudgetAt(b, Keys.BudgetKey(name, metrics[i])))))
  }

  ghost function Attach(b: Budgets, cs: seq<CheckState>): (r: seq<CheckState>)
    ensures |r| == |cs|
  {
    seq(|cs|, i requires 0 <= i < |cs| => cs[i].(budgetChecks := BudgetChecksFor(b, cs[i].name)))
  }

  ghost function ViolatedKeys(b: Budgets): set<string> {
    set k | k in b && b[k].violated
  }

  // ----- The snapshot -----

  ghost function GroupsOf(items: seq<(string, CheckState)>, b: Budgets): (r: seq<Group>)
    ensures |r| == |GroupNames(items)|
  {
    var names := GroupNames(items);
    seq(|names|, j requires 0 <= j < |names| => Group(names[j], Attach(b, Members(items, names[j]))))
  }

  ghost function SnapshotOf(s: Rings, b: Budgets): Snapshot
    requires s.Valid()
  {
    var n := |s.order|;
    var base := BaseStates(s, n);
    Snapshot(
      OverallOf(Count(base, Up), Count(base, Down)),
      Summary(n, Count(base, Up), Count(base, Down), Count(base, Error), |b|, |ViolatedKeys(b)|),
      OnlySeen(TYPE_ORDER, TypesSeen(s, n)),
      GroupsOf(Tagged(s, n), b),
      Attach(b, base))
  }
}
