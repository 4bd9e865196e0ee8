/**
 The status store as values: what each operation does to the rings and to the budget states.
 The class in Store.dfy is proved to perform these steps; StoreRuns.dfy proves what they mean
 for the full history of results.
 */
module StoreModel {
  import opened Wrappers
  import opened Check
  import opened Ring
  import Keys

  const BUDGET_FAIL_THRESHOLD := 3

  /** How long a cached snapshot may be served, in nanoseconds. */
  const SNAPSHOT_TTL := 2_000_000_000

  datatype RingState = RingState(
    name: string, typ: string, group: string, target: string, buf: Buffer, downSince: int)

  /** `checks` and the insertion-ordered key list that iteration follows. */
  datatype Rings = Rings(checks: map<string, RingState>, order: seq<string>) {
    ghost predicate Valid() {
      && (forall i, j :: 0 <= i < j < |order| ==> order[i] != order[j])
      && (forall k :: k in order <==> k in checks)
      && (forall k :: k in checks ==> checks[k].buf.Valid())
    }
  }

  type ValidRings = s: Rings | s.Valid() witness Rings(map[], [])

  datatype BudgetState = BudgetState(violated: bool, streak: int)

  type Budgets = map<string, BudgetState>

  datatype CheckConfig = CheckConfig(typ: string, name: string)

  // ----- Push -----

  function TrackDown(downSince: int, r: Result): int {
    if r.success || r.infraError then ZERO_TIME
    else if downSince == ZERO_TIME then r.timestamp
    else downSince
  }

  function NewRing(r: Result): RingState {
    RingState(r.name, r.typ, r.group, r.target, EMPTY, ZERO_TIME)
  }

  function PushRing(ring: RingState, r: Result): RingState
    requires ring.buf.Valid()
  {
    ring.(group := if r.group != "" then r.group else ring.group,
          target := if r.target != "" then r.target else ring.target,
          downSince := TrackDown(ring.downSince, r),
          buf := ring.buf.Push(ToEntry(r)))
  }

  function PushAt(s: Rings, key: string, r: Result): Rings
    requires s.Valid()
  {
    if key in s.checks
    then Rings(s.checks[key := PushRing(s.checks[key], r)], s.order)
    else Rings(s.checks[key := PushRing(NewRing(r), r)], s.order + [key])
  }

  function PushRings(s: Rings, r: Result): Rings
    requires s.Valid()
  {
    PushAt(s, Keys.CheckKey(r.typ, r.name), r)
  }

  // ----- RecordBudgetCheck -----

  function BudgetAt(b: Budgets, key: string): BudgetState {
    if key in b then b[key] else BudgetState(false, 0)
  }

  function NextBudgetState(prev: BudgetState, violated: bool): BudgetState {
    if violated then BudgetState(true, prev.streak + 1) else BudgetState(false, 0)
  }

  function RecordBudget(b: Budgets, check: string, metric: string, violated: bool): Budgets {
    var key := Keys.BudgetKey(check, metric);
    b[key := NextBudgetState(BudgetAt(b, key), violated)]
  }

  /** The value RecordBudgetCheck returns: the streak has just reached the fail threshold. */
  predicate CrossesThreshold(b: Budgets, check: string, metric: string, violated: bool) {
    NextBudgetState(BudgetAt(b, Keys.BudgetKey(check, metric)), violated).streak == BUDGET_FAIL_THRESHOLD
  }

  datatype Severity = Pass | Warn | Fail

  function SeverityOf(bs: BudgetState): Severity {
    if bs.streak >= BUDGET_FAIL_THRESHOLD then Fail else if bs.violated then Warn else Pass
  }

  // ----- Reconcile -----

  function ActiveKeys(configs: seq<CheckConfig>): set<string> {
    set c | c in configs :: Keys.CheckKey(c.typ, c.name)
  }

  function ActiveNames(configs: seq<CheckConfig>): set<string> {
    set c | c in configs :: c.name
  }

  function KeepActive(order: seq<string>, active: set<string>): seq<string> {
    if order == [] then []
    else (if order[0] in active then [order[0]] else []) + KeepActive(order[1..], active)
  }

  function PrunedRings(s: Rings, active: set<string>): Rings {
    Rings(map k | k in s.checks && !(k in s.order && k !in active) :: s.checks[k], KeepActive(s.order, active))
  }

  function ReconcileRings(s: Rings, configs: seq<CheckConfig>): Rings {
    PrunedRings(s, ActiveKeys(configs))
  }

  predicate BudgetKept(key: string, names: set<string>) {
    var name := Keys.BudgetKeyCheck(key);
    name.None? || name.value in names
  }

  function PrunedBudgets(b: Budgets, names: set<string>): Budgets {
    map k | k in b && BudgetKept(k, names) :: b[k]
  }

  function ReconcileBudgets(b: Budgets, configs: seq<CheckConfig>): Budgets {
    PrunedBudgets(b, ActiveNames(configs))
  }

  lemma {:induction false} KeepActiveKeeps(order: seq<string>, active: set<string>)
    ensures forall k :: k in KeepActive(order, active) <==> k in order && k in active
    ensures (forall i, j :: 0 <= i < j < |order| ==> order[i] != order[j]) ==>
              forall i, j :: 0 <= i < j < |KeepActive(order, active)| ==>
                KeepActive(order, active)[i] != KeepActive(order, active)[j]
  {
    if order == [] {
    } else {
      var rest := KeepActive(order[1..], active);
      KeepActiveKeeps(order[1..], active);
      assert order == [order[0]] + order[1..];
      if forall i, j :: 0 <= i < j < |order| ==> order[i] != order[j] {
        assert order[0] !in order[1..];
        assert forall j :: 0 <= j < |rest| ==> rest[j] in rest;
      }
    }
  }

  // ----- Persistence -----

  datatype PersistedRing = PersistedRing(
    name: string, typ: string, group: string, target: string, entries: seq<Entry>, downSince: int)

  function PersistRing(ring: RingState): PersistedRing
    requires ring.buf.Valid()
  {
    PersistedRing(ring.name, ring.typ, ring.group, ring.target, ring.buf.Ordered(), ring.downSince)
  }

  function LoadRing(p: PersistedRing): RingState {
    RingState(p.name, p.typ, p.group, p.target, Buffer(p.entries, 0, false), p.downSince)
  }

  datatype PersistedRings = PersistedRings(rings: map<string, PersistedRing>, order: seq<string>)

  type ValidImage = p: PersistedRings | LoadRings(p).Valid() witness PersistedRings(map[], [])

  function PersistRings(s: Rings): PersistedRings
    requires s.Valid()
  {
    PersistedRings(map k | k in s.checks :: PersistRing(s.checks[k]), s.order)
  }

  function LoadRings(p: PersistedRings): Rings {
    Rings(map k | k in p.rings :: LoadRing(p.rings[k]), p.order)
  }

  // ----- Every step keeps the key list and the rings in agreement -----

  lemma PushAtValid(s: Rings, key: string, r: Result)
    requires s.Valid()
    ensures PushAt(s, key, r).Valid()
  {
  }

  lemma PrunedRingsValid(s: Rings, active: set<string>)
    requires s.Valid()
    ensures PrunedRings(s, active).Valid()
    ensures PrunedRings(s, active).checks.Keys == s.checks.Keys * active
    ensures PrunedRings(s, active).checks.Keys == s.checks.Keys - (set k | k in s.order && k !in active)
  {
    KeepActiveKeeps(s.order, active);
  }

  lemma LoadedKeys(s: Rings)
    requires s.Valid()
    ensures LoadRings(PersistRings(s)).checks.Keys == s.checks.Keys
    ensures LoadRings(PersistRings(s)).Valid()
  {
    var t := LoadRings(PersistRings(s));
    assert forall k :: k in t.checks ==> t.checks[k].buf == s.checks[k].buf.Reload();
  }
}
