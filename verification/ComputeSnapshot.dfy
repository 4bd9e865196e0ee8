/** computeSnapshot's loops, over the state read under the locks. */
module ComputeSnapshot {
  import opened Wrappers
  import opened Check
  import opened Ring
  import opened Latencies
  import opened StoreModel
  import opened Sorting
  import opened Snapshots
  import Keys

  // ----- Budgets: from the map to sorted per-check lists -----

  predicate MetricLeq(a: BudgetCheck, b: BudgetCheck) {
    StringLeq(a.metric, b.metric)
  }

  lemma MetricLeqIsTotalPreorder()
    ensures TotalPreorder(MetricLeq)
  {
    forall a: BudgetCheck, b: BudgetCheck
      ensures MetricLeq(a, b) || MetricLeq(b, a)
    {
      StringLessTotal(a.metric, b.metric);
    }
    forall a: BudgetCheck, b: BudgetCheck, c: BudgetCheck | MetricLeq(a, b) && MetricLeq(b, c)
      ensures MetricLeq(a, c)
    {
      if a.metric != b.metric && b.metric != c.metric {
        StringLessTransitive(a.metric, b.metric, c.metric);
      }
    }
  }

  /** What the status page shows for one budget key. */
  function Shown(b: Budgets, key: string): BudgetCheck
    requires key in b && Keys.BudgetKeyCheck(key).Some?
  {
    BudgetCheck(Keys.BudgetKeyMetric(key), SeverityOf(b[key]))
  }

  ghost predicate Distinct<T>(s: seq<T>) {
    forall i, j :: 0 <= i < j < |s| ==> s[i] != s[j]
  }

  /** cs lists, in any order and once each, the budget checks of name among the given keys. */
  ghost predicate Collected(cs: seq<BudgetCheck>, b: Budgets, keys: set<string>, name: string) {
    && Distinct(cs)
    && forall c :: c in cs <==> exists k :: k in keys && k in b && BelongsTo(k, name) && c == Shown(b, k)
  }

  lemma {:induction false} DistinctCounts<T>(s: seq<T>, x: T)
    requires Distinct(s)
    ensures multiset(s)[x] == if x in s then 1 else 0
  {
    if s == [] {
    } else {
      DistinctCounts(s[1..], x);
      assert s == [s[0]] + s[1..];
      assert s[0] !in s[1..];
    }
  }

  lemma SameElementsSameMultiset<T(!new)>(a: seq<T>, b: seq<T>)
    requires Distinct(a) && Distinct(b)
    requires forall x :: x in a <==> x in b
    ensures multiset(a) == multiset(b)
  {
    forall x
      ensures multiset(a)[x] == multiset(b)[x]
    {
      DistinctCounts(a, x);
      DistinctCounts(b, x);
    }
  }

  lemma ListedIff(b: Budgets, name: string, c: BudgetCheck)
    ensures c in BudgetChecksFor(b, name) <==> exists k :: k in b && BelongsTo(k, name) && c == Shown(b, k)
  {
    var metrics := SortedListing(MetricsFor(b, name));
    var cs := BudgetChecksFor(b, name);
    if c in cs {
      var i :| 0 <= i < |cs| && cs[i] == c;
      assert metrics[i] in metrics;
      var k :| k in b && BelongsTo(k, name) && Keys.BudgetKeyMetric(k) == metrics[i];
      MetricNamesKey(k, name);
      assert c == Shown(b, k);
    }
    if k :| k in b && BelongsTo(k, name) && c == Shown(b, k) {
      MetricNamesKey(k, name);
      assert c.metric in metrics;
      var i :| 0 <= i < |metrics| && metrics[i] == c.metric;
      assert cs[i] == c;
    }
  }

  lemma ListedInOrder(b: Budgets, name: string)
    ensures SortedBy(BudgetChecksFor(b, name), MetricLeq) && Distinct(BudgetChecksFor(b, name))
    ensures forall x, y :: x in BudgetChecksFor(b, name) && y in BudgetChecksFor(b, name) && x.metric == y.metric ==> x == y
  {
    var metrics := SortedListing(MetricsFor(b, name));
    forall i, j | 0 <= i < j < |metrics|
      ensures metrics[i] != metrics[j] && StringLeq(metrics[i], metrics[j])
    {
      StringLessAsymmetric(metrics[i], metrics[j]);
    }
  }

  /** Sorting what the map iteration collected gives the one sorted list, whatever the iteration order was. */
  lemma SortingForgetsOrder(cs: seq<BudgetCheck>, b: Budgets, name: string)
    requires Collected(cs, b, b.Keys, name)
    ensures Sort(cs, MetricLeq) == BudgetChecksFor(b, name)
  {
    var listed := BudgetChecksFor(b, name);
    ListedInOrder(b, name);
    forall c
      ensures c in cs <==> c in listed
    {
      ListedIff(b, name, c);
    }
    SameElementsSameMultiset(cs, listed);
    MetricLeqIsTotalPreorder();
    SortSorts(cs, MetricLeq);
    forall x, y | x in listed && y in listed && MetricLeq(x, y) && MetricLeq(y, x)
      ensures x == y
    {
      if x.metric != y.metric {
        StringLessAsymmetric(x.metric, y.metric);
      }
    }
    SortedIsUnique(listed, Sort(cs, MetricLeq), MetricLeq);
  }

  function Get(m: map<string, seq<BudgetCheck>>, name: string): seq<BudgetCheck> {
    if name in m then m[name] else []
  }

  lemma CollectOne(cs: seq<BudgetCheck>, b: Budgets, done: set<string>, key: string, name: string)
    requires Collected(cs, b, done, name) && key in b && key !in done
    ensures BelongsTo(key, name) ==> Collected(cs + [Shown(b, key)], b, done + {key}, name)
    ensures !BelongsTo(key, name) ==> Collected(cs, b, done + {key}, name)
  {
    if BelongsTo(key, name) {
      var c := Shown(b, key);
      if c in cs {
        var k :| k in done && k in b && BelongsTo(k, name) && c == Shown(b, k);
        MetricNamesKey(k, name);
        MetricNamesKey(key, name);
      }
    }
  }

  ghost predicate AllCollected(m: map<string, seq<BudgetCheck>>, b: Budgets, done: set<string>) {
    forall name :: Collected(Get(m, name), b, done, name)
  }

  /** The loop body for one key. */
  function Add(m: map<string, seq<BudgetCheck>>, b: Budgets, key: string): map<string, seq<BudgetCheck>>
    requires key in b
  {
    var name := Keys.BudgetKeyCheck(key);
    if name.None? then m else m[name.value := Get(m, name.value) + [Shown(b, key)]]
  }

  lemma AddCollects(m: map<string, seq<BudgetCheck>>, b: Budgets, done: set<string>, key: string)
    requires AllCollected(m, b, done) && key in b && key !in done
    ensures AllCollected(Add(m, b, key), b, done + {key})
  {
    forall name
      ensures Collected(Get(Add(m, b, key), name), b, done + {key}, name)
    {
      CollectOne(Get(m, name), b, done, key, name);
    }
  }

  /** The second loop: each list is sorted by metric. */
  function SortLists(m: map<string, seq<BudgetCheck>>): map<string, seq<BudgetCheck>> {
    map n | n in m :: Sort(m[n], MetricLeq)
  }

  lemma SortAll(m: map<string, seq<BudgetCheck>>, b: Budgets, name: string)
    requires AllCollected(m, b, b.Keys)
    ensures Get(SortLists(m), name) == BudgetChecksFor(b, name)
  {
    assert Collected(Get(m, name), b, b.Keys, name);
    if name !in m {
      assert Sort(Get(m, name), MetricLeq) == [];
    }
    SortingForgetsOrder(Get(m, name), b, name);
  }

  method CollectBudgets(b: Budgets) returns (probe: map<string, seq<BudgetCheck>>, violations: nat)
    ensures forall name :: Get(probe, name) == BudgetChecksFor(b, name)
    ensures violations == |ViolatedKeys(b)|
  {
    violations := 0;
    var collected: map<string, seq<BudgetCheck>> := map[];
    var todo := b.Keys;
    ghost var violated: set<string> := {};
    while todo != {}
      invariant todo <= b.Keys
      invariant violated == (set k | k in b && k !in todo && b[k].violated) && violations == |violated|
      invariant AllCollected(collected, b, b.Keys - todo)
      decreases todo
    {
      var key :| key in todo;
      var bs := b[key];
      if bs.violated {
        violations := violations + 1;
        violated := violated + {key};
      }
      AddCollects(collected, b, b.Keys - todo, key);
      assert b.Keys - todo + {key} == b.Keys - (todo - {key});
      var checkName := Keys.BudgetKeyCheck(key);
      if checkName.Some? {
        var severity := Pass;
        if bs.streak >= BUDGET_FAIL_THRESHOLD {
          severity := Fail;
        } else if bs.violated {
          severity := Warn;
        }
        var name := checkName.value;
        collected := collected[name := Get(collected, name) + [BudgetCheck(Keys.BudgetKeyMetric(key), severity)]];
      }
      todo := todo - {key};
    }
    assert b.Keys - todo == b.Keys;
    assert violated == ViolatedKeys(b);
    probe := SortLists(collected);
    forall name
      ensures Get(probe, name) == BudgetChecksFor(b, name)
    {
      SortAll(collected, b, name);
    }
  }

  method AttachBudgets(cs: seq<CheckState>, probe: map<string, seq<BudgetCheck>>, ghost b: Budgets)
    returns (r: seq<CheckState>)
    requires forall name :: Get(probe, name) == BudgetChecksFor(b, name)
    requires forall i :: 0 <= i < |cs| ==> cs[i].budgetChecks == []
    ensures r == Attach(b, cs)
  {
    r := [];
    for i := 0 to |cs|
      invariant |r| == i
      invariant forall j :: 0 <= j < i ==> r[j] == Attach(b, cs)[j]
    {
      var c := cs[i];
      assert Get(probe, c.name) == BudgetChecksFor(b, c.name);
      if c.name in probe {
        c := c.(budgetChecks := probe[c.name]);
      }
      r := r + [c];
    }
  }

  // ----- Checks, counts, types and groups -----

  method Describe(ring: RingState) returns (ps: CheckState)
    requires ring.buf.Valid()
    ensures ps == BaseState(ring)
  {
    var entries := ring.buf.Ordered();
    var latency := ComputeLatency(entries);
    ps := CheckState(ring.name, ring.typ, ring.target, Pending, latency, None, entries, []);
    if |entries| > 0 {
      var last := entries[|entries| - 1];
      ps := ps.(latest := Some(last));
      if last.success {
        ps := ps.(status := Up);
      } else if last.infraError {
        ps := ps.(status := Error);
      } else {
        ps := ps.(status := Down);
      }
    }
  }

  method CollectChecks(s: Rings) returns (cs: seq<CheckState>, up: nat, down: nat, err: nat, seen: set<string>)
    requires s.Valid()
    ensures cs == BaseStates(s, |s.order|)
    ensures up == Count(cs, Up) && down == Count(cs, Down) && err == Count(cs, Error)
    ensures seen == TypesSeen(s, |s.order|)
  {
    cs, up, down, err, seen := [], 0, 0, 0, {};
    for i := 0 to |s.order|
      invariant cs == BaseStates(s, i)
      invariant up == Count(cs, Up) && down == Count(cs, Down) && err == Count(cs, Error)
      invariant seen == TypesSeen(s, i)
    {
      assert s.order[i] in s.order;
      var ring := s.checks[s.order[i]];
      var ps := Describe(ring);
      BaseStatesSnoc(s, i);
      TypesSeenSnoc(s, i);
      seen := seen + {ring.typ};
      match ps.status {
        case Up => up := up + 1;
        case Error => err := err + 1;
        case Down => down := down + 1;
        case Pending =>
      }
      assert (cs + [ps])[..|cs|] == cs;
      cs := cs + [ps];
    }
  }

  method Tag(s: Rings) returns (items: seq<(string, CheckState)>)
    requires s.Valid()
    ensures items == Tagged(s, |s.order|)
  {
    items := [];
    for i := 0 to |s.order|
      invariant |items| == i
      invariant forall j :: 0 <= j < i ==> items[j] == RingAt(s, j)
    {
      assert s.order[i] in s.order;
      var ring := s.checks[s.order[i]];
      var ps := Describe(ring);
      items := items + [(ring.group, ps)];
    }
  }

  method CollectGroups<T>(items: seq<(string, T)>) returns (groupOrder: seq<string>, groupMap: map<string, seq<T>>)
    ensures groupOrder == GroupNames(items)
    ensures forall g :: g in groupOrder ==> g in groupMap
    ensures forall g :: g in groupMap ==> groupMap[g] == Members(items, g)
  {
    groupOrder, groupMap := [], map[];
    for i := 0 to |items|
      invariant groupOrder == GroupNames(items[..i])
      invariant forall g :: g in groupMap <==> g in groupOrder
      invariant forall g :: Members(items[..i], g) == if g in groupMap then groupMap[g] else []
    {
      var (group, ps) := items[i];
      assert items[..i + 1][..i] == items[..i];
      if group !in groupMap {
        groupMap := groupMap[group := []];
        groupOrder := groupOrder + [group];
      }
      groupMap := groupMap[group := groupMap[group] + [ps]];
    }
    assert items[..|items|] == items;
  }

  method CollectTypes(seen: set<string>) returns (types: seq<string>)
    ensures types == OnlySeen(TYPE_ORDER, seen)
  {
    types := [];
    var all := TYPE_ORDER;
    for i := 0 to |all|
      invariant types == OnlySeen(all[..i], seen)
    {
      assert all[..i + 1][..i] == all[..i];
      if all[i] in seen {
        types := types + [all[i]];
      }
    }
    assert all[..|all|] == all;
  }

  method AttachToGroups(items: seq<(string, CheckState)>, probe: map<string, seq<BudgetCheck>>, ghost b: Budgets)
    returns (groups: seq<Group>)
    requires forall name :: Get(probe, name) == BudgetChecksFor(b, name)
    requires forall i :: 0 <= i < |items| ==> items[i].1.budgetChecks == []
    ensures groups == GroupsOf(items, b)
  {
    var groupOrder, groupMap := CollectGroups(items);
    groups := [];
    for j := 0 to |groupOrder|
      invariant |groups| == j
      invariant forall k :: 0 <= k < j ==> groups[k] == GroupsOf(items, b)[k]
    {
      MembersHaveNoBudgets(items, groupOrder[j]);
      var members := AttachBudgets(groupMap[groupOrder[j]], probe, b);
      groups := groups + [Group(groupOrder[j], members)];
    }
  }

  method Compute(s: Rings, b: Budgets) returns (snap: Snapshot)
    requires s.Valid()
    ensures snap == SnapshotOf(s, b)
  {
    var cs, up, down, err, seen := CollectChecks(s);
    var types := CollectTypes(seen);
    var probe, violations := CollectBudgets(b);
    BaseStatesHaveNoBudgets(s, |s.order|);
    var checks := AttachBudgets(cs, probe, b);
    var items := Tag(s);
    TaggedHaveNoBudgets(s, |s.order|);
    var groups := AttachToGroups(items, probe, b);
    snap := Snapshot(OverallOf(up, down), Summary(|s.order|, up, down, err, |b|, violations), types, groups, checks);
  }

  lemma BaseStatesSnoc(s: Rings, i: nat)
    requires s.Valid() && i < |s.order|
    ensures BaseStates(s, i + 1) == BaseStates(s, i) + [RingAt(s, i).1]
  {
  }

  lemma TypesSeenSnoc(s: Rings, i: nat)
    requires s.Valid() && i < |s.order|
    ensures TypesSeen(s, i + 1) == TypesSeen(s, i) + {RingAt(s, i).1.typ}
  {
  }

  lemma BaseStatesHaveNoBudgets(s: Rings, n: nat)
    requires s.Valid() && n <= |s.order|
    ensures forall i :: 0 <= i < n ==> BaseStates(s, n)[i].budgetChecks == []
  {
  }

  lemma TaggedHaveNoBudgets(s: Rings, n: nat)
    requires s.Valid() && n <= |s.order|
    ensures forall i :: 0 <= i < n ==> Tagged(s, n)[i].1.budgetChecks == []
  {
  }

  lemma {:induction false} MembersHaveNoBudgets(items: seq<(string, CheckState)>, g: string)
    requires forall i :: 0 <= i < |items| ==> items[i].1.budgetChecks == []
    ensures forall i :: 0 <= i < |Members(items, g)| ==> Members(items, g)[i].budgetChecks == []
  {
    if items == [] {
    } else {
      MembersHaveNoBudgets(items[..|items| - 1], g);
    }
  }
}
