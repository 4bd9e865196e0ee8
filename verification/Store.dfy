/**
 The status store as objects: a map of mutable rings, the key list, the budget map and the cached
 snapshot, each method proved to perform the corresponding step of StoreModel.
 */
module Store {
  import opened Wrappers
  import opened Check
  import opened Ring
  import opened StoreModel
  import opened Snapshots
  import ComputeSnapshot
  import Keys

  class CheckRing {
    const name: string
    const typ: string
    var group: string
    var target: string
    var entries: seq<Entry>
    var head: nat
    var full: bool
    var downSince: int

    constructor (name: string, typ: string, group: string, target: string, entries: seq<Entry>, downSince: int)
      ensures Abs() == RingState(name, typ, group, target, Buffer(entries, 0, false), downSince)
    {
      this.name, this.typ, this.group, this.target := name, typ, group, target;
      this.entries, this.downSince := entries, downSince;
      head, full := 0, false;
    }

    function Abs(): RingState
      reads this
    {
      RingState(name, typ, group, target, Buffer(entries, head, full), downSince)
    }

    method Push(e: Entry)
      requires Abs().buf.Valid()
      modifies this`entries, this`head, this`full
      ensures Abs() == old(Abs()).(buf := old(Abs()).buf.Push(e))
    {
      if |entries| < MAX_HISTORY {
        entries := entries + [e];
        return;
      }
      entries := entries[head := e];
      head := (head + 1) % MAX_HISTORY;
      full := true;
    }

    /** The part of Store.Push that changes an existing ring. */
    method Absorb(r: Result)
      requires Abs().buf.Valid()
      modifies this
      ensures Abs() == PushRing(old(Abs()), r)
    {
      if r.group != "" {
        group := r.group;
      }
      if r.target != "" {
        target := r.target;
      }
      if r.success || r.infraError {
        downSince := ZERO_TIME;
      } else if downSince == ZERO_TIME {
        downSince := r.timestamp;
      }
      Push(ToEntry(r));
    }

    method Ordered() returns (out: seq<Entry>)
      requires Abs().buf.Valid()
      ensures out == Abs().buf.Ordered()
    {
      if !full || head == 0 {
        return entries;
      }
      out := entries[head..] + entries[..head];
    }

    method Persist() returns (p: PersistedRing)
      requires Abs().buf.Valid()
      ensures p == PersistRing(Abs())
    {
      var ordered := Ordered();
      p := PersistedRing(name, typ, group, target, ordered, downSince);
    }
  }

  /** No two keys share a ring object. */
  ghost predicate OwnRings(checks: map<string, CheckRing>) {
    forall j, k :: j in checks && k in checks && j != k ==> checks[j] != checks[k]
  }

  class Store {
    var checks: map<string, CheckRing>
    var order: seq<string>
    var budgetChecks: map<string, BudgetState>
    var snapCache: Option<Snapshot>
    var snapTime: int
    /** The value of the rings and the key list. */
    ghost var rings: ValidRings
    /** Reconcile has changed the state under a cached snapshot. */
    ghost var stale: bool

    /** Every key has a ring object of its own, and the objects hold the values in `rings`. */
    ghost predicate Valid()
      reads this`checks, this`order, this`rings, checks.Values
    {
      && OwnRings(checks)
      && order == rings.order
      && (forall k :: k in checks <==> k in rings.checks)
      && forall k :: k in checks ==> checks[k].Abs() == rings.checks[k]
    }

    /** A cached snapshot shows the present state, unless Reconcile has run since it was stored. */
    ghost predicate CacheExact()
      reads this
    {
      snapCache.Some? && !stale ==> snapCache.value == SnapshotOf(rings, budgetChecks)
    }

    constructor ()
      ensures Valid() && rings == Rings(map[], []) && budgetChecks == map[] && snapCache.None?
    {
      checks, order, budgetChecks := map[], [], map[];
      snapCache, snapTime, stale := None, 0, false;
      rings := Rings(map[], []);
    }

    method InvalidateCache()
      modifies this`snapCache, this`stale
      ensures snapCache.None? && !stale
    {
      snapCache := None;
      stale := false;
    }

    method Push(r: Result)
      requires Valid()
      modifies this`checks, this`order, this`rings, this`snapCache, this`stale, checks.Values
      ensures Valid()
      ensures rings == PushRings(old(rings), r)
      ensures snapCache.None? && !stale
    {
      PushKey(Keys.CheckKey(r.typ, r.name), r);
      InvalidateCache();
    }

    method PushKey(key: string, r: Result)
      requires Valid()
      modifies this`checks, this`order, this`rings, checks.Values
      ensures Valid() && rings == PushAt(old(rings), key, r)
    {
      PushAtValid(rings, key, r);
      ghost var after: ValidRings := PushAt(rings, key, r);
      var ring := RingFor(key, r, after);
      Fill(key, ring, r, after);
    }

    /** The ring of the check, created and listed on its first result; all other rings are as they will be. */
    method RingFor(key: string, r: Result, ghost after: ValidRings) returns (ring: CheckRing)
      requires Valid() && after == PushAt(rings, key, r)
      modifies this`checks, this`order
      ensures OwnRings(checks) && order == after.order && key in checks && checks[key] == ring
      ensures fresh(ring) || ring in old(checks.Values)
      ensures forall k :: k in checks <==> k in after.checks
      ensures ring.Abs().buf.Valid() && PushRing(ring.Abs(), r) == after.checks[key]
      ensures forall k :: k in checks && k != key ==> checks[k].Abs() == after.checks[k]
    {
      if key in checks {
        ring := checks[key];
      } else {
        ring := new CheckRing(r.name, r.typ, r.group, r.target, [], ZERO_TIME);
        checks := checks[key := ring];
        order := order + [key];
      }
    }

    /** The ring is in place and the others already hold their values: the result goes into it. */
    method Fill(key: string, ring: CheckRing, r: Result, ghost after: ValidRings)
      requires OwnRings(checks) && order == after.order && key in checks && checks[key] == ring
      requires forall k :: k in checks <==> k in after.checks
      requires ring.Abs().buf.Valid() && PushRing(ring.Abs(), r) == after.checks[key]
      requires forall k :: k in checks && k != key ==> checks[k].Abs() == after.checks[k]
      modifies ring, this`rings
      ensures Valid() && rings == after
    {
      ring.Absorb(r);
      forall k | k in checks && k != key
        ensures checks[k].Abs() == old(checks[k].Abs())
      {
        assert checks[k] != ring;
      }
      rings := after;
    }

    method RecordBudgetCheck(check: string, metric: string, violated: bool) returns (crossed: bool)
      modifies this`budgetChecks, this`snapCache, this`stale
      ensures budgetChecks == RecordBudget(old(budgetChecks), check, metric, violated)
      ensures crossed == CrossesThreshold(old(budgetChecks), check, metric, violated)
      ensures snapCache.None? && !stale
    {
      var key := Keys.BudgetKey(check, metric);
      var prev := if key in budgetChecks then budgetChecks[key] else BudgetState(false, 0);
      var bs := BudgetState(false, 0);
      if violated {
        bs := BudgetState(true, prev.streak + 1);
      }
      budgetChecks := budgetChecks[key := bs];
      InvalidateCache();
      crossed := bs.streak == BUDGET_FAIL_THRESHOLD;
    }

    /** Reconcile's loop over the key list. */
    method PruneRings(active: set<string>)
      requires Valid()
      modifies this`checks, this`order, this`rings
      ensures Valid() && rings == PrunedRings(old(rings), active)
    {
      PrunedRingsValid(rings, active);
      ghost var after: ValidRings := PrunedRings(rings, active);
      var kept, pruned := Prune(order, active);
      assert forall k :: k in rings.checks && k !in pruned <==> k in after.checks;
      Drop(kept, pruned, after);
    }

    method Drop(kept: seq<string>, pruned: set<string>, ghost after: ValidRings)
      requires Valid()
      requires kept == after.order
      requires forall k :: k in rings.checks && k !in pruned <==> k in after.checks
      requires forall k :: k in after.checks ==> after.checks[k] == rings.checks[k]
      modifies this`checks, this`order, this`rings
      ensures Valid() && rings == after
    {
      order := kept;
      checks := checks - pruned;
      rings := after;
    }

    /** The cache is left as it is, so a snapshot taken before may still be served. */
    method Reconcile(configs: seq<CheckConfig>)
      requires Valid()
      modifies this`checks, this`order, this`budgetChecks, this`rings, this`stale
      ensures Valid() && stale
      ensures rings == ReconcileRings(old(rings), configs)
      ensures budgetChecks == ReconcileBudgets(old(budgetChecks), configs)
    {
      PruneRings(ActiveKeys(configs));
      budgetChecks := PruneBudgets(budgetChecks, ActiveNames(configs));
      stale := true;
    }

    /** The ring half of save, under the ring lock. */
    method SaveRings() returns (p: PersistedRings)
      requires Valid()
      ensures p == PersistRings(rings)
    {
      var saved := PersistAll(rings);
      p := PersistedRings(saved, order);
    }

    method PersistAll(ghost s: ValidRings) returns (saved: map<string, PersistedRing>)
      requires forall k :: k in checks <==> k in s.checks
      requires forall k :: k in checks ==> checks[k].Abs() == s.checks[k]
      ensures saved == PersistRings(s).rings
    {
      saved := map[];
      var todo := checks.Keys;
      while todo != {}
        invariant todo <= checks.Keys
        invariant saved.Keys == checks.Keys - todo
        invariant forall k :: k in saved ==> saved[k] == PersistRing(s.checks[k])
        decreases todo
      {
        var key :| key in todo;
        var pr := checks[key].Persist();
        saved := saved[key := pr];
        todo := todo - {key};
      }
    }

    /**
     tryLoadData on a new store, for any image. If the image is one that a save wrote, its key list
     lists its rings and the loaded store is valid.
     */
    constructor Load(p: PersistedRings, budgets: Budgets)
      ensures order == p.order && budgetChecks == budgets && snapCache.None?
      ensures checks.Keys == p.rings.Keys && OwnRings(checks)
      ensures forall k :: k in checks ==> fresh(checks[k]) && checks[k].Abs() == LoadRing(p.rings[k])
      ensures LoadRings(p).Valid() ==> Valid() && rings == LoadRings(p)
    {
      checks, order, budgetChecks := map[], p.order, budgets;
      snapCache, snapTime, stale := None, 0, false;
      rings := if LoadRings(p).Valid() then LoadRings(p) else Rings(map[], []);
      new;
      LoadAll(p);
    }

    method LoadAll(p: PersistedRings)
      requires checks == map[]
      modifies this`checks
      ensures checks.Keys == p.rings.Keys && OwnRings(checks)
      ensures forall k :: k in checks ==> fresh(checks[k]) && checks[k].Abs() == LoadRing(p.rings[k])
    {
      var todo := p.rings.Keys;
      while todo != {}
        invariant todo <= p.rings.Keys
        invariant checks.Keys == p.rings.Keys - todo
        invariant forall k :: k in checks ==> fresh(checks[k]) && checks[k].Abs() == LoadRing(p.rings[k])
        invariant OwnRings(checks)
        decreases todo
      {
        var key :| key in todo;
        var pr := p.rings[key];
        var ring := new CheckRing(pr.name, pr.typ, pr.group, pr.target, pr.entries, pr.downSince);
        checks := checks[key := ring];
        todo := todo - {key};
      }
    }

    /** What a reader of the rings sees under the ring lock. */
    method ReadRings() returns (s: Rings)
      requires Valid()
      ensures s == rings
    {
      s := Rings(map k | k in checks :: checks[k].Abs(), order);
      assert s.checks == rings.checks;
    }

    /**
     Snapshot: a cached one is served only within two seconds of being stored. Unless Reconcile has
     run since, the one served shows the present state, cached or not.
     */
    method Serve(now: int) returns (snap: Snapshot)
      requires Valid() && CacheExact()
      modifies this`snapCache, this`snapTime, this`stale
      ensures Valid() && CacheExact()
      ensures old(snapCache).Some? && now - old(snapTime) < 2_000_000_000 ==>
                snap == old(snapCache).value && snapCache == old(snapCache) && snapTime == old(snapTime)
      ensures !(old(snapCache).Some? && now - old(snapTime) < 2_000_000_000) ==>
                snap == SnapshotOf(rings, budgetChecks) && snapCache == Some(snap) && snapTime == now && !stale
      ensures !old(stale) ==> snap == SnapshotOf(rings, budgetChecks)
    {
      if snapCache.Some? && now - snapTime < SNAPSHOT_TTL {
        return snapCache.value;
      }
      var s := ReadRings();
      snap := ComputeSnapshot.Compute(s, budgetChecks);
      Cache(snap, now);
    }

    method Cache(snap: Snapshot, now: int)
      requires Valid()
      modifies this`snapCache, this`snapTime, this`stale
      ensures Valid() && snapCache == Some(snap) && snapTime == now && !stale
    {
      snapCache := Some(snap);
      snapTime := now;
      stale := false;
    }
  }

  // ----- The loops of Reconcile -----

  method Prune(order: seq<string>, active: set<string>) returns (kept: seq<string>, pruned: set<string>)
    ensures kept == KeepActive(order, active)
    ensures pruned == set k | k in order && k !in active
  {
    kept, pruned := [], {};
    for i := 0 to |order|
      invariant kept == KeepActive(order[..i], active)
      invariant pruned == set k | k in order[..i] && k !in active
    {
      KeepActiveSnoc(order, i, active);
      assert order[..i + 1] == order[..i] + [order[i]];
      if order[i] in active {
        kept := kept + [order[i]];
      } else {
        pruned := pruned + {order[i]};
      }
    }
    assert order[..|order|] == order;
  }

  method PruneBudgets(b: Budgets, activeNames: set<string>) returns (kept: Budgets)
    ensures kept == PrunedBudgets(b, activeNames)
  {
    kept := b;
    var todo := b.Keys;
    while todo != {}
      invariant todo <= b.Keys
      invariant forall k :: k in kept <==> k in b && (k in todo || BudgetKept(k, activeNames))
      invariant forall k :: k in kept ==> kept[k] == b[k]
      decreases todo
    {
      var key :| key in todo;
      var name := Keys.BudgetKeyCheck(key);
      if name.Some? && name.value !in activeNames {
        kept := kept - {key};
      }
      todo := todo - {key};
    }
  }

  lemma {:induction false} KeepActiveSnoc(order: seq<string>, i: nat, active: set<string>)
    requires i < |order|
    ensures KeepActive(order[..i + 1], active) ==
              KeepActive(order[..i], active) + if order[i] in active then [order[i]] else []
    decreases |order|
  {
    if i == 0 {
      assert order[..1] == [order[0]];
    } else {
      KeepActiveSnoc(order[1..], i - 1, active);
      assert order[..i + 1][1..] == order[1..][..i];
      assert order[..i][1..] == order[1..][..i - 1];
    }
  }
}
