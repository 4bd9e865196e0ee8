/**
 Every run of the store against a reference that simply remembers everything.

 The reference keeps, per ring key, the unbounded list of results, and, per budget key, the
 unbounded list of violated flags. The store keeps 90 entries and a few counters. The theorem
 is that the store's state is a fixed function of the reference after any run, including saves
 that overlap other operations and restarts from any committed image.
 */
module StoreRuns {
  import opened Check
  import opened Ring
  import opened StoreModel
  import opened Streaks
  import Keys

  // ----- Worlds and operations -----

  /**
   One operation of a process run. A save reads the rings under one lock and the budgets
   under another, then commits the file, so it is three operations that others may separate;
   `id` tells overlapping saves apart. `Restart(n)` starts a new process from image n (the
   main file is the newest image, a backup an older one) or empty when there is none.
   */
  datatype Op =
    | Push(r: Result)
    | Record(check: string, metric: string, violated: bool)
    | Reconcile(configs: seq<CheckConfig>)
    | SaveRings(id: nat)
    | SaveBudgets(id: nat)
    | SaveCommit(id: nat)
    | Restart(image: nat)

  datatype Image<R, B> = Image(rings: R, budgets: B)

  datatype Pending<R, B> = ReadRings(rings: R) | ReadBoth(image: Image<R, B>)

  datatype World = World(
    rings: ValidRings, budgets: Budgets,
    saves: map<nat, Pending<ValidImage, Budgets>>, disk: seq<Image<ValidImage, Budgets>>)

  datatype RefRings = RefRings(hist: map<string, seq<Result>>, order: seq<string>)

  type RefBudgets = map<string, seq<bool>>

  datatype RefWorld = RefWorld(
    rings: RefRings, budgets: RefBudgets,
    saves: map<nat, Pending<RefRings, RefBudgets>>, disk: seq<Image<RefRings, RefBudgets>>)

  const START := World(Rings(map[], []), map[], map[], [])
  const REF_START := RefWorld(RefRings(map[], []), map[], map[], [])

  // ----- The store -----

  function Step(w: World, op: Op): World {
    match op
    case Push(r) =>
      PushAtValid(w.rings, Keys.CheckKey(r.typ, r.name), r);
      w.(rings := PushRings(w.rings, r))
    case Record(check, metric, violated) => w.(budgets := RecordBudget(w.budgets, check, metric, violated))
    case Reconcile(configs) =>
      PrunedRingsValid(w.rings, ActiveKeys(configs));
      w.(rings := ReconcileRings(w.rings, configs), budgets := ReconcileBudgets(w.budgets, configs))
    case SaveRings(id) =>
      LoadedKeys(w.rings);
      w.(saves := w.saves[id := ReadRings(PersistRings(w.rings))])
    case SaveBudgets(id) =>
      if id in w.saves && w.saves[id].ReadRings?
      then w.(saves := w.saves[id := ReadBoth(Image(w.saves[id].rings, w.budgets))])
      else w
    case SaveCommit(id) =>
      if id in w.saves && w.saves[id].ReadBoth?
      then w.(saves := w.saves - {id}, disk := w.disk + [w.saves[id].image])
      else w
    case Restart(image) =>
      if image < |w.disk|
      then World(LoadRings(w.disk[image].rings), w.disk[image].budgets, map[], w.disk)
      else World(Rings(map[], []), map[], map[], w.disk)
  }

  // ----- The reference -----

  function RefPushAt(s: RefRings, key: string, r: Result): RefRings {
    if key in s.hist then RefRings(s.hist[key := s.hist[key] + [r]], s.order)
    else RefRings(s.hist[key := [r]], s.order + [key])
  }

  function RefPush(s: RefRings, r: Result): RefRings {
    RefPushAt(s, Keys.CheckKey(r.typ, r.name), r)
  }

  function RefRecord(b: RefBudgets, check: string, metric: string, violated: bool): RefBudgets {
    var key := Keys.BudgetKey(check, metric);
    b[key := (if key in b then b[key] else []) + [violated]]
  }

  function RefReconcileRings(s: RefRings, configs: seq<CheckConfig>): RefRings {
    var active := ActiveKeys(configs);
    RefRings(map k | k in s.hist && k in active :: s.hist[k], KeepActive(s.order, active))
  }

  function RefReconcileBudgets(b: RefBudgets, configs: seq<CheckConfig>): RefBudgets {
    map k | k in b && BudgetKept(k, ActiveNames(configs)) :: b[k]
  }

  function RefStep(w: RefWorld, op: Op): RefWorld {
    match op
    case Push(r) => w.(rings := RefPush(w.rings, r))
    case Record(check, metric, violated) => w.(budgets := RefRecord(w.budgets, check, metric, violated))
    case Reconcile(configs) =>
      w.(rings := RefReconcileRings(w.rings, configs), budgets := RefReconcileBudgets(w.budgets, configs))
    case SaveRings(id) => w.(saves := w.saves[id := ReadRings(w.rings)])
    case SaveBudgets(id) =>
      if id in w.saves && w.saves[id].ReadRings?
      then w.(saves := w.saves[id := ReadBoth(Image(w.saves[id].rings, w.budgets))])
      else w
    case SaveCommit(id) =>
      if id in w.saves && w.saves[id].ReadBoth?
      then w.(saves := w.saves - {id}, disk := w.disk + [w.saves[id].image])
      else w
    case Restart(image) =>
      if image < |w.disk|
      then RefWorld(w.disk[image].rings, w.disk[image].budgets, map[], w.disk)
      else RefWorld(RefRings(map[], []), map[], map[], w.disk)
  }

  // ----- What a ring is, in terms of its full history -----

  function Entries(h: seq<Result>): (es: seq<Entry>)
    ensures |es| == |h|
  {
    seq(|h|, i requires 0 <= i < |h| => ToEntry(h[i]))
  }

  function Failures(h: seq<Result>): (fs: seq<bool>)
    ensures |fs| == |h|
    ensures forall i :: 0 <= i < |h| ==> fs[i] == h[i].RealFailure()
  {
    seq(|h|, i requires 0 <= i < |h| => h[i].RealFailure())
  }

  /** The first non-zero timestamp, or the zero time when there is none. */
  function FirstTimestamp(h: seq<Result>): int {
    if h == [] then ZERO_TIME
    else if h[0].timestamp != ZERO_TIME then h[0].timestamp
    else FirstTimestamp(h[1..])
  }

  /** The results of the trailing run of real failures. */
  function FailureRun(h: seq<Result>): seq<Result> {
    h[|h| - TrailingTrue(Failures(h))..]
  }

  function LatestGroup(h: seq<Result>): string {
    if h == [] then "" else if h[|h| - 1].group != "" then h[|h| - 1].group else LatestGroup(h[..|h| - 1])
  }

  function LatestTarget(h: seq<Result>): string {
    if h == [] then "" else if h[|h| - 1].target != "" then h[|h| - 1].target else LatestTarget(h[..|h| - 1])
  }

  ghost predicate RingTracks(ring: RingState, h: seq<Result>) {
    && h != []
    && ring.name == h[0].name
    && ring.typ == h[0].typ
    && ring.group == LatestGroup(h)
    && ring.target == LatestTarget(h)
    && Holds(ring.buf, Entries(h))
    && ring.downSince == FirstTimestamp(FailureRun(h))
  }

  ghost predicate KeyedBy(h: seq<Result>, key: string) {
    forall i :: 0 <= i < |h| ==> Keys.CheckKey(h[i].typ, h[i].name) == key
  }

  ghost predicate KeyTracks(s: Rings, ref: RefRings, k: string) {
    && k in s.checks
    && k in ref.hist
    && RingTracks(s.checks[k], ref.hist[k])
    && KeyedBy(ref.hist[k], k)
  }

  ghost predicate RingsTrack(s: Rings, ref: RefRings) {
    && s.Valid()
    && s.order == ref.order
    && s.checks.Keys == ref.hist.Keys
    && (forall k :: k in s.checks ==> KeyTracks(s, ref, k))
  }

  ghost predicate BudgetTracks(bs: BudgetState, vs: seq<bool>) {
    && vs != []
    && bs.streak == TrailingTrue(vs)
    && bs.violated == vs[|vs| - 1]
  }

  ghost predicate BudgetsTrack(b: Budgets, ref: RefBudgets) {
    && b.Keys == ref.Keys
    && forall k :: k in b ==> BudgetTracks(b[k], ref[k])
  }

  /** A persisted list of rings tracks a reference when loading it does. */
  ghost predicate ImageTracks(p: PersistedRings, ref: RefRings) {
    RingsTrack(LoadRings(p), ref)
  }

  ghost predicate PendingTracks(p: Pending<ValidImage, Budgets>, ref: Pending<RefRings, RefBudgets>) {
    match p
    case ReadRings(rings) => ref.ReadRings? && ImageTracks(rings, ref.rings)
    case ReadBoth(image) =>
      ref.ReadBoth? && ImageTracks(image.rings, ref.image.rings) && BudgetsTrack(image.budgets, ref.image.budgets)
  }

  ghost predicate SavedTracks(
    saves: map<nat, Pending<ValidImage, Budgets>>, refSaves: map<nat, Pending<RefRings, RefBudgets>>,
    disk: seq<Image<ValidImage, Budgets>>, refDisk: seq<Image<RefRings, RefBudgets>>)
  {
    && saves.Keys == refSaves.Keys
    && (forall id :: id in saves ==> PendingTracks(saves[id], refSaves[id]))
    && |disk| == |refDisk|
    && (forall i :: 0 <= i < |disk| ==>
          ImageTracks(disk[i].rings, refDisk[i].rings) && BudgetsTrack(disk[i].budgets, refDisk[i].budgets))
  }

  ghost predicate Tracks(w: World, ref: RefWorld) {
    && RingsTrack(w.rings, ref.rings)
    && BudgetsTrack(w.budgets, ref.budgets)
    && SavedTracks(w.saves, ref.saves, w.disk, ref.disk)
  }

  // ----- One ring, one push -----

  lemma {:induction false} FirstTimestampSnoc(h: seq<Result>, r: Result)
    ensures FirstTimestamp(h + [r]) ==
              if FirstTimestamp(h) != ZERO_TIME then FirstTimestamp(h) else r.timestamp
  {
    if h == [] {
      assert h + [r] == [r];
    } else {
      assert (h + [r])[1..] == h[1..] + [r];
      FirstTimestampSnoc(h[1..], r);
    }
  }

  lemma FailureRunSnoc(h: seq<Result>, r: Result)
    ensures FailureRun(h + [r]) == if r.RealFailure() then FailureRun(h) + [r] else []
  {
    assert Failures(h + [r]) == Failures(h) + [r.RealFailure()];
    TrailingTrueSnoc(Failures(h), r.RealFailure());
    assert h + [r] == h[..|h| - TrailingTrue(Failures(h))] + (FailureRun(h) + [r]);
  }

  lemma TrackDownStep(h: seq<Result>, r: Result)
    ensures TrackDown(FirstTimestamp(FailureRun(h)), r) == FirstTimestamp(FailureRun(h + [r]))
  {
    FailureRunSnoc(h, r);
    FirstTimestampSnoc(FailureRun(h), r);
  }

  lemma PushRingTracks(ring: RingState, h: seq<Result>, r: Result)
    requires RingTracks(ring, h)
    ensures RingTracks(PushRing(ring, r), h + [r])
  {
    TrackDownStep(h, r);
    assert Entries(h + [r]) == Entries(h) + [ToEntry(r)];
    PushHolds(ring.buf, Entries(h), ToEntry(r));
    assert (h + [r])[..|h|] == h;
  }

  lemma FirstPushTracks(r: Result)
    ensures RingTracks(PushRing(NewRing(r), r), [r])
  {
    var h: seq<Result> := [];
    TrackDownStep(h, r);
    assert h + [r] == [r];
    assert Entries([r]) == [ToEntry(r)];
    assert Failures(h) == [];
    PushHolds(EMPTY, [], ToEntry(r));
    assert [] + [ToEntry(r)] == [ToEntry(r)];
    assert [r][..0] == [];
  }

  lemma OtherKeyTracks(s: Rings, ref: RefRings, key: string, r: Result, k: string)
    requires s.Valid() && KeyTracks(s, ref, k) && k != key
    ensures KeyTracks(PushAt(s, key, r), RefPushAt(ref, key, r), k)
  {
  }

  lemma SameKeyTracks(s: Rings, ref: RefRings, key: string, r: Result)
    requires s.Valid() && KeyTracks(s, ref, key) && key == Keys.CheckKey(r.typ, r.name)
    ensures KeyTracks(PushAt(s, key, r), RefPushAt(ref, key, r), key)
  {
    PushRingTracks(s.checks[key], ref.hist[key], r);
  }

  lemma NewKeyTracks(s: Rings, ref: RefRings, key: string, r: Result)
    requires s.Valid() && key !in s.checks && key !in ref.hist && key == Keys.CheckKey(r.typ, r.name)
    ensures KeyTracks(PushAt(s, key, r), RefPushAt(ref, key, r), key)
  {
    FirstPushTracks(r);
  }

  lemma PushKeysAgree(s: Rings, ref: RefRings, key: string, r: Result)
    requires s.Valid() && s.checks.Keys == ref.hist.Keys && s.order == ref.order
    ensures PushAt(s, key, r).order == RefPushAt(ref, key, r).order
    ensures PushAt(s, key, r).checks.Keys == RefPushAt(ref, key, r).hist.Keys == s.checks.Keys + {key}
  {
  }

  lemma PushRingsTrack(s: Rings, ref: RefRings, r: Result)
    requires RingsTrack(s, ref)
    ensures RingsTrack(PushRings(s, r), RefPush(ref, r))
  {
    var key := Keys.CheckKey(r.typ, r.name);
    PushAtValid(s, key, r);
    PushKeysAgree(s, ref, key, r);
    var s', ref' := PushAt(s, key, r), RefPushAt(ref, key, r);
    forall k | k in s'.checks
      ensures KeyTracks(s', ref', k)
    {
      if k != key {
        OtherKeyTracks(s, ref, key, r, k);
      } else if key in s.checks {
        SameKeyTracks(s, ref, key, r);
      } else {
        NewKeyTracks(s, ref, key, r);
      }
    }
  }

  lemma ReconciledKeyTracks(s: Rings, ref: RefRings, configs: seq<CheckConfig>, k: string)
    requires RingsTrack(s, ref)
    ensures k in ReconcileRings(s, configs).checks ==>
              KeyTracks(ReconcileRings(s, configs), RefReconcileRings(ref, configs), k)
  {
    if k in ReconcileRings(s, configs).checks {
      assert KeyTracks(s, ref, k);
    }
  }

  lemma RefReconcileKeys(ref: RefRings, configs: seq<CheckConfig>)
    ensures RefReconcileRings(ref, configs).hist.Keys == ref.hist.Keys * ActiveKeys(configs)
  {
  }

  lemma ReconcileRingsTrack(s: Rings, ref: RefRings, configs: seq<CheckConfig>)
    requires RingsTrack(s, ref)
    ensures RingsTrack(ReconcileRings(s, configs), RefReconcileRings(ref, configs))
  {
    PrunedRingsValid(s, ActiveKeys(configs));
    RefReconcileKeys(ref, configs);
    var s', ref' := ReconcileRings(s, configs), RefReconcileRings(ref, configs);
    forall k | k in s'.checks
      ensures KeyTracks(s', ref', k)
    {
      ReconciledKeyTracks(s, ref, configs, k);
    }
  }

  lemma LoadedKeyTracks(s: Rings, ref: RefRings, k: string)
    requires RingsTrack(s, ref) && k in s.checks
    ensures KeyTracks(LoadRings(PersistRings(s)), ref, k)
  {
    assert KeyTracks(s, ref, k);
    ReloadHolds(s.checks[k].buf, Entries(ref.hist[k]));
    assert LoadRing(PersistRing(s.checks[k])).buf == s.checks[k].buf.Reload();
  }

  lemma LoadPersisted(s: Rings, ref: RefRings)
    requires RingsTrack(s, ref)
    ensures ImageTracks(PersistRings(s), ref)
  {
    LoadedKeys(s);
    var t := LoadRings(PersistRings(s));
    forall k | k in t.checks
      ensures KeyTracks(t, ref, k)
    {
      LoadedKeyTracks(s, ref, k);
    }
  }

  lemma RecordTracks(b: Budgets, ref: RefBudgets, check: string, metric: string, violated: bool)
    requires BudgetsTrack(b, ref)
    ensures BudgetsTrack(RecordBudget(b, check, metric, violated), RefRecord(ref, check, metric, violated))
  {
    var key := Keys.BudgetKey(check, metric);
    TrailingTrueSnoc(if key in ref then ref[key] else [], violated);
  }

  lemma ReconcileBudgetsTrack(b: Budgets, ref: RefBudgets, configs: seq<CheckConfig>)
    requires BudgetsTrack(b, ref)
    ensures BudgetsTrack(ReconcileBudgets(b, configs), RefReconcileBudgets(ref, configs))
  {
  }

  lemma LiveStepTracks(w: World, ref: RefWorld, op: Op)
    requires Tracks(w, ref)
    requires op.Push? || op.Record? || op.Reconcile?
    ensures Tracks(Step(w, op), RefStep(ref, op))
  {
    var w', ref' := Step(w, op), RefStep(ref, op);
    assert RingsTrack(w'.rings, ref'.rings) && BudgetsTrack(w'.budgets, ref'.budgets) by {
      match op
      case Push(r) => PushRingsTrack(w.rings, ref.rings, r);
      case Record(check, metric, violated) => RecordTracks(w.budgets, ref.budgets, check, metric, violated);
      case Reconcile(configs) =>
        ReconcileRingsTrack(w.rings, ref.rings, configs);
        ReconcileBudgetsTrack(w.budgets, ref.budgets, configs);
    }
    assert SavedTracks(w.saves, ref.saves, w.disk, ref.disk);
  }

  lemma PendingAdded(
    saves: map<nat, Pending<ValidImage, Budgets>>, refSaves: map<nat, Pending<RefRings, RefBudgets>>,
    disk: seq<Image<ValidImage, Budgets>>, refDisk: seq<Image<RefRings, RefBudgets>>,
    id: nat, p: Pending<ValidImage, Budgets>, ref: Pending<RefRings, RefBudgets>)
    requires SavedTracks(saves, refSaves, disk, refDisk) && PendingTracks(p, ref)
    ensures SavedTracks(saves[id := p], refSaves[id := ref], disk, refDisk)
  {
  }

  lemma Committed(
    saves: map<nat, Pending<ValidImage, Budgets>>, refSaves: map<nat, Pending<RefRings, RefBudgets>>,
    disk: seq<Image<ValidImage, Budgets>>, refDisk: seq<Image<RefRings, RefBudgets>>, id: nat)
    requires SavedTracks(saves, refSaves, disk, refDisk)
    requires id in saves && saves[id].ReadBoth?
    ensures refSaves[id].ReadBoth?
    ensures SavedTracks(saves - {id}, refSaves - {id}, disk + [saves[id].image], refDisk + [refSaves[id].image])
  {
    assert PendingTracks(saves[id], refSaves[id]);
  }

  lemma SaveStepTracks(w: World, ref: RefWorld, op: Op)
    requires Tracks(w, ref)
    requires op.SaveRings? || op.SaveBudgets? || op.SaveCommit?
    ensures Tracks(Step(w, op), RefStep(ref, op))
  {
    if op.SaveRings? {
      LoadPersisted(w.rings, ref.rings);
      PendingAdded(w.saves, ref.saves, w.disk, ref.disk, op.id, ReadRings(PersistRings(w.rings)), ReadRings(ref.rings));
    } else if op.id in w.saves {
      assert PendingTracks(w.saves[op.id], ref.saves[op.id]);
      if op.SaveBudgets? && w.saves[op.id].ReadRings? {
        PendingAdded(w.saves, ref.saves, w.disk, ref.disk, op.id,
                     ReadBoth(Image(w.saves[op.id].rings, w.budgets)),
                     ReadBoth(Image(ref.saves[op.id].rings, ref.budgets)));
      } else if op.SaveCommit? && w.saves[op.id].ReadBoth? {
        Committed(w.saves, ref.saves, w.disk, ref.disk, op.id);
      }
    }
  }

  lemma StepTracks(w: World, ref: RefWorld, op: Op)
    requires Tracks(w, ref)
    ensures Tracks(Step(w, op), RefStep(ref, op))
  {
    match op
    case Push(_) => LiveStepTracks(w, ref, op);
    case Record(_, _, _) => LiveStepTracks(w, ref, op);
    case Reconcile(_) => LiveStepTracks(w, ref, op);
    case SaveRings(_) => SaveStepTracks(w, ref, op);
    case SaveBudgets(_) => SaveStepTracks(w, ref, op);
    case SaveCommit(_) => SaveStepTracks(w, ref, op);
    case Restart(image) =>
      if image < |w.disk| {
        assert ImageTracks(w.disk[image].rings, ref.disk[image].rings);
      }
  }

  // ----- Runs -----

  function Run(ops: seq<Op>): World {
    if ops == [] then START else Step(Run(ops[..|ops| - 1]), ops[|ops| - 1])
  }

  function RefRun(ops: seq<Op>): RefWorld {
    if ops == [] then REF_START else RefStep(RefRun(ops[..|ops| - 1]), ops[|ops| - 1])
  }

  /** After every run the store is the stated function of the full history. */
  lemma {:induction false} RunTracks(ops: seq<Op>)
    ensures Tracks(Run(ops), RefRun(ops))
  {
    if ops == [] {
    } else {
      RunTracks(ops[..|ops| - 1]);
      StepTracks(Run(ops[..|ops| - 1]), RefRun(ops[..|ops| - 1]), ops[|ops| - 1]);
    }
  }
}
