/**
 The store's three locks and its snapshot cache under any number of threads.

 Each operation is a straight-line program of lock operations and atomic accesses; threads run such
 programs in any interleaving. The ring state and the budget state are arbitrary values and writes
 may set them to anything, so the results hold for whatever the mutations do.
 */
module StoreLocks {
  import opened Wrappers
  import StoreModel

  // ----- Programs -----

  datatype LockId = Mu | BudgetMu | SnapMu

  /** The order in which nested locks are taken. */
  function Level(l: LockId): nat {
    match l
    case Mu => 0
    case BudgetMu => 1
    case SnapMu => 2
  }

  datatype Mode = Shared | Exclusive

  datatype Instr =
    | Acquire(l: LockId, m: Mode)
    | Release(l: LockId, m: Mode)
    | WriteRings
    | WriteBudgets
    | PruneRings     // Reconcile's first half; nobody can look until its second half is done
    | PruneBudgets   // Reconcile's second half
    | ReadRings
    | ReadBudgets
    | SaveBudgets    // reads the budgets and completes the image to be written
    | ClearCache
    | CheckCache
    | StoreCache

  datatype Op = Push | RecordBudgetCheck | Reconcile | Save | Snapshot

  function Program(op: Op): seq<Instr> {
    match op
    case Push =>
      [Acquire(Mu, Exclusive), WriteRings,
       Acquire(SnapMu, Exclusive), ClearCache, Release(SnapMu, Exclusive), Release(Mu, Exclusive)]
    case RecordBudgetCheck =>
      [Acquire(BudgetMu, Exclusive), WriteBudgets,
       Acquire(SnapMu, Exclusive), ClearCache, Release(SnapMu, Exclusive), Release(BudgetMu, Exclusive)]
    case Reconcile =>
      [Acquire(Mu, Exclusive), PruneRings,
       Acquire(BudgetMu, Exclusive), PruneBudgets, Release(BudgetMu, Exclusive), Release(Mu, Exclusive)]
    case Save =>
      [Acquire(Mu, Shared), ReadRings, Release(Mu, Shared),
       Acquire(BudgetMu, Shared), SaveBudgets, Release(BudgetMu, Shared)]
    case Snapshot =>
      [Acquire(SnapMu, Exclusive), CheckCache, Release(SnapMu, Exclusive),
       Acquire(Mu, Shared), ReadRings, Acquire(BudgetMu, Shared), ReadBudgets,
       Release(BudgetMu, Shared), Release(Mu, Shared),
       Acquire(SnapMu, Exclusive), StoreCache, Release(SnapMu, Exclusive)]
  }

  /** What a thread is doing; HitCache is Snapshot once the cache has answered. */
  datatype Task = Nothing | Doing(op: Op) | HitCache {
    function Length(): nat {
      match this
      case Nothing => 0
      case Doing(op) => if op == Snapshot then 12 else 6
      case HitCache => 3
    }

    function Code(): (code: seq<Instr>)
      ensures |code| == Length()
    {
      match this
      case Nothing => []
      case Doing(op) => Program(op)
      case HitCache => [Acquire(SnapMu, Exclusive), CheckCache, Release(SnapMu, Exclusive)]
    }
  }

  type Hold = (LockId, Mode)

  /** The locks held before the instruction at pc. */
  function Held(p: seq<Instr>, pc: nat): set<Hold>
    requires pc <= |p|
  {
    if pc == 0 then {}
    else
      var before := Held(p, pc - 1);
      match p[pc - 1]
      case Acquire(l, m) => before + {(l, m)}
      case Release(l, m) => before - {(l, m)}
      case _ => before
  }

  // ----- States -----

  /** `ringsAt` and `instant` are positions in the trace: of the rings read, and of the budget lock. */
  datatype Locals<R, B> = Locals(rings: Option<R>, budgets: Option<B>, ringsAt: nat, instant: nat)

  datatype Thread<R, B> = Thread(task: Task, pc: nat, locals: Locals<R, B>) {
    predicate Idle() { pc >= task.Length() }

    function Next(): Instr
      requires !Idle()
    {
      task.Code()[pc]
    }
  }

  datatype View<R, B> = View(rings: R, budgets: B)

  datatype CacheEntry<R, B> = CacheEntry(view: View<R, B>, instant: nat, storedAt: int)

  /** A snapshot handed to a caller; `storedAt` is present when it came from the cache. */
  datatype Served<R, B> = Served(view: View<R, B>, instant: nat, at: int, storedAt: Option<int>)

  datatype Image<R, B> = Image(rings: R, budgets: B, ringsAt: nat, budgetsAt: nat)

  /** `trace` lists the combined ring and budget states the store has gone through. */
  datatype State<R, B> = State(
    threads: seq<Thread<R, B>>, rings: R, budgets: B, cache: Option<CacheEntry<R, B>>, now: int,
    trace: seq<View<R, B>>, served: seq<Served<R, B>>, images: seq<Image<R, B>>)

  function Initial<R, B>(n: nat, r: R, b: B): State<R, B> {
    State(seq(n, _ => Thread(Nothing, 0, Locals(None, None, 0, 0))), r, b, None, 0, [View(r, b)], [], [])
  }

  ghost predicate Holds<R, B>(th: Thread<R, B>, l: LockId, m: Mode) {
    th.pc <= th.task.Length() && (l, m) in Held(th.task.Code(), th.pc)
  }

  /** No other thread holds the lock in a conflicting mode. */
  ghost predicate Free<R, B>(s: State<R, B>, i: nat, l: LockId, m: Mode) {
    forall j :: 0 <= j < |s.threads| && j != i ==>
      && !Holds(s.threads[j], l, Exclusive)
      && (m == Exclusive ==> !Holds(s.threads[j], l, Shared))
  }

  function Current<R, B>(s: State<R, B>): View<R, B>
    requires s.trace != []
  {
    s.trace[|s.trace| - 1]
  }

  // ----- Steps -----

  datatype Action<R, B> =
    | Begin(i: nat, op: Op)
    | Exec(i: nat, r: R, b: B)
    | Tick(d: nat)

  predicate CacheValid<R, B>(s: State<R, B>) {
    s.cache.Some? && s.now - s.cache.value.storedAt < StoreModel.SNAPSHOT_TTL
  }

  /** The instruction's effect on everything but the program counter; r and b are what a write stores. */
  function Perform<R, B>(s: State<R, B>, i: nat, instr: Instr, r: R, b: B): State<R, B>
    requires i < |s.threads| && s.trace != []
  {
    var th := s.threads[i];
    var loc := th.locals;
    var last := |s.trace| - 1;
    match instr
    case Acquire(l, m) =>
      if l == BudgetMu && m == Shared then s.(threads := s.threads[i := th.(locals := loc.(instant := last))]) else s
    case Release(_, _) => s
    case WriteRings => s.(rings := r, trace := s.trace + [View(r, Current(s).budgets)])
    case WriteBudgets => s.(budgets := b, trace := s.trace + [View(Current(s).rings, b)])
    case PruneRings => s.(rings := r)
    case PruneBudgets => s.(budgets := b, trace := s.trace + [View(s.rings, b)])
    case ReadRings => s.(threads := s.threads[i := th.(locals := loc.(rings := Some(s.rings), ringsAt := last))])
    case ReadBudgets => s.(threads := s.threads[i := th.(locals := loc.(budgets := Some(s.budgets)))])
    case SaveBudgets =>
      if loc.rings.None? then s
      else s.(images := s.images + [Image(loc.rings.value, s.budgets, loc.ringsAt, last)])
    case ClearCache => s.(cache := None)
    case CheckCache =>
      if CacheValid(s)
      then
        var e := s.cache.value;
        s.(threads := s.threads[i := th.(task := HitCache)],
           served := s.served + [Served(e.view, e.instant, s.now, Some(e.storedAt))])
      else s
    case StoreCache =>
      if loc.rings.None? || loc.budgets.None? then s
      else
        var v := View(loc.rings.value, loc.budgets.value);
        s.(cache := Some(CacheEntry(v, loc.instant, s.now)),
           served := s.served + [Served(v, loc.instant, s.now, None)])
  }

  function Effect<R, B>(s: State<R, B>, i: nat, r: R, b: B): State<R, B>
    requires i < |s.threads| && !s.threads[i].Idle() && s.trace != []
  {
    Perform(s, i, s.threads[i].Next(), r, b)
  }

  function Advance<R, B>(s: State<R, B>, i: nat): State<R, B>
    requires i < |s.threads|
  {
    s.(threads := s.threads[i := s.threads[i].(pc := s.threads[i].pc + 1)])
  }

  ghost predicate Enabled<R, B>(s: State<R, B>, i: nat) {
    && i < |s.threads|
    && !s.threads[i].Idle()
    && (s.threads[i].Next().Acquire? ==> Free(s, i, s.threads[i].Next().l, s.threads[i].Next().m))
  }

  /** An action that is not enabled leaves the state alone. */
  ghost function Step<R, B>(s: State<R, B>, a: Action<R, B>): (t: State<R, B>)
    requires s.trace != []
    ensures t.trace != []
  {
    match a
    case Tick(d) => s.(now := s.now + d)
    case Begin(i, op) =>
      if i < |s.threads| && s.threads[i].Idle()
      then s.(threads := s.threads[i := Thread(Doing(op), 0, Locals(None, None, 0, 0))])
      else s
    case Exec(i, r, b) => if Enabled(s, i) then Advance(Effect(s, i, r, b), i) else s
  }

  // ----- Lock discipline of the programs -----

  /** Every acquisition is above everything held, every release gives back a held lock, and nothing is kept. */
  ghost predicate Disciplined(p: seq<Instr>) {
    && (forall pc, h :: 0 <= pc < |p| && p[pc].Acquire? && h in Held(p, pc) ==> Level(h.0) < Level(p[pc].l))
    && (forall pc :: 0 <= pc < |p| && p[pc].Release? ==> (p[pc].l, p[pc].m) in Held(p, pc))
    && Held(p, |p|) == {}
  }

  lemma MutatorsAreDisciplined(op: Op)
    requires op.Push? || op.RecordBudgetCheck? || op.Reconcile?
    ensures
      var p := Program(op);
      var outer := p[0].l;
      && Held(p, 0) == {} && Held(p, 1) == Held(p, 2) == {(outer, Exclusive)}
      && Held(p, 3) == Held(p, 4) == {(outer, Exclusive), (p[2].l, Exclusive)}
      && Held(p, 5) == {(outer, Exclusive)} && Held(p, 6) == {}
    ensures Disciplined(Program(op))
  {
    var p := Program(op);
    assert Held(p, 1) == {(p[0].l, Exclusive)};
    assert Held(p, 3) == Held(p, 2) + {(p[2].l, Exclusive)};
    assert Held(p, 5) == Held(p, 4) - {(p[2].l, Exclusive)};
    assert Held(p, 6) == Held(p, 5) - {(p[0].l, Exclusive)};
  }

  lemma SaveIsDisciplined()
    ensures
      var p := Program(Save);
      && Held(p, 0) == {} && Held(p, 1) == Held(p, 2) == {(Mu, Shared)} && Held(p, 3) == {}
      && Held(p, 4) == Held(p, 5) == {(BudgetMu, Shared)} && Held(p, 6) == {}
    ensures Disciplined(Program(Save))
  {
    var p := Program(Save);
    assert Held(p, 1) == {(Mu, Shared)};
    assert Held(p, 3) == Held(p, 2) - {(Mu, Shared)};
    assert Held(p, 4) == Held(p, 3) + {(BudgetMu, Shared)};
    assert Held(p, 6) == Held(p, 5) - {(BudgetMu, Shared)};
  }

  lemma SnapshotIsDisciplined()
    ensures
      var p := Program(Snapshot);
      && Held(p, 0) == {} && Held(p, 1) == Held(p, 2) == {(SnapMu, Exclusive)} && Held(p, 3) == {}
      && Held(p, 4) == Held(p, 5) == {(Mu, Shared)}
      && Held(p, 6) == Held(p, 7) == {(Mu, Shared), (BudgetMu, Shared)}
      && Held(p, 8) == {(Mu, Shared)} && Held(p, 9) == {}
      && Held(p, 10) == Held(p, 11) == {(SnapMu, Exclusive)} && Held(p, 12) == {}
    ensures Disciplined(Program(Snapshot))
  {
    var p := Program(Snapshot);
    assert Held(p, 1) == {(SnapMu, Exclusive)};
    assert Held(p, 3) == Held(p, 2) - {(SnapMu, Exclusive)};
    assert Held(p, 4) == Held(p, 3) + {(Mu, Shared)};
    assert Held(p, 6) == Held(p, 5) + {(BudgetMu, Shared)};
    assert Held(p, 8) == Held(p, 7) - {(BudgetMu, Shared)};
    assert Held(p, 9) == Held(p, 8) - {(Mu, Shared)};
    assert Held(p, 10) == Held(p, 9) + {(SnapMu, Exclusive)};
    assert Held(p, 12) == Held(p, 11) - {(SnapMu, Exclusive)};
  }

  lemma HitIsDisciplined()
    ensures
      var p := HitCache.Code();
      Held(p, 0) == {} && Held(p, 1) == Held(p, 2) == {(SnapMu, Exclusive)} && Held(p, 3) == {}
    ensures Disciplined(HitCache.Code())
  {
    var p := HitCache.Code();
    assert Held(p, 1) == {(SnapMu, Exclusive)};
    assert Held(p, 3) == Held(p, 2) - {(SnapMu, Exclusive)};
  }

  lemma TasksAreDisciplined(task: Task)
    ensures Disciplined(task.Code())
  {
    match task
    case Nothing =>
    case HitCache => HitIsDisciplined();
    case Doing(op) =>
      match op
      case Save => SaveIsDisciplined();
      case Snapshot => SnapshotIsDisciplined();
      case _ => MutatorsAreDisciplined(op);
  }

  // ----- No deadlock -----

  ghost predicate WaitsFor<R, B>(th: Thread<R, B>, l: LockId, m: Mode) {
    !th.Idle() && th.Next() == Acquire(l, m)
  }

  /**
   The thread's next instruction can go ahead even under the strictest reader-writer lock, one that
   keeps new readers out while any writer waits. Go's RWMutex lies between this and `Enabled`.
   */
  ghost predicate CanRun<R, B>(s: State<R, B>, i: nat) {
    && Enabled(s, i)
    && (s.threads[i].Next().Acquire? && s.threads[i].Next().m == Shared ==>
          forall j :: 0 <= j < |s.threads| && j != i ==>
            !WaitsFor(s.threads[j], s.threads[i].Next().l, Exclusive))
  }

  function Urgency<R, B>(th: Thread<R, B>): nat
    requires !th.Idle()
  {
    if !th.Next().Acquire? then 0
    else 2 * (3 - Level(th.Next().l)) + if th.Next().m == Shared then 1 else 0
  }

  lemma HolderIsAhead<R, B>(th: Thread<R, B>, l: LockId, m: Mode)
    requires Holds(th, l, m)
    ensures !th.Idle()
    ensures th.Next().Acquire? ==> Level(l) < Level(th.Next().l)
  {
    TasksAreDisciplined(th.task);
  }

  /** Following who blocks whom climbs the lock order, so it ends at a thread that can run. */
  lemma {:induction false} FindRunnable<R, B>(s: State<R, B>, i: nat) returns (k: nat)
    requires i < |s.threads| && !s.threads[i].Idle()
    ensures CanRun(s, k)
    decreases Urgency(s.threads[i])
  {
    if CanRun(s, i) {
      return i;
    }
    var l, m := s.threads[i].Next().l, s.threads[i].Next().m;
    if Free(s, i, l, m) {
      var j :| 0 <= j < |s.threads| && j != i && WaitsFor(s.threads[j], l, Exclusive);
      k := FindRunnable(s, j);
    } else {
      var j :| 0 <= j < |s.threads| && j != i && (Holds(s.threads[j], l, Exclusive) || Holds(s.threads[j], l, Shared));
      HolderIsAhead(s.threads[j], l, if Holds(s.threads[j], l, Exclusive) then Exclusive else Shared);
      k := FindRunnable(s, j);
    }
  }

  /**
   However many threads there are and wherever they stand in their operations: unless all of them
   have finished, one of them can take its next step.
   */
  lemma NoDeadlock<R, B>(s: State<R, B>)
    requires exists i :: 0 <= i < |s.threads| && !s.threads[i].Idle()
    ensures exists k :: CanRun(s, k)
  {
    var i :| 0 <= i < |s.threads| && !s.threads[i].Idle();
    var k := FindRunnable(s, i);
  }

  // ----- What every step keeps -----

  /** If a holds the lock in exclusive mode then b does not hold it. */
  ghost predicate Compatible<R, B>(a: Thread<R, B>, b: Thread<R, B>, l: LockId) {
    Holds(a, l, Exclusive) ==> !Holds(b, l, Exclusive) && !Holds(b, l, Shared)
  }

  ghost predicate Exclusion<R, B>(s: State<R, B>) {
    forall i, j, l :: 0 <= i < |s.threads| && 0 <= j < |s.threads| && i != j ==>
      Compatible(s.threads[i], s.threads[j], l)
  }

  /** Reconcile has changed the rings and not yet the budgets. */
  predicate MidReconcile<R, B>(th: Thread<R, B>) {
    th.task == Doing(Reconcile) && 2 <= th.pc <= 3
  }

  /** The store's fields are the last view of the trace, except inside Reconcile. */
  ghost predicate Visible<R, B>(s: State<R, B>)
    requires s.trace != []
  {
    && s.budgets == Current(s).budgets
    && (s.rings == Current(s).rings || exists i :: 0 <= i < |s.threads| && MidReconcile(s.threads[i]))
  }

  ghost predicate InTrace<R, B>(trace: seq<View<R, B>>, instant: nat, v: View<R, B>) {
    instant < |trace| && trace[instant] == v
  }

  /** A snapshot under computation whose instant is fixed and which is not yet in the cache. */
  predicate Captured<R, B>(th: Thread<R, B>) {
    th.task == Doing(Snapshot) && 6 <= th.pc <= 10
  }

  /** What a Snapshot in progress has read is the view at its instant. */
  ghost predicate SnapshotLocals<R, B>(trace: seq<View<R, B>>, pc: nat, loc: Locals<R, B>)
    requires trace != []
  {
    var last := |trace| - 1;
    && (5 <= pc <= 6 ==> loc.rings == Some(trace[last].rings))
    && (pc == 6 ==> loc.instant == last)
    && (7 <= pc <= 10 ==>
          loc.rings.Some? && loc.budgets.Some? &&
          InTrace(trace, loc.instant, View(loc.rings.value, loc.budgets.value)))
  }

  ghost predicate SaveLocals<R, B>(trace: seq<View<R, B>>, pc: nat, loc: Locals<R, B>) {
    2 <= pc <= 4 ==> loc.ringsAt < |trace| && loc.rings == Some(trace[loc.ringsAt].rings)
  }

  ghost predicate LocalInv<R, B>(s: State<R, B>, th: Thread<R, B>)
    requires s.trace != []
  {
    && th.pc <= th.task.Length()
    && (th.task == HitCache ==> th.pc >= 2)
    && (th.task == Doing(Snapshot) ==> SnapshotLocals(s.trace, th.pc, th.locals))
    && (th.task == Doing(Save) ==> SaveLocals(s.trace, th.pc, th.locals))
  }

  ghost predicate ServedInv<R, B>(s: State<R, B>) {
    && (s.cache.Some? ==> InTrace(s.trace, s.cache.value.instant, s.cache.value.view))
    && (forall k :: 0 <= k < |s.served| ==> InTrace(s.trace, s.served[k].instant, s.served[k].view))
    && (forall k :: 0 <= k < |s.served| && s.served[k].storedAt.Some? ==>
          s.served[k].at - s.served[k].storedAt.value < StoreModel.SNAPSHOT_TTL)
  }

  ghost predicate ImageOk<R, B>(trace: seq<View<R, B>>, image: Image<R, B>) {
    && image.ringsAt <= image.budgetsAt < |trace|
    && image.rings == trace[image.ringsAt].rings
    && image.budgets == trace[image.budgetsAt].budgets
  }

  ghost predicate ImagesInv<R, B>(s: State<R, B>) {
    forall k :: 0 <= k < |s.images| ==> ImageOk(s.trace, s.images[k])
  }

  ghost predicate LogsInv<R, B>(s: State<R, B>) {
    ServedInv(s) && ImagesInv(s)
  }

  ghost predicate Inv<R, B>(s: State<R, B>) {
    && s.trace != []
    && Exclusion(s)
    && Visible(s)
    && (forall i :: 0 <= i < |s.threads| ==> LocalInv(s, s.threads[i]))
    && LogsInv(s)
  }

  /** The new thread holds what the old one held, plus at most the lock it has just been granted. */
  lemma HeldByStep<R, B>(s: State<R, B>, i: nat, r: R, b: B, l: LockId, m: Mode)
    requires s.trace != [] && i < |s.threads| && !s.threads[i].Idle() && LocalInv(s, s.threads[i])
    requires Holds(Advance(Effect(s, i, r, b), i).threads[i], l, m)
    ensures Holds(s.threads[i], l, m) || s.threads[i].Next() == Acquire(l, m)
  {
    var th, th' := s.threads[i], Advance(Effect(s, i, r, b), i).threads[i];
    if th'.task != th.task {
      assert th.pc == 1 && th.task == Doing(Snapshot);
      SnapshotIsDisciplined();
      HitIsDisciplined();
    } else {
      var before := Held(th.task.Code(), th.pc);
      assert Held(th'.task.Code(), th.pc + 1) <=
             before + match th.Next() case Acquire(a, n) => {(a, n)} case _ => {};
    }
  }

  lemma OthersStay<R, B>(s: State<R, B>, i: nat, r: R, b: B)
    requires s.trace != [] && i < |s.threads| && !s.threads[i].Idle()
    ensures
      var t := Advance(Effect(s, i, r, b), i);
      |t.threads| == |s.threads| && forall j :: 0 <= j < |s.threads| && j != i ==> t.threads[j] == s.threads[j]
  {
  }

  lemma ExclusionUpdate<R, B>(s: State<R, B>, t: State<R, B>, i: nat)
    requires Exclusion(s) && i < |s.threads| == |t.threads|
    requires forall j :: 0 <= j < |s.threads| && j != i ==> t.threads[j] == s.threads[j]
    requires forall l, m :: Holds(t.threads[i], l, m) ==> Holds(s.threads[i], l, m) || Free(s, i, l, m)
    ensures Exclusion(t)
  {
    forall j, l | 0 <= j < |s.threads| && j != i
      ensures Compatible(t.threads[i], t.threads[j], l) && Compatible(t.threads[j], t.threads[i], l)
    {
      assert Compatible(s.threads[i], s.threads[j], l) && Compatible(s.threads[j], s.threads[i], l);
    }
    forall x, y, l | 0 <= x < |t.threads| && 0 <= y < |t.threads| && x != y
      ensures Compatible(t.threads[x], t.threads[y], l)
    {
      assert x != i && y != i ==> Compatible(s.threads[x], s.threads[y], l);
    }
  }

  lemma ExclusionKept<R, B>(s: State<R, B>, i: nat, r: R, b: B)
    requires Inv(s) && Enabled(s, i)
    ensures Exclusion(Advance(Effect(s, i, r, b), i))
  {
    var t := Advance(Effect(s, i, r, b), i);
    OthersStay(s, i, r, b);
    forall l, m | Holds(t.threads[i], l, m)
      ensures Holds(s.threads[i], l, m) || Free(s, i, l, m)
    {
      HeldByStep(s, i, r, b, l, m);
    }
    ExclusionUpdate(s, t, i);
  }

  lemma SnapshotLocksAt<R, B>(th: Thread<R, B>)
    requires th.task == Doing(Snapshot)
    ensures 4 <= th.pc <= 8 ==> Holds(th, Mu, Shared)
    ensures 6 <= th.pc <= 7 ==> Holds(th, BudgetMu, Shared)
  {
    SnapshotIsDisciplined();
  }

  lemma MutatorLocksAt<R, B>(th: Thread<R, B>)
    requires th.task == Doing(Push) || th.task == Doing(RecordBudgetCheck) || th.task == Doing(Reconcile)
    ensures th.task == Doing(Push) && 1 <= th.pc <= 2 ==> Holds(th, Mu, Exclusive)
    ensures th.task == Doing(Reconcile) && 1 <= th.pc <= 4 ==> Holds(th, Mu, Exclusive)
    ensures th.task == Doing(RecordBudgetCheck) && 1 <= th.pc <= 2 ==> Holds(th, BudgetMu, Exclusive)
  {
    MutatorsAreDisciplined(th.task.op);
  }

  lemma LocksAt<R, B>(th: Thread<R, B>)
    ensures th.task == Doing(Snapshot) && 4 <= th.pc <= 8 ==> Holds(th, Mu, Shared)
    ensures th.task == Doing(Snapshot) && 6 <= th.pc <= 7 ==> Holds(th, BudgetMu, Shared)
    ensures th.task == Doing(Save) && 1 <= th.pc <= 2 ==> Holds(th, Mu, Shared)
    ensures th.task == Doing(Push) && 1 <= th.pc <= 2 ==> Holds(th, Mu, Exclusive)
    ensures th.task == Doing(Reconcile) && 1 <= th.pc <= 4 ==> Holds(th, Mu, Exclusive)
    ensures th.task == Doing(RecordBudgetCheck) && 1 <= th.pc <= 2 ==> Holds(th, BudgetMu, Exclusive)
  {
    if th.task == Doing(Snapshot) {
      SnapshotLocksAt(th);
    } else if th.task == Doing(Save) {
      SaveIsDisciplined();
    } else if th.task == Doing(Push) || th.task == Doing(RecordBudgetCheck) || th.task == Doing(Reconcile) {
      MutatorLocksAt(th);
    }
  }

  lemma NoWriterBesideReader<R, B>(s: State<R, B>, i: nat, j: nat, l: LockId)
    requires Exclusion(s) && i < |s.threads| && j < |s.threads| && i != j
    requires Holds(s.threads[i], l, Exclusive)
    ensures !Holds(s.threads[j], l, Shared) && !Holds(s.threads[j], l, Exclusive)
  {
    assert Compatible(s.threads[i], s.threads[j], l);
  }

  /** Reconcile holds the ring lock in exclusive mode only. */
  lemma HolderOfOne<R, B>(th: Thread<R, B>)
    requires MidReconcile(th)
    ensures Holds(th, Mu, Exclusive) && !Holds(th, Mu, Shared)
  {
    MutatorsAreDisciplined(Reconcile);
  }

  /** A reader of the rings sees the last view. */
  lemma ReaderSeesCurrent<R, B>(s: State<R, B>, i: nat)
    requires Exclusion(s) && s.trace != [] && Visible(s) && i < |s.threads| && Holds(s.threads[i], Mu, Shared)
    ensures s.rings == Current(s).rings
  {
    if s.rings != Current(s).rings {
      var j :| 0 <= j < |s.threads| && MidReconcile(s.threads[j]);
      HolderOfOne(s.threads[j]);
      if j != i {
        NoWriterBesideReader(s, j, i, Mu);
      }
    }
  }

  /** Which instruction stands where: the accesses occur at these places and no others. */
  predicate Fits(task: Task, pc: nat, instr: Instr) {
    && (instr == WriteRings <==> task == Doing(Push) && pc == 1)
    && (instr == WriteBudgets <==> task == Doing(RecordBudgetCheck) && pc == 1)
    && (instr == PruneRings <==> task == Doing(Reconcile) && pc == 1)
    && (instr == PruneBudgets <==> task == Doing(Reconcile) && pc == 3)
    && (instr == ReadRings <==> (task == Doing(Snapshot) && pc == 4) || (task == Doing(Save) && pc == 1))
    && (instr == Acquire(BudgetMu, Shared) <==> (task == Doing(Snapshot) && pc == 5) || (task == Doing(Save) && pc == 3))
    && (instr == ReadBudgets <==> task == Doing(Snapshot) && pc == 6)
    && (instr == SaveBudgets <==> task == Doing(Save) && pc == 4)
    && (instr == CheckCache <==> (task == Doing(Snapshot) && pc == 1) || (task == HitCache && pc == 1))
    && (instr == StoreCache <==> task == Doing(Snapshot) && pc == 10)
    && (instr == ClearCache <==> pc == 3 && (task == Doing(Push) || task == Doing(RecordBudgetCheck)))
  }

  lemma NextFits<R, B>(th: Thread<R, B>)
    requires !th.Idle()
    ensures Fits(th.task, th.pc, th.Next())
  {
  }

  /** Writes happen under the exclusive lock, so a thread in the middle of its reads sees none. */
  lemma OtherLocalKept<R, B>(s: State<R, B>, i: nat, instr: Instr, r: R, b: B, other: Thread<R, B>)
    requires s.trace != [] && i < |s.threads| && LocalInv(s, other)
    requires instr == WriteRings || instr == PruneBudgets ==> !(other.task == Doing(Snapshot) && 4 <= other.pc <= 8)
    requires instr == WriteBudgets ==> !(other.task == Doing(Snapshot) && 6 <= other.pc <= 7)
    ensures LocalInv(Perform(s, i, instr, r, b), other)
  {
  }

  /** Readers are outside their read section while a writer writes. */
  lemma ReadersAreOut<R, B>(s: State<R, B>, i: nat, j: nat)
    requires Exclusion(s) && i < |s.threads| && j < |s.threads| && i != j && !s.threads[i].Idle()
    ensures
      var instr, other := s.threads[i].Next(), s.threads[j];
      && (instr == WriteRings || instr == PruneBudgets ==> !(other.task == Doing(Snapshot) && 4 <= other.pc <= 8))
      && (instr == WriteBudgets ==> !(other.task == Doing(Snapshot) && 6 <= other.pc <= 7))
  {
    NextFits(s.threads[i]);
    LocksAt(s.threads[i]);
    LocksAt(s.threads[j]);
    if Holds(s.threads[i], Mu, Exclusive) {
      NoWriterBesideReader(s, i, j, Mu);
    }
    if Holds(s.threads[i], BudgetMu, Exclusive) {
      NoWriterBesideReader(s, i, j, BudgetMu);
    }
  }

  /** What the instruction does to the thread that executes it. */
  lemma OwnThread<R, B>(s: State<R, B>, i: nat, instr: Instr, r: R, b: B)
    requires s.trace != [] && i < |s.threads|
    ensures
      var t := Perform(s, i, instr, r, b);
      var th, th' := s.threads[i], t.threads[i];
      var last := |s.trace| - 1;
      && |t.threads| == |s.threads| && th'.pc == th.pc
      && th'.task == (if instr == CheckCache && CacheValid(s) then HitCache else th.task)
      && th'.locals ==
         (if instr == Acquire(BudgetMu, Shared) then th.locals.(instant := last)
          else if instr == ReadRings then th.locals.(rings := Some(s.rings), ringsAt := last)
          else if instr == ReadBudgets then th.locals.(budgets := Some(s.budgets))
          else th.locals)
      && (t.trace == s.trace || instr == WriteRings || instr == WriteBudgets || instr == PruneBudgets)
      && s.trace <= t.trace
  {
  }

  lemma SnapshotLocalsStep<R, B>(trace: seq<View<R, B>>, pc: nat, loc: Locals<R, B>, rings: R)
    requires trace != [] && SnapshotLocals(trace, pc, loc)
    requires pc == 4 ==> rings == trace[|trace| - 1].rings
    ensures
      var last := |trace| - 1;
      SnapshotLocals(trace, pc + 1,
        if pc == 5 then loc.(instant := last)
        else if pc == 4 then loc.(rings := Some(rings), ringsAt := last)
        else if pc == 6 then loc.(budgets := Some(trace[last].budgets))
        else loc)
  {
  }

  /** The thread after executing the instruction that fits its place. */
  function After<R, B>(th: Thread<R, B>, hit: bool, rings: R, budgets: B, last: nat): Thread<R, B> {
    var loc := th.locals;
    match th.task
    case Doing(Snapshot) =>
      Thread(if hit then HitCache else th.task, th.pc + 1,
             if th.pc == 4 then loc.(rings := Some(rings), ringsAt := last)
             else if th.pc == 5 then loc.(instant := last)
             else if th.pc == 6 then loc.(budgets := Some(budgets))
             else loc)
    case Doing(Save) =>
      Thread(th.task, th.pc + 1,
             if th.pc == 1 then loc.(rings := Some(rings), ringsAt := last)
             else if th.pc == 3 then loc.(instant := last)
             else loc)
    case _ => Thread(if hit then HitCache else th.task, th.pc + 1, loc)
  }

  lemma OwnAfter<R, B>(s: State<R, B>, i: nat, instr: Instr, r: R, b: B)
    requires s.trace != [] && i < |s.threads| && Fits(s.threads[i].task, s.threads[i].pc, instr)
    ensures
      var t := Advance(Perform(s, i, instr, r, b), i);
      && |t.threads| == |s.threads|
      && t.threads[i] == After(s.threads[i], instr == CheckCache && CacheValid(s), s.rings, s.budgets, |s.trace| - 1)
      && s.trace <= t.trace
      && (s.threads[i].task == Doing(Snapshot) || s.threads[i].task == Doing(Save) ==> t.trace == s.trace)
  {
    OwnThread(s, i, instr, r, b);
  }

  lemma AfterLocals<R, B>(s: State<R, B>, t: State<R, B>, th: Thread<R, B>, hit: bool)
    requires s.trace != [] && LocalInv(s, th) && th.pc < th.task.Length()
    requires hit ==> th.task == Doing(Snapshot) && th.pc == 1
    requires s.budgets == Current(s).budgets
    requires (th.task == Doing(Snapshot) && th.pc == 4) || (th.task == Doing(Save) && th.pc == 1) ==> s.rings == Current(s).rings
    requires s.trace <= t.trace
    requires th.task == Doing(Snapshot) || th.task == Doing(Save) ==> t.trace == s.trace
    ensures LocalInv(t, After(th, hit, s.rings, s.budgets, |s.trace| - 1))
  {
    if th.task == Doing(Snapshot) {
      SnapshotLocalsStep(s.trace, th.pc, th.locals, s.rings);
    }
  }

  lemma OwnLocalKept<R, B>(s: State<R, B>, i: nat, instr: Instr, r: R, b: B)
    requires s.trace != [] && i < |s.threads| && LocalInv(s, s.threads[i]) && s.threads[i].pc < s.threads[i].task.Length()
    requires Fits(s.threads[i].task, s.threads[i].pc, instr)
    requires s.budgets == Current(s).budgets
    requires instr == ReadRings ==> s.rings == Current(s).rings
    ensures
      var t := Advance(Perform(s, i, instr, r, b), i);
      LocalInv(t, t.threads[i])
  {
    var t := Advance(Perform(s, i, instr, r, b), i);
    OwnAfter(s, i, instr, r, b);
    AfterLocals(s, t, s.threads[i], instr == CheckCache && CacheValid(s));
  }

  /** Every instruction but Reconcile's first half leaves the fields equal to the last view, if they were. */
  lemma FieldsFollowTrace<R, B>(s: State<R, B>, i: nat, instr: Instr, r: R, b: B)
    requires s.trace != [] && i < |s.threads| && s.budgets == Current(s).budgets
    ensures
      var p := Perform(s, i, instr, r, b);
      && p.trace != [] && p.budgets == Current(p).budgets
      && (instr == WriteRings || instr == PruneBudgets ==> p.rings == Current(p).rings)
      && (instr != PruneRings && s.rings == Current(s).rings ==> p.rings == Current(p).rings)
  {
  }

  lemma VisibleKept<R, B>(s: State<R, B>, i: nat, instr: Instr, r: R, b: B)
    requires s.trace != [] && i < |s.threads| && Visible(s)
    requires Fits(s.threads[i].task, s.threads[i].pc, instr)
    ensures Visible(Advance(Perform(s, i, instr, r, b), i))
  {
    var t := Advance(Perform(s, i, instr, r, b), i);
    FieldsFollowTrace(s, i, instr, r, b);
    OwnThread(s, i, instr, r, b);
    if instr == PruneRings {
      assert MidReconcile(t.threads[i]);
    } else if instr != WriteRings && instr != PruneBudgets && s.rings != Current(s).rings {
      var k :| 0 <= k < |s.threads| && MidReconcile(s.threads[k]);
      assert k != i ==> t.threads[k] == s.threads[k];
      assert MidReconcile(t.threads[k]);
    }
  }

  lemma ServedKept<R, B>(s: State<R, B>, i: nat, instr: Instr, r: R, b: B)
    requires s.trace != [] && i < |s.threads| && ServedInv(s)
    requires
      var loc := s.threads[i].locals;
      instr == StoreCache && loc.rings.Some? && loc.budgets.Some? ==>
        InTrace(s.trace, loc.instant, View(loc.rings.value, loc.budgets.value))
    ensures ServedInv(Perform(s, i, instr, r, b))
  {
  }

  lemma ImagesKept<R, B>(s: State<R, B>, i: nat, instr: Instr, r: R, b: B)
    requires s.trace != [] && i < |s.threads| && ImagesInv(s) && s.budgets == Current(s).budgets
    requires
      var loc := s.threads[i].locals;
      instr == SaveBudgets ==> loc.ringsAt < |s.trace| && loc.rings == Some(s.trace[loc.ringsAt].rings)
    ensures ImagesInv(Perform(s, i, instr, r, b))
  {
    var t := Perform(s, i, instr, r, b);
    forall k | 0 <= k < |t.images|
      ensures ImageOk(t.trace, t.images[k])
    {
      assert k < |s.images| ==> ImageOk(s.trace, s.images[k]);
    }
  }

  lemma LogsKept<R, B>(s: State<R, B>, i: nat, instr: Instr, r: R, b: B)
    requires s.trace != [] && i < |s.threads| && LogsInv(s) && LocalInv(s, s.threads[i])
    requires Fits(s.threads[i].task, s.threads[i].pc, instr)
    requires s.budgets == Current(s).budgets
    ensures LogsInv(Perform(s, i, instr, r, b))
  {
    ServedKept(s, i, instr, r, b);
    ImagesKept(s, i, instr, r, b);
  }

  lemma LocalsKept<R, B>(s: State<R, B>, i: nat, r: R, b: B, j: nat)
    requires Inv(s) && Enabled(s, i) && j < |s.threads|
    ensures
      var t := Advance(Effect(s, i, r, b), i);
      |t.threads| == |s.threads| && LocalInv(t, t.threads[j])
  {
    var instr := s.threads[i].Next();
    NextFits(s.threads[i]);
    OthersStay(s, i, r, b);
    assert LocalInv(s, s.threads[i]);
    if j == i {
      LocksAt(s.threads[i]);
      if instr == ReadRings {
        ReaderSeesCurrent(s, i);
      }
      OwnLocalKept(s, i, instr, r, b);
    } else {
      ReadersAreOut(s, i, j);
      OtherLocalKept(s, i, instr, r, b, s.threads[j]);
    }
  }

  lemma ExecKeeps<R, B>(s: State<R, B>, i: nat, r: R, b: B)
    requires Inv(s) && Enabled(s, i)
    ensures Inv(Advance(Effect(s, i, r, b), i))
  {
    var t := Advance(Effect(s, i, r, b), i);
    NextFits(s.threads[i]);
    assert LocalInv(s, s.threads[i]);
    ExclusionKept(s, i, r, b);
    VisibleKept(s, i, s.threads[i].Next(), r, b);
    LogsKept(s, i, s.threads[i].Next(), r, b);
    OthersStay(s, i, r, b);
    forall j | 0 <= j < |t.threads|
      ensures LocalInv(t, t.threads[j])
    {
      LocalsKept(s, i, r, b, j);
    }
  }

  lemma BeginKeeps<R, B>(s: State<R, B>, i: nat, op: Op)
    requires Inv(s)
    ensures Inv(Step(s, Begin(i, op)))
  {
    var t := Step(s, Begin(i, op));
    if i < |s.threads| && s.threads[i].Idle() {
      assert forall l, m :: !Holds(t.threads[i], l, m);
      ExclusionUpdate(s, t, i);
      if s.rings != Current(s).rings {
        var k :| 0 <= k < |s.threads| && MidReconcile(s.threads[k]);
        assert MidReconcile(t.threads[k]);
      }
    }
  }

  lemma StepKeeps<R, B>(s: State<R, B>, a: Action<R, B>)
    requires Inv(s)
    ensures Inv(Step(s, a))
  {
    match a
    case Tick(_) =>
    case Begin(i, op) => BeginKeeps(s, i, op);
    case Exec(i, r, b) =>
      if Enabled(s, i) {
        ExecKeeps(s, i, r, b);
      }
  }

  // ----- Runs -----

  ghost function Run<R, B>(s: State<R, B>, actions: seq<Action<R, B>>): (t: State<R, B>)
    requires s.trace != []
    ensures t.trace != []
    decreases |actions|
  {
    if actions == [] then s else Run(Step(s, actions[0]), actions[1..])
  }

  lemma {:induction false} RunKeeps<R, B>(s: State<R, B>, actions: seq<Action<R, B>>)
    requires Inv(s)
    ensures Inv(Run(s, actions))
    decreases |actions|
  {
    if actions == [] {
    } else {
      StepKeeps(s, actions[0]);
      RunKeeps(Step(s, actions[0]), actions[1..]);
    }
  }

  lemma InitialInv<R, B>(n: nat, r: R, b: B)
    ensures Inv(Initial(n, r, b))
  {
  }

  lemma {:induction false} RunConcat<R, B>(s: State<R, B>, xs: seq<Action<R, B>>, ys: seq<Action<R, B>>)
    requires s.trace != []
    ensures Run(s, xs + ys) == Run(Run(s, xs), ys)
    decreases |xs|
  {
    if xs == [] {
      assert xs + ys == ys;
    } else {
      assert (xs + ys)[1..] == xs[1..] + ys;
      RunConcat(Step(s, xs[0]), xs[1..], ys);
    }
  }

  // ----- Results: consistency -----

  /**
   In every run of any number of threads, every snapshot handed out is the combined ring and budget
   state of one single instant, and one that came from the cache was stored less than 2 s before.
   */
  lemma SnapshotsAreConsistent<R, B>(n: nat, r: R, b: B, actions: seq<Action<R, B>>, k: nat)
    requires k < |Run(Initial(n, r, b), actions).served|
    ensures
      var s := Run(Initial(n, r, b), actions);
      && InTrace(s.trace, s.served[k].instant, s.served[k].view)
      && (s.served[k].storedAt.Some? ==> s.served[k].at - s.served[k].storedAt.value < 2_000_000_000)
  {
    InitialInv(n, r, b);
    RunKeeps(Initial(n, r, b), actions);
  }

  /** A saved image takes its rings from one instant and its budgets from the same or a later one. */
  lemma ImageReadsAreOrdered<R, B>(n: nat, r: R, b: B, actions: seq<Action<R, B>>, k: nat)
    requires k < |Run(Initial(n, r, b), actions).images|
    ensures
      var s := Run(Initial(n, r, b), actions);
      var image := s.images[k];
      && image.ringsAt <= image.budgetsAt < |s.trace|
      && image.rings == s.trace[image.ringsAt].rings
      && image.budgets == s.trace[image.budgetsAt].budgets
  {
    InitialInv(n, r, b);
    RunKeeps(Initial(n, r, b), actions);
  }

  // ----- Results: freshness after a mutation -----

  /** A computation whose instant is fixed and which has not yet taken the cache lock to store its result. */
  predicate Pending<R, B>(th: Thread<R, B>) {
    th.task == Doing(Snapshot) && 6 <= th.pc <= 9
  }

  ghost predicate NoOldPending<R, B>(s: State<R, B>, w: nat) {
    forall i :: 0 <= i < |s.threads| && Pending(s.threads[i]) ==> s.threads[i].locals.instant >= w
  }

  ghost predicate NoOldCaptured<R, B>(s: State<R, B>, w: nat) {
    forall i :: 0 <= i < |s.threads| && Captured(s.threads[i]) ==> s.threads[i].locals.instant >= w
  }

  ghost predicate CacheFrom<R, B>(s: State<R, B>, w: nat) {
    s.cache.Some? ==> s.cache.value.instant >= w
  }

  lemma PendingStep<R, B>(s: State<R, B>, a: Action<R, B>, w: nat)
    requires Inv(s) && w < |s.trace|
    ensures |Step(s, a).trace| >= |s.trace|
    ensures NoOldPending(s, w) ==> NoOldPending(Step(s, a), w)
    ensures NoOldCaptured(s, w) ==> NoOldCaptured(Step(s, a), w)
  {
    if a.Exec? && Enabled(s, a.i) {
      NextFits(s.threads[a.i]);
      OthersStay(s, a.i, a.r, a.b);
      PerformKeepsInstant(s, a.i, s.threads[a.i].Next(), a.r, a.b);
    }
  }

  lemma PerformKeepsInstant<R, B>(s: State<R, B>, i: nat, instr: Instr, r: R, b: B)
    requires s.trace != [] && i < |s.threads| && Fits(s.threads[i].task, s.threads[i].pc, instr)
    ensures
      var t := Perform(s, i, instr, r, b);
      && |t.trace| >= |s.trace| && |t.threads| == |s.threads|
      && t.threads[i].pc == s.threads[i].pc
      && (t.threads[i].task == Doing(Snapshot) ==> s.threads[i].task == Doing(Snapshot))
      && t.threads[i].locals.instant == (if instr == Acquire(BudgetMu, Shared) then |s.trace| - 1 else s.threads[i].locals.instant)
  {
  }

  lemma ServedStep<R, B>(s: State<R, B>, a: Action<R, B>, w: nat)
    requires Inv(s) && w < |s.trace| && NoOldCaptured(s, w) && CacheFrom(s, w)
    ensures CacheFrom(Step(s, a), w)
    ensures |s.served| <= |Step(s, a).served| && Step(s, a).served[..|s.served|] == s.served
    ensures forall k :: |s.served| <= k < |Step(s, a).served| ==> Step(s, a).served[k].instant >= w
  {
    if a.Exec? && Enabled(s, a.i) {
      NextFits(s.threads[a.i]);
      PerformServes(s, a.i, s.threads[a.i].Next(), a.r, a.b, w);
    }
  }

  lemma PerformServes<R, B>(s: State<R, B>, i: nat, instr: Instr, r: R, b: B, w: nat)
    requires s.trace != [] && i < |s.threads| && CacheFrom(s, w)
    requires instr == StoreCache ==> s.threads[i].locals.instant >= w
    ensures
      var t := Perform(s, i, instr, r, b);
      && CacheFrom(t, w)
      && |s.served| <= |t.served| && t.served[..|s.served|] == s.served
      && forall k :: |s.served| <= k < |t.served| ==> t.served[k].instant >= w
  {
  }

  lemma {:induction false} ServedFrom<R, B>(s: State<R, B>, actions: seq<Action<R, B>>, w: nat)
    requires Inv(s) && w < |s.trace| && NoOldCaptured(s, w) && CacheFrom(s, w)
    ensures |s.served| <= |Run(s, actions).served|
    ensures forall k :: |s.served| <= k < |Run(s, actions).served| ==> Run(s, actions).served[k].instant >= w
    ensures Run(s, actions).served[..|s.served|] == s.served
    decreases |actions|
  {
    if actions == [] {
    } else {
      var t := Step(s, actions[0]);
      StepKeeps(s, actions[0]);
      PendingStep(s, actions[0], w);
      ServedStep(s, actions[0], w);
      ServedFrom(t, actions[1..], w);
      var u := Run(s, actions);
      forall k | |s.served| <= k < |u.served|
        ensures u.served[k].instant >= w
      {
        if k < |t.served| {
          assert u.served[k] == u.served[..|t.served|][k] == t.served[k];
        }
      }
      assert u.served[..|s.served|] == u.served[..|t.served|][..|s.served|];
    }
  }

  lemma {:induction false} PendingRun<R, B>(s: State<R, B>, actions: seq<Action<R, B>>, w: nat)
    requires Inv(s) && w < |s.trace| && NoOldPending(s, w)
    ensures w < |Run(s, actions).trace| && NoOldPending(Run(s, actions), w)
    decreases |actions|
  {
    if actions == [] {
    } else {
      StepKeeps(s, actions[0]);
      PendingStep(s, actions[0], w);
      PendingRun(Step(s, actions[0]), actions[1..], w);
    }
  }

  lemma ClearingMeansNoneStoring<R, B>(s: State<R, B>, i: nat, w: nat)
    requires Inv(s) && i < |s.threads| && !s.threads[i].Idle() && s.threads[i].Next() == ClearCache
    requires NoOldPending(s, w)
    ensures NoOldCaptured(s, w)
  {
    NextFits(s.threads[i]);
    MutatorsAreDisciplined(s.threads[i].task.op);
    assert Holds(s.threads[i], SnapMu, Exclusive);
    forall j | 0 <= j < |s.threads| && Captured(s.threads[j])
      ensures s.threads[j].locals.instant >= w
    {
      if s.threads[j].pc == 10 {
        SnapshotIsDisciplined();
        NoWriterBesideReader(s, i, j, SnapMu);
      }
    }
  }

  /**
   State s is the store right after a mutation wrote view w. If no computation with an older instant
   is still to take the cache lock, then once a mutation has cleared the cache every snapshot handed
   out from there on, cached or computed, shows view w or a later one.
   */
  lemma MutationIsReflected<R, B>(
    s: State<R, B>, w: nat, before: seq<Action<R, B>>, i: nat, r: R, b: B, after: seq<Action<R, B>>)
    requires Inv(s) && w < |s.trace| && NoOldPending(s, w)
    requires Enabled(Run(s, before), i) && Run(s, before).threads[i].Next() == ClearCache
    ensures
      var cleared := Run(s, before + [Exec(i, r, b)]);
      var later := Run(cleared, after);
      |cleared.served| <= |later.served| &&
      forall k :: |cleared.served| <= k < |later.served| ==> later.served[k].instant >= w
  {
    var m := Run(s, before);
    RunKeeps(s, before);
    PendingRun(s, before, w);
    ClearingMeansNoneStoring(m, i, w);
    PendingStep(m, Exec(i, r, b), w);
    StepKeeps(m, Exec(i, r, b));
    RunConcat(s, before, [Exec(i, r, b)]);
    var c := Step(m, Exec(i, r, b));
    assert Run(m, [Exec(i, r, b)]) == c by {
      assert [Exec(i, r, b)][1..] == [];
    }
    ServedFrom(c, after, w);
  }

  // ----- The condition is exact -----

  ghost predicate AllIdle<R, B>(s: State<R, B>) {
    forall i :: 0 <= i < |s.threads| ==> s.threads[i].Idle()
  }

  ghost predicate OthersIdle<R, B>(s: State<R, B>, i: nat) {
    forall j :: 0 <= j < |s.threads| && j != i ==> s.threads[j].Idle()
  }

  /** Thread i has computed a snapshot of the given instant and is about to ask for the cache lock. */
  ghost predicate Parked<R, B>(s: State<R, B>, i: nat, instant: nat) {
    && i < |s.threads|
    && s.threads[i].task == Doing(Snapshot) && s.threads[i].pc == 9
    && s.threads[i].locals.instant == instant
  }

  lemma ParkedHoldsNothing<R, B>(s: State<R, B>, i: nat, instant: nat, l: LockId, m: Mode)
    requires Parked(s, i, instant)
    ensures !Holds(s.threads[i], l, m)
  {
    SnapshotIsDisciplined();
  }

  lemma IdleHoldsNothing<R, B>(th: Thread<R, B>, l: LockId, m: Mode)
    requires th.Idle()
    ensures !Holds(th, l, m)
  {
    TasksAreDisciplined(th.task);
  }

  /** Some thread other than the parked one can go ahead. */
  lemma {:induction false} FindOther<R, B>(s: State<R, B>, i: nat, instant: nat, j: nat) returns (k: nat)
    requires Parked(s, i, instant) && j < |s.threads| && j != i && !s.threads[j].Idle()
    ensures k != i && Enabled(s, k)
    decreases Urgency(s.threads[j])
  {
    if Enabled(s, j) {
      return j;
    }
    var l, m := s.threads[j].Next().l, s.threads[j].Next().m;
    var h :| 0 <= h < |s.threads| && h != j && (Holds(s.threads[h], l, Exclusive) || (m == Exclusive && Holds(s.threads[h], l, Shared)));
    ParkedHoldsNothing(s, i, instant, l, Exclusive);
    ParkedHoldsNothing(s, i, instant, l, Shared);
    HolderIsAhead(s.threads[h], l, if Holds(s.threads[h], l, Exclusive) then Exclusive else Shared);
    k := FindOther(s, i, instant, h);
  }

  function ToDo<R, B>(th: Thread<R, B>): nat {
    if th.Idle() then 0 else th.task.Length() - th.pc
  }

  function Work<R, B>(threads: seq<Thread<R, B>>): nat {
    if threads == [] then 0 else Work(threads[..|threads| - 1]) + ToDo(threads[|threads| - 1])
  }

  lemma {:induction false} WorkUpdate<R, B>(threads: seq<Thread<R, B>>, k: nat, th: Thread<R, B>)
    requires k < |threads|
    ensures Work(threads[k := th]) + ToDo(threads[k]) == Work(threads) + ToDo(th)
  {
    var n := |threads| - 1;
    if k == n {
      assert threads[k := th][..n] == threads[..n];
    } else {
      WorkUpdate(threads[..n], k, th);
      assert threads[k := th][..n] == threads[..n][k := th];
    }
  }

  lemma ExecWorks<R, B>(s: State<R, B>, k: nat, r: R, b: B)
    requires Inv(s) && Enabled(s, k)
    ensures Work(Step(s, Exec(k, r, b)).threads) < Work(s.threads)
  {
    var t := Step(s, Exec(k, r, b));
    NextFits(s.threads[k]);
    OthersStay(s, k, r, b);
    assert t.threads == s.threads[k := t.threads[k]];
    assert LocalInv(s, s.threads[k]);
    PerformShortens(s, k, s.threads[k].Next(), r, b);
    WorkUpdate(s.threads, k, t.threads[k]);
  }

  lemma PerformShortens<R, B>(s: State<R, B>, i: nat, instr: Instr, r: R, b: B)
    requires s.trace != [] && i < |s.threads| && !s.threads[i].Idle()
    requires Fits(s.threads[i].task, s.threads[i].pc, instr) && LocalInv(s, s.threads[i])
    ensures ToDo(Advance(Perform(s, i, instr, r, b), i).threads[i]) < ToDo(s.threads[i])
  {
  }

  /** The others can all finish while thread i stays parked. */
  lemma {:induction false} FinishOthers<R, B>(s: State<R, B>, i: nat, instant: nat, r: R, b: B)
    returns (actions: seq<Action<R, B>>)
    requires Inv(s) && Parked(s, i, instant)
    ensures Inv(Run(s, actions)) && Parked(Run(s, actions), i, instant) && OthersIdle(Run(s, actions), i)
    decreases Work(s.threads)
  {
    if OthersIdle(s, i) {
      return [];
    }
    var j :| 0 <= j < |s.threads| && j != i && !s.threads[j].Idle();
    var k := FindOther(s, i, instant, j);
    var t := Step(s, Exec(k, r, b));
    StepKeeps(s, Exec(k, r, b));
    ExecWorks(s, k, r, b);
    OthersStay(s, k, r, b);
    var rest := FinishOthers(t, i, instant, r, b);
    actions := [Exec(k, r, b)] + rest;
    assert actions[1..] == rest;
  }

  lemma FreeWhenOthersIdle<R, B>(s: State<R, B>, i: nat, l: LockId, m: Mode)
    requires i < |s.threads| && OthersIdle(s, i)
    ensures Free(s, i, l, m)
  {
    forall j | 0 <= j < |s.threads| && j != i
      ensures !Holds(s.threads[j], l, Exclusive) && !Holds(s.threads[j], l, Shared)
    {
      IdleHoldsNothing(s.threads[j], l, Exclusive);
      IdleHoldsNothing(s.threads[j], l, Shared);
    }
  }

  /** A pending computation can run up to the point where it asks for the cache lock. */
  lemma {:induction false} Park<R, B>(s: State<R, B>, i: nat, r: R, b: B) returns (actions: seq<Action<R, B>>)
    requires Inv(s) && i < |s.threads| && Pending(s.threads[i])
    ensures Inv(Run(s, actions)) && Parked(Run(s, actions), i, s.threads[i].locals.instant)
    decreases 9 - s.threads[i].pc
  {
    if s.threads[i].pc == 9 {
      return [];
    }
    var a := Exec(i, r, b);
    var t := Step(s, a);
    assert Enabled(s, i);
    StepKeeps(s, a);
    NextFits(s.threads[i]);
    PerformKeepsInstant(s, i, s.threads[i].Next(), r, b);
    PerformKeepsTask(s, i, s.threads[i].Next(), r, b);
    var rest := Park(t, i, r, b);
    actions := [a] + rest;
    assert actions[1..] == rest;
  }

  lemma PerformKeepsTask<R, B>(s: State<R, B>, i: nat, instr: Instr, r: R, b: B)
    requires s.trace != [] && i < |s.threads| && instr != CheckCache
    ensures Perform(s, i, instr, r, b).threads[i].task == s.threads[i].task
  {
  }

  lemma ParkedAcquires<R, B>(s: State<R, B>, i: nat, instant: nat, r: R, b: B)
    requires s.trace != [] && Parked(s, i, instant) && OthersIdle(s, i)
    ensures Step(s, Exec(i, r, b)) == Advance(s, i)
  {
    FreeWhenOthersIdle(s, i, SnapMu, Exclusive);
    assert s.threads[i].Next() == Acquire(SnapMu, Exclusive);
  }

  lemma StoreStores<R, B>(s: State<R, B>, i: nat, r: R, b: B)
    requires s.trace != [] && i < |s.threads| && s.threads[i].task == Doing(Snapshot) && s.threads[i].pc == 10
    requires s.threads[i].locals.rings.Some? && s.threads[i].locals.budgets.Some?
    ensures
      var t := Step(s, Exec(i, r, b));
      && t.threads == s.threads[i := s.threads[i].(pc := 11)] && t.now == s.now && t.trace == s.trace
      && t.cache.Some? && t.cache.value.instant == s.threads[i].locals.instant && t.cache.value.storedAt == s.now
  {
    assert s.threads[i].Next() == StoreCache;
  }

  lemma ReleaseOnly<R, B>(s: State<R, B>, i: nat, r: R, b: B)
    requires s.trace != [] && i < |s.threads| && s.threads[i].task == Doing(Snapshot) && s.threads[i].pc == 11
    ensures Step(s, Exec(i, r, b)) == Advance(s, i)
  {
    assert s.threads[i].Next() == Release(SnapMu, Exclusive);
  }

  /** Alone, the parked thread stores its snapshot and finishes. */
  lemma StoreAlone<R, B>(s: State<R, B>, i: nat, instant: nat, r: R, b: B)
    requires Inv(s) && Parked(s, i, instant) && OthersIdle(s, i)
    ensures
      var t := Run(s, [Exec(i, r, b), Exec(i, r, b), Exec(i, r, b)]);
      && Inv(t) && AllIdle(t) && |t.threads| == |s.threads|
      && t.cache.Some? && t.cache.value.instant == instant && t.cache.value.storedAt == t.now
  {
    var a := Exec(i, r, b);
    assert LocalInv(s, s.threads[i]);
    ParkedAcquires(s, i, instant, r, b);
    var s1 := Step(s, a);
    StoreStores(s1, i, r, b);
    var s2 := Step(s1, a);
    ReleaseOnly(s2, i, r, b);
    RunKeeps(s, [a, a, a]);
    RunThree(s, a, a, a);
  }

  /** With everyone idle a new Snapshot call is answered from a cache stored at this moment. */
  lemma ServeFromCache<R, B>(s: State<R, B>, i: nat, r: R, b: B)
    requires Inv(s) && AllIdle(s) && i < |s.threads|
    requires s.cache.Some? && s.cache.value.storedAt == s.now
    ensures
      var t := Run(s, [Begin(i, Snapshot), Exec(i, r, b), Exec(i, r, b)]);
      |t.served| == |s.served| + 1 && t.served[|s.served|].instant == s.cache.value.instant
  {
    var s1 := Step(s, Begin(i, Snapshot));
    StepKeeps(s, Begin(i, Snapshot));
    assert s1.threads[i].task == Doing(Snapshot) && s1.threads[i].pc == 0;
    FreeWhenOthersIdle(s1, i, SnapMu, Exclusive);
    var a := Exec(i, r, b);
    var s2 := Step(s1, a);
    AcquireOnly(s1, i, r, b);
    CheckHits(s2, i, r, b);
    RunThree(s, Begin(i, Snapshot), a, a);
  }

  lemma AcquireOnly<R, B>(s: State<R, B>, i: nat, r: R, b: B)
    requires s.trace != [] && i < |s.threads| && s.threads[i].task == Doing(Snapshot) && s.threads[i].pc == 0
    requires Free(s, i, SnapMu, Exclusive)
    ensures Step(s, Exec(i, r, b)) == Advance(s, i)
  {
  }

  lemma CheckHits<R, B>(s: State<R, B>, i: nat, r: R, b: B)
    requires s.trace != [] && i < |s.threads| && s.threads[i].task == Doing(Snapshot) && s.threads[i].pc == 1
    requires CacheValid(s)
    ensures
      var t := Step(s, Exec(i, r, b));
      |t.served| == |s.served| + 1 && t.served[|s.served|].instant == s.cache.value.instant
  {
    assert s.threads[i].Next() == CheckCache;
  }

  lemma RunThree<R, B>(s: State<R, B>, x: Action<R, B>, y: Action<R, B>, z: Action<R, B>)
    requires s.trace != []
    ensures Run(s, [x, y, z]) == Step(Step(Step(s, x), y), z)
  {
    var s1 := Step(s, x);
    var s2 := Step(s1, y);
    assert [x, y, z][1..] == [y, z] && [y, z][1..] == [z] && [z][1..] == [];
    assert Run(s2, [z]) == Run(Step(s2, z), []);
    assert Run(s1, [y, z]) == Run(s2, [z]);
  }

  /**
   If a computation with an instant older than w is still to take the cache lock, then from there all
   operations can finish, the mutation that wrote w included, and a Snapshot call that starts only
   afterwards is still handed a view older than w.
   */
  lemma StaleIfOnePending<R, B>(s: State<R, B>, w: nat, i: nat, r: R, b: B)
    returns (finish: seq<Action<R, B>>, call: seq<Action<R, B>>)
    requires Inv(s) && i < |s.threads| && Pending(s.threads[i]) && s.threads[i].locals.instant < w < |s.trace|
    ensures AllIdle(Run(s, finish))
    ensures call == [Begin(i, Snapshot), Exec(i, r, b), Exec(i, r, b)]
    ensures
      var done := Run(s, finish);
      var later := Run(done, call);
      |later.served| == |done.served| + 1 && later.served[|done.served|].instant < w
  {
    var instant := s.threads[i].locals.instant;
    var park := Park(s, i, r, b);
    var s1 := Run(s, park);
    var others := FinishOthers(s1, i, instant, r, b);
    var s2 := Run(s1, others);
    var store := [Exec(i, r, b), Exec(i, r, b), Exec(i, r, b)];
    StoreAlone(s2, i, instant, r, b);
    finish := park + (others + store);
    RunConcat(s, park, others + store);
    RunConcat(s1, others, store);
    call := [Begin(i, Snapshot), Exec(i, r, b), Exec(i, r, b)];
    ServeFromCache(Run(s2, store), i, r, b);
  }

  // ----- A stale answer, from the initial state on -----

  lemma PerformQuietly<R, B>(s: State<R, B>, i: nat, instr: Instr, r: R, b: B)
    requires s.trace != [] && i < |s.threads| && s.cache.None?
    requires instr.Acquire? || instr.Release? || instr == CheckCache || instr == ReadRings || instr == ReadBudgets
    ensures
      var t := Perform(s, i, instr, r, b);
      && t.trace == s.trace && t.cache.None?
      && |t.threads| == |s.threads|
      && t.threads[i].task == s.threads[i].task && t.threads[i].pc == s.threads[i].pc
  {
  }

  /** With everyone else idle and nothing cached, a Snapshot call computes up to where it asks for the cache lock. */
  lemma {:induction false} ComputeAlone<R, B>(s: State<R, B>, i: nat, r: R, b: B) returns (actions: seq<Action<R, B>>)
    requires Inv(s) && i < |s.threads| && OthersIdle(s, i) && s.cache.None?
    requires s.threads[i].task == Doing(Snapshot) && s.threads[i].pc <= 9
    ensures
      var t := Run(s, actions);
      && Inv(t) && OthersIdle(t, i) && t.trace == s.trace && |t.threads| == |s.threads|
      && t.threads[i].task == Doing(Snapshot) && t.threads[i].pc == 9
    decreases 9 - s.threads[i].pc
  {
    if s.threads[i].pc == 9 {
      actions := [];
    } else {
      var a := Exec(i, r, b);
      var t := Step(s, a);
      StepAlone(s, i, r, b);
      StepKeeps(s, a);
      var rest := ComputeAlone(t, i, r, b);
      actions := [a] + rest;
      assert actions[1..] == rest;
    }
  }

  lemma StepAlone<R, B>(s: State<R, B>, i: nat, r: R, b: B)
    requires s.trace != [] && i < |s.threads| && OthersIdle(s, i) && s.cache.None?
    requires s.threads[i].task == Doing(Snapshot) && s.threads[i].pc < 9
    ensures
      var t := Step(s, Exec(i, r, b));
      && t.trace == s.trace && t.cache.None?
      && |t.threads| == |s.threads| && OthersIdle(t, i)
      && t.threads[i].task == Doing(Snapshot) && t.threads[i].pc == s.threads[i].pc + 1
  {
    var instr := s.threads[i].Next();
    if instr.Acquire? {
      FreeWhenOthersIdle(s, i, instr.l, instr.m);
    }
    PerformQuietly(s, i, instr, r, b);
    OthersStay(s, i, r, b);
  }

  lemma FreeBesideParked<R, B>(s: State<R, B>, i: nat, instant: nat, j: nat, l: LockId, m: Mode)
    requires Parked(s, i, instant) && j < |s.threads|
    requires forall k :: 0 <= k < |s.threads| && k != i && k != j ==> s.threads[k].Idle()
    ensures Free(s, j, l, m)
  {
    forall k | 0 <= k < |s.threads| && k != j
      ensures !Holds(s.threads[k], l, Exclusive) && !Holds(s.threads[k], l, Shared)
    {
      if k == i {
        ParkedHoldsNothing(s, i, instant, l, Exclusive);
        ParkedHoldsNothing(s, i, instant, l, Shared);
      } else {
        IdleHoldsNothing(s.threads[k], l, Exclusive);
        IdleHoldsNothing(s.threads[k], l, Shared);
      }
    }
  }

  lemma PushLocks<R, B>(s: State<R, B>, j: nat, r: R, b: B)
    requires s.trace != [] && j < |s.threads|
    requires s.threads[j].task == Doing(Push) && s.threads[j].pc == 0 && Free(s, j, Mu, Exclusive)
    ensures Step(s, Exec(j, r, b)) == Advance(s, j)
  {
  }

  lemma PushWrites<R, B>(s: State<R, B>, i: nat, j: nat, r: R, b: B)
    requires s.trace != [] && i < |s.threads| && j < |s.threads| && j != i
    requires s.threads[j].task == Doing(Push) && s.threads[j].pc == 1
    ensures
      var t := Step(s, Exec(j, r, b));
      && |t.threads| == |s.threads| && t.threads[i] == s.threads[i]
      && |t.trace| == |s.trace| + 1 && Current(t).rings == r
  {
    assert s.threads[j].Next() == WriteRings;
  }

  /** A Push by another thread gets as far as writing the rings while the computation stays parked. */
  lemma PushBesideParked<R, B>(s: State<R, B>, i: nat, instant: nat, j: nat, r: R, b: B)
    requires s.trace != [] && Parked(s, i, instant) && OthersIdle(s, i) && j < |s.threads| && j != i
    ensures
      var t := Run(s, [Begin(j, Push), Exec(j, r, b), Exec(j, r, b)]);
      && Parked(t, i, instant) && |t.threads| == |s.threads|
      && |t.trace| == |s.trace| + 1 && Current(t).rings == r
  {
    var a := Exec(j, r, b);
    var s1 := Step(s, Begin(j, Push));
    FreeBesideParked(s1, i, instant, j, Mu, Exclusive);
    PushLocks(s1, j, r, b);
    PushWrites(Step(s1, a), i, j, r, b);
    RunThree(s, Begin(j, Push), a, a);
  }

  /** The first of two threads has computed a snapshot of the initial state and not yet stored it. */
  lemma ParkFirst<R, B>(r: R, b: B) returns (actions: seq<Action<R, B>>)
    ensures
      var s := Run(Initial(2, r, b), actions);
      Parked(s, 0, 0) && OthersIdle(s, 0) && |s.threads| == 2 && |s.trace| == 1
  {
    var s0: State<R, B> := Initial(2, r, b);
    InitialInv(2, r, b);
    var s1 := Step(s0, Begin(0, Snapshot));
    StepKeeps(s0, Begin(0, Snapshot));
    var rest := ComputeAlone(s1, 0, r, b);
    var s2 := Run(s1, rest);
    assert LocalInv(s2, s2.threads[0]);
    actions := [Begin(0, Snapshot)] + rest;
    assert actions[1..] == rest;
  }

  /** From the initial state of two threads: a computation is pending while a Push has written a later view. */
  lemma OldComputationPending<R, B>(r: R, b: B, pushed: R) returns (actions: seq<Action<R, B>>)
    ensures
      var s := Run(Initial(2, r, b), actions);
      && Inv(s) && |s.trace| == 2 && |s.threads| == 2 && Current(s).rings == pushed
      && Pending(s.threads[0]) && s.threads[0].locals.instant == 0
  {
    var park := ParkFirst(r, b);
    var push := [Begin(1, Push), Exec(1, pushed, b), Exec(1, pushed, b)];
    PushBesideParked(Run(Initial(2, r, b), park), 0, 0, 1, pushed, b);
    actions := park + push;
    RunConcat(Initial(2, r, b), park, push);
    InitialInv(2, r, b);
    RunKeeps(Initial(2, r, b), actions);
  }

  /**
   The stale answer exists: two threads, one Push and two Snapshot calls. The second call starts after
   the Push has finished and is handed the view from before it.
   */
  lemma StaleAnswer<R, B>(r: R, b: B, pushed: R)
    returns (before: seq<Action<R, B>>, finish: seq<Action<R, B>>, call: seq<Action<R, B>>)
    ensures
      var s := Run(Initial(2, r, b), before);
      var done := Run(s, finish);
      var later := Run(done, call);
      && |s.trace| == 2 && Current(s).rings == pushed
      && AllIdle(done)
      && call == [Begin(0, Snapshot), Exec(0, r, b), Exec(0, r, b)]
      && |later.served| == |done.served| + 1 && later.served[|done.served|].instant == 0
  {
    before := OldComputationPending(r, b, pushed);
    finish, call := StaleIfOnePending(Run(Initial(2, r, b), before), 1, 0, r, b);
  }
}
