/**
 The scheduler's goroutines as a step system: Start spawns a loop and a one-shot run per check,
 every goroutine publishes to a bounded channel without blocking, and a closer waits for
 cancellation and for the WaitGroup before it closes the channel. A send on the closed channel,
 a second close and a negative WaitGroup count would panic; the model records that in a flag.
 */
module Scheduler {

  const CHANNEL_CAPACITY: nat := 100

  /** What Start looks at in a check: a registered checker, a valid schedule, a stagger delay. */
  datatype CheckEntry = CheckEntry(hasChecker: bool, validSchedule: bool, staggered: bool)

  datatype Kind = Recurring | Startup

  /** Waiting for the timer, for the stagger delay, running the check, about to call wg.Done, gone. */
  datatype Pc = Waiting | Staggering | Executing | Returning | Exited

  datatype Goroutine = Goroutine(entry: nat, kind: Kind, pc: Pc)

  datatype StartPc = Scheduling(i: nat) | Launching(i: nat) | Started

  datatype CloserPc = NotSpawned | AwaitCancel | AwaitGroup | Closing | Done

  datatype State<R> = State(
    start: StartPc, goroutines: seq<Goroutine>, wg: int, cancelled: bool, closer: CloserPc,
    channel: seq<R>, closed: bool, panicked: bool,
    produced: seq<R>, sent: seq<R>, dropped: seq<R>, consumed: seq<R>)

  function Initial<R>(): State<R> {
    State(Scheduling(0), [], 0, false, NotSpawned, [], false, false, [], [], [], [])
  }

  datatype Action<R> =
    | StartStep
    | Cancel
    | TickFails(g: nat)
    | Tick(g: nat)
    | StaggerElapses(g: nat)
    | SeesCancel(g: nat)
    | Publish(g: nat, r: R)
    | WgDone(g: nat)
    | CloserStep
    | Consume

  // ----- Steps; an action that is not enabled leaves the state alone -----

  function Spawn<R>(s: State<R>, entry: nat, kind: Kind, pc: Pc): State<R> {
    s.(wg := s.wg + 1, goroutines := s.goroutines + [Goroutine(entry, kind, pc)])
  }

  function DoStart<R>(checks: seq<CheckEntry>, s: State<R>): State<R> {
    match s.start
    case Scheduling(i) =>
      if i >= |checks| then s.(start := Launching(0))
      else
        var s1 := if checks[i].hasChecker && checks[i].validSchedule then Spawn(s, i, Recurring, Waiting) else s;
        s1.(start := Scheduling(i + 1))
    case Launching(i) =>
      if i >= |checks| then s.(start := Started, closer := AwaitCancel)
      else
        var s1 := if checks[i].hasChecker
                  then Spawn(s, i, Startup, if checks[i].staggered then Staggering else Executing)
                  else s;
        s1.(start := Launching(i + 1))
    case Started => s
  }

  function Goto<R>(s: State<R>, g: nat, pc: Pc): State<R>
    requires g < |s.goroutines|
  {
    s.(goroutines := s.goroutines[g := s.goroutines[g].(pc := pc)])
  }

  /** The non-blocking send of execute: it panics on a closed channel and drops on a full one. */
  function Send<R>(s: State<R>, r: R): State<R> {
    var s1 := s.(produced := s.produced + [r]);
    if s.closed then s1.(panicked := true)
    else if |s.channel| < CHANNEL_CAPACITY then s1.(channel := s.channel + [r], sent := s.sent + [r])
    else s1.(dropped := s.dropped + [r])
  }

  function DoCloser<R>(s: State<R>): State<R> {
    match s.closer
    case NotSpawned => s
    case AwaitCancel => if s.cancelled then s.(closer := AwaitGroup) else s
    case AwaitGroup => if s.wg == 0 then s.(closer := Closing) else s
    case Closing => s.(closer := Done, closed := true, panicked := s.panicked || s.closed)
    case Done => s
  }

  function Step<R>(checks: seq<CheckEntry>, s: State<R>, a: Action<R>): State<R> {
    match a
    case StartStep => DoStart(checks, s)
    case Cancel => s.(cancelled := true)
    case CloserStep => DoCloser(s)
    case Consume => if s.channel == [] then s else s.(channel := s.channel[1..], consumed := s.consumed + [s.channel[0]])
    case TickFails(g) =>
      if g < |s.goroutines| && s.goroutines[g].pc.Waiting? then Goto(s, g, Returning) else s
    case Tick(g) =>
      if g < |s.goroutines| && s.goroutines[g].pc.Waiting? && s.goroutines[g].entry < |checks|
      then Goto(s, g, if checks[s.goroutines[g].entry].staggered then Staggering else Executing)
      else s
    case StaggerElapses(g) =>
      if g < |s.goroutines| && s.goroutines[g].pc.Staggering? then Goto(s, g, Executing) else s
    case SeesCancel(g) =>
      if g < |s.goroutines| && s.cancelled && (s.goroutines[g].pc.Waiting? || s.goroutines[g].pc.Staggering?)
      then Goto(s, g, Returning) else s
    case Publish(g, r) =>
      if g < |s.goroutines| && s.goroutines[g].pc.Executing?
      then Goto(Send(s, r), g, if s.goroutines[g].kind.Recurring? then Waiting else Returning)
      else s
    case WgDone(g) =>
      if g < |s.goroutines| && s.goroutines[g].pc.Returning?
      then Goto(s, g, Exited).(wg := s.wg - 1, panicked := s.panicked || s.wg <= 0)
      else s
  }

  function Run<R>(checks: seq<CheckEntry>, s: State<R>, actions: seq<Action<R>>): State<R>
    decreases |actions|
  {
    if actions == [] then s else Run(checks, Step(checks, s, actions[0]), actions[1..])
  }

  // ----- What every step keeps -----

  function Live(gs: seq<Goroutine>): nat {
    if gs == [] then 0 else Live(gs[..|gs| - 1]) + if gs[|gs| - 1].pc.Exited? then 0 else 1
  }

  lemma {:induction false} LiveUpdate(gs: seq<Goroutine>, g: nat, x: Goroutine)
    requires g < |gs|
    ensures Live(gs[g := x]) + (if gs[g].pc.Exited? then 0 else 1) == Live(gs) + (if x.pc.Exited? then 0 else 1)
  {
    var n := |gs| - 1;
    if g == n {
      assert gs[g := x][..n] == gs[..n];
    } else {
      LiveUpdate(gs[..n], g, x);
      assert gs[g := x][..n] == gs[..n][g := x];
    }
  }

  lemma {:induction false} LiveZero(gs: seq<Goroutine>, g: nat)
    requires Live(gs) == 0 && g < |gs|
    ensures gs[g].pc.Exited?
  {
    if g == |gs| - 1 {
    } else {
      LiveZero(gs[..|gs| - 1], g);
    }
  }

  /** Entries that Start has already passed for this kind of goroutine. */
  predicate Passed(start: StartPc, x: Goroutine) {
    match start
    case Scheduling(i) => x.kind.Recurring? && x.entry < i
    case Launching(i) => x.kind.Recurring? || x.entry < i
    case Started => true
  }

  ghost predicate OnePerEntry(gs: seq<Goroutine>) {
    forall i, j :: 0 <= i < j < |gs| ==> gs[i].entry != gs[j].entry || gs[i].kind != gs[j].kind
  }

  ghost predicate Accounted<R>(produced: seq<R>, sent: seq<R>, dropped: seq<R>, consumed: seq<R>, channel: seq<R>) {
    && |channel| <= CHANNEL_CAPACITY
    && sent == consumed + channel
    && multiset(produced) == multiset(sent) + multiset(dropped)
  }

  ghost predicate Spawned(checks: seq<CheckEntry>, start: StartPc, gs: seq<Goroutine>) {
    && OnePerEntry(gs)
    && forall g :: 0 <= g < |gs| ==> Passed(start, gs[g]) && gs[g].entry < |checks|
  }

  predicate Orderly(started: bool, wg: int, cancelled: bool, closer: CloserPc, closed: bool) {
    && (closer.NotSpawned? <==> !started)
    && (closer.AwaitGroup? || closer.Closing? || closer.Done? ==> cancelled)
    && (closer.Closing? || closer.Done? ==> wg == 0)
    && (closed <==> closer.Done?)
  }

  ghost predicate Inv<R>(checks: seq<CheckEntry>, s: State<R>) {
    && !s.panicked
    && s.wg == Live(s.goroutines)
    && Orderly(s.start.Started?, s.wg, s.cancelled, s.closer, s.closed)
    && Spawned(checks, s.start, s.goroutines)
    && Accounted(s.produced, s.sent, s.dropped, s.consumed, s.channel)
  }

  lemma SpawnedOneMore(checks: seq<CheckEntry>, gs: seq<Goroutine>, start: StartPc, x: Goroutine, next: StartPc)
    requires Spawned(checks, start, gs) && x.entry < |checks|
    requires !Passed(start, x) && Passed(next, x) && forall y :: Passed(start, y) ==> Passed(next, y)
    requires forall y: Goroutine :: y.entry == x.entry && y.kind == x.kind ==> !Passed(start, y)
    ensures Spawned(checks, next, gs + [x])
  {
    forall i | 0 <= i < |gs|
      ensures gs[i].entry != x.entry || gs[i].kind != x.kind
    {
      assert Passed(start, gs[i]);
    }
  }

  lemma LiveOneMore(gs: seq<Goroutine>, x: Goroutine)
    requires !x.pc.Exited?
    ensures Live(gs + [x]) == Live(gs) + 1
  {
    assert (gs + [x])[..|gs|] == gs;
  }

  lemma SpawnKeeps<R>(checks: seq<CheckEntry>, s: State<R>, entry: nat, kind: Kind, pc: Pc)
    requires Inv(checks, s) && entry < |checks| && !pc.Exited?
    requires s.start == (if kind.Recurring? then Scheduling(entry) else Launching(entry))
    ensures
      Inv(checks, Spawn(s, entry, kind, pc).(start := if kind.Recurring? then Scheduling(entry + 1) else Launching(entry + 1)))
  {
    var x := Goroutine(entry, kind, pc);
    LiveOneMore(s.goroutines, x);
    SpawnedOneMore(checks, s.goroutines, s.start, x,
      if kind.Recurring? then Scheduling(entry + 1) else Launching(entry + 1));
  }

  lemma SpawnedLater(checks: seq<CheckEntry>, gs: seq<Goroutine>, start: StartPc, next: StartPc)
    requires Spawned(checks, start, gs)
    requires forall x :: Passed(start, x) ==> Passed(next, x)
    ensures Spawned(checks, next, gs)
  {
  }

  lemma SchedulingKeeps<R>(checks: seq<CheckEntry>, s: State<R>)
    requires Inv(checks, s) && s.start.Scheduling?
    ensures Inv(checks, DoStart(checks, s))
  {
    var i := s.start.i;
    if i >= |checks| {
      SpawnedLater(checks, s.goroutines, s.start, Launching(0));
    } else if checks[i].hasChecker && checks[i].validSchedule {
      SpawnKeeps(checks, s, i, Recurring, Waiting);
    } else {
      SpawnedLater(checks, s.goroutines, s.start, Scheduling(i + 1));
    }
  }

  lemma LaunchingKeeps<R>(checks: seq<CheckEntry>, s: State<R>)
    requires Inv(checks, s) && s.start.Launching?
    ensures Inv(checks, DoStart(checks, s))
  {
    var i := s.start.i;
    if i >= |checks| {
      SpawnedLater(checks, s.goroutines, s.start, Started);
    } else if checks[i].hasChecker {
      SpawnKeeps(checks, s, i, Startup, if checks[i].staggered then Staggering else Executing);
    } else {
      SpawnedLater(checks, s.goroutines, s.start, Launching(i + 1));
    }
  }

  lemma StartKeeps<R>(checks: seq<CheckEntry>, s: State<R>)
    requires Inv(checks, s)
    ensures Inv(checks, DoStart(checks, s))
  {
    match s.start
    case Scheduling(_) => SchedulingKeeps(checks, s);
    case Launching(_) => LaunchingKeeps(checks, s);
    case Started =>
  }

  lemma GotoKeeps<R>(checks: seq<CheckEntry>, s: State<R>, g: nat, pc: Pc)
    requires Inv(checks, s) && g < |s.goroutines| && !s.goroutines[g].pc.Exited? && !pc.Exited?
    ensures Inv(checks, Goto(s, g, pc))
  {
    LiveUpdate(s.goroutines, g, s.goroutines[g].(pc := pc));
  }

  /** A goroutine that has not exited keeps the channel open. */
  lemma LiveMeansOpen<R>(checks: seq<CheckEntry>, s: State<R>, g: nat)
    requires Inv(checks, s) && g < |s.goroutines| && !s.goroutines[g].pc.Exited?
    ensures !s.closed && s.wg > 0
  {
    if Live(s.goroutines) == 0 {
      LiveZero(s.goroutines, g);
    }
  }

  lemma AccountedSend<R>(produced: seq<R>, sent: seq<R>, dropped: seq<R>, consumed: seq<R>, channel: seq<R>, r: R)
    requires Accounted(produced, sent, dropped, consumed, channel)
    ensures |channel| < CHANNEL_CAPACITY ==> Accounted(produced + [r], sent + [r], dropped, consumed, channel + [r])
    ensures Accounted(produced + [r], sent, dropped + [r], consumed, channel)
  {
    assert consumed + channel + [r] == consumed + (channel + [r]);
  }

  lemma SendKeeps<R>(checks: seq<CheckEntry>, s: State<R>, r: R)
    requires Inv(checks, s) && !s.closed
    ensures Inv(checks, Send(s, r))
  {
    AccountedSend(s.produced, s.sent, s.dropped, s.consumed, s.channel, r);
  }

  lemma ExitKeeps<R>(checks: seq<CheckEntry>, s: State<R>, g: nat)
    requires Inv(checks, s) && g < |s.goroutines| && s.goroutines[g].pc.Returning?
    ensures Inv(checks, Step(checks, s, WgDone(g)))
  {
    LiveMeansOpen(checks, s, g);
    LiveUpdate(s.goroutines, g, s.goroutines[g].(pc := Exited));
  }

  lemma PublishKeeps<R>(checks: seq<CheckEntry>, s: State<R>, g: nat, r: R)
    requires Inv(checks, s) && g < |s.goroutines| && s.goroutines[g].pc.Executing?
    ensures Inv(checks, Step(checks, s, Publish(g, r)))
  {
    LiveMeansOpen(checks, s, g);
    SendKeeps(checks, s, r);
    GotoKeeps(checks, Send(s, r), g, if s.goroutines[g].kind.Recurring? then Waiting else Returning);
  }

  lemma ConsumeKeeps<R>(checks: seq<CheckEntry>, s: State<R>)
    requires Inv(checks, s) && s.channel != []
    ensures Inv(checks, Step(checks, s, Consume))
  {
    assert s.consumed + [s.channel[0]] + s.channel[1..] == s.consumed + s.channel;
  }

  /** The steps of a goroutine that publishes nothing and stays alive. */
  lemma MoveKeeps<R>(checks: seq<CheckEntry>, s: State<R>, a: Action<R>)
    requires Inv(checks, s)
    requires a.TickFails? || a.Tick? || a.StaggerElapses? || a.SeesCancel?
    ensures Inv(checks, Step(checks, s, a))
  {
    if a.g < |s.goroutines| && !s.goroutines[a.g].pc.Exited? {
      GotoKeeps(checks, s, a.g, Returning);
      GotoKeeps(checks, s, a.g, Executing);
      GotoKeeps(checks, s, a.g, Staggering);
    }
  }

  lemma StepKeeps<R>(checks: seq<CheckEntry>, s: State<R>, a: Action<R>)
    requires Inv(checks, s)
    ensures Inv(checks, Step(checks, s, a))
  {
    match a
    case StartStep => StartKeeps(checks, s);
    case Cancel =>
    case CloserStep =>
    case Consume =>
      if s.channel != [] {
        ConsumeKeeps(checks, s);
      }
    case Publish(g, r) =>
      if g < |s.goroutines| && s.goroutines[g].pc.Executing? {
        PublishKeeps(checks, s, g, r);
      }
    case WgDone(g) =>
      if g < |s.goroutines| && s.goroutines[g].pc.Returning? {
        ExitKeeps(checks, s, g);
      }
    case _ => MoveKeeps(checks, s, a);
  }

  lemma {:induction false} RunKeeps<R>(checks: seq<CheckEntry>, s: State<R>, actions: seq<Action<R>>)
    requires Inv(checks, s)
    ensures Inv(checks, Run(checks, s, actions))
    decreases |actions|
  {
    if actions == [] {
    } else {
      StepKeeps(checks, s, actions[0]);
      RunKeeps(checks, Step(checks, s, actions[0]), actions[1..]);
    }
  }

  // ----- Results -----

  /**
   In every run: nothing is ever sent on the closed channel, the channel is closed at most once and
   the WaitGroup never goes negative; when the channel is closed every goroutine has exited.
   */
  lemma NeverPanics<R>(checks: seq<CheckEntry>, actions: seq<Action<R>>)
    ensures
      var s := Run(checks, Initial(), actions);
      && !s.panicked
      && (s.closed ==> s.start.Started? && s.cancelled)
      && (s.closed ==> forall g :: 0 <= g < |s.goroutines| ==> s.goroutines[g].pc.Exited?)
  {
    var s0: State<R> := Initial();
    RunKeeps(checks, s0, actions);
    var s := Run(checks, s0, actions);
    if s.closed {
      forall g | 0 <= g < |s.goroutines|
        ensures s.goroutines[g].pc.Exited?
      {
        LiveZero(s.goroutines, g);
      }
    }
  }

  /** In every run: results produced are exactly those consumed, buffered (at most 100) or dropped. */
  lemma ResultsAreConserved<R>(checks: seq<CheckEntry>, actions: seq<Action<R>>)
    ensures
      var s := Run(checks, Initial(), actions);
      && |s.channel| <= CHANNEL_CAPACITY
      && multiset(s.produced) == multiset(s.consumed) + multiset(s.channel) + multiset(s.dropped)
      && s.sent == s.consumed + s.channel
  {
    RunKeeps(checks, Initial(), actions);
  }

  /** In every run: a check has at most one scheduled and one startup execution in flight. */
  lemma NoOverlappingRuns<R>(checks: seq<CheckEntry>, actions: seq<Action<R>>, i: nat, j: nat)
    requires i < |Run(checks, Initial(), actions).goroutines| && j < |Run(checks, Initial(), actions).goroutines|
    requires
      var gs := Run(checks, Initial(), actions).goroutines;
      gs[i].pc.Executing? && gs[j].pc.Executing? && gs[i].entry == gs[j].entry && gs[i].kind == gs[j].kind
    ensures i == j
  {
    RunKeeps(checks, Initial(), actions);
  }

  // ----- Shutdown can always complete -----

  function PcRank(pc: Pc): nat {
    match pc
    case Staggering => 4
    case Executing => 3
    case Waiting => 2
    case Returning => 1
    case Exited => 0
  }

  function Ranks(gs: seq<Goroutine>): nat {
    if gs == [] then 0 else Ranks(gs[..|gs| - 1]) + PcRank(gs[|gs| - 1].pc)
  }

  function StartRank(checks: seq<CheckEntry>, start: StartPc): nat {
    match start
    case Scheduling(i) => 2 * |checks| + 2 - (if i < |checks| then i else |checks|)
    case Launching(i) => |checks| + 1 - (if i < |checks| then i else |checks|)
    case Started => 0
  }

  function CloserRank(c: CloserPc): nat {
    match c
    case NotSpawned => 4
    case AwaitCancel => 3
    case AwaitGroup => 2
    case Closing => 1
    case Done => 0
  }

  /** How much is left to do before the channel is closed. */
  function Rank<R>(checks: seq<CheckEntry>, s: State<R>): nat {
    5 * StartRank(checks, s.start) + Ranks(s.goroutines) + CloserRank(s.closer)
  }

  lemma {:induction false} RanksUpdate(gs: seq<Goroutine>, g: nat, x: Goroutine)
    requires g < |gs|
    ensures Ranks(gs[g := x]) + PcRank(gs[g].pc) == Ranks(gs) + PcRank(x.pc)
  {
    var n := |gs| - 1;
    if g == n {
      assert gs[g := x][..n] == gs[..n];
    } else {
      RanksUpdate(gs[..n], g, x);
      assert gs[g := x][..n] == gs[..n][g := x];
    }
  }

  lemma {:induction false} SomeoneLive(gs: seq<Goroutine>) returns (g: nat)
    requires Live(gs) > 0
    ensures g < |gs| && !gs[g].pc.Exited?
  {
    var n := |gs| - 1;
    if gs[n].pc.Exited? {
      g := SomeoneLive(gs[..n]);
    } else {
      g := n;
    }
  }

  lemma SpawnRank<R>(s: State<R>, entry: nat, kind: Kind, pc: Pc)
    ensures Ranks(Spawn(s, entry, kind, pc).goroutines) == Ranks(s.goroutines) + PcRank(pc)
  {
    var gs := s.goroutines;
    assert (gs + [Goroutine(entry, kind, pc)])[..|gs|] == gs;
  }

  lemma SchedulingMakesProgress<R>(checks: seq<CheckEntry>, s: State<R>)
    requires s.start.Scheduling?
    ensures Rank(checks, DoStart(checks, s)) < Rank(checks, s)
  {
    SpawnRank(s, s.start.i, Recurring, Waiting);
  }

  lemma LaunchingMakesProgress<R>(checks: seq<CheckEntry>, s: State<R>)
    requires s.start.Launching?
    ensures Rank(checks, DoStart(checks, s)) < Rank(checks, s)
  {
    var i := s.start.i;
    if i < |checks| && checks[i].hasChecker {
      SpawnRank(s, i, Startup, if checks[i].staggered then Staggering else Executing);
    }
  }

  lemma StartMakesProgress<R>(checks: seq<CheckEntry>, s: State<R>)
    requires !s.start.Started?
    ensures Rank(checks, Step(checks, s, StartStep)) < Rank(checks, s)
  {
    match s.start
    case Scheduling(_) => SchedulingMakesProgress(checks, s);
    case Launching(_) => LaunchingMakesProgress(checks, s);
  }

  lemma GotoRank<R>(s: State<R>, g: nat, pc: Pc)
    requires g < |s.goroutines| && PcRank(pc) < PcRank(s.goroutines[g].pc)
    ensures Ranks(Goto(s, g, pc).goroutines) < Ranks(s.goroutines)
  {
    RanksUpdate(s.goroutines, g, s.goroutines[g].(pc := pc));
  }

  lemma GoroutineMakesProgress<R>(checks: seq<CheckEntry>, s: State<R>, g: nat, r: R) returns (a: Action<R>)
    requires s.cancelled && g < |s.goroutines| && !s.goroutines[g].pc.Exited?
    ensures Works(a)
    ensures Rank(checks, Step(checks, s, a)) < Rank(checks, s)
    ensures Step(checks, s, a).cancelled
  {
    var x := s.goroutines[g];
    match x.pc {
      case Executing =>
        a := Publish(g, r);
        GotoRank(Send(s, r), g, if x.kind.Recurring? then Waiting else Returning);
      case Returning =>
        a := WgDone(g);
        GotoRank(s, g, Exited);
      case _ =>
        a := SeesCancel(g);
        GotoRank(s, g, Returning);
    }
  }

  lemma SomeStepMakesProgress<R>(checks: seq<CheckEntry>, s: State<R>, r: R) returns (a: Action<R>)
    requires Inv(checks, s) && s.cancelled && !s.closed
    ensures Works(a)
    ensures Rank(checks, Step(checks, s, a)) < Rank(checks, s)
    ensures Step(checks, s, a).cancelled
  {
    if !s.start.Started? {
      a := StartStep;
      StartMakesProgress(checks, s);
    } else if s.wg > 0 {
      var g := SomeoneLive(s.goroutines);
      a := GoroutineMakesProgress(checks, s, g, r);
    } else {
      a := CloserStep;
    }
  }

  /** From every reachable state after cancellation some continuation closes the channel. */
  lemma {:induction false} ShutdownCanComplete<R>(checks: seq<CheckEntry>, s: State<R>, r: R)
    returns (actions: seq<Action<R>>)
    requires Inv(checks, s) && s.cancelled
    ensures Run(checks, s, actions).closed
    decreases Rank(checks, s)
  {
    if s.closed {
      return [];
    }
    var a := SomeStepMakesProgress(checks, s, r);
    StepKeeps(checks, s, a);
    var rest := ShutdownCanComplete(checks, Step(checks, s, a), r);
    actions := [a] + rest;
    assert actions[1..] == rest;
  }

  // ----- Shutdown does complete -----

  /** Steps that lead towards the closed channel: all but a new tick, cancellation itself and consumption. */
  predicate Works<R>(a: Action<R>) {
    !a.Tick? && !a.Cancel? && !a.Consume?
  }

  lemma PublishRank<R>(checks: seq<CheckEntry>, s: State<R>, g: nat, r: R)
    ensures
      var t := Step(checks, s, Publish(g, r));
      t == s || Rank(checks, t) < Rank(checks, s)
  {
    if g < |s.goroutines| && s.goroutines[g].pc.Executing? {
      GotoRank(Send(s, r), g, if s.goroutines[g].kind.Recurring? then Waiting else Returning);
    }
  }

  lemma MoveRank<R>(checks: seq<CheckEntry>, s: State<R>, a: Action<R>)
    requires a.TickFails? || a.StaggerElapses? || a.SeesCancel? || a.WgDone?
    ensures
      var t := Step(checks, s, a);
      t == s || Rank(checks, t) < Rank(checks, s)
  {
    if a.g < |s.goroutines| {
      var pc := s.goroutines[a.g].pc;
      if a.WgDone? && pc.Returning? {
        GotoRank(s, a.g, Exited);
      } else if a.StaggerElapses? && pc.Staggering? {
        GotoRank(s, a.g, Executing);
      } else if (a.TickFails? || a.SeesCancel?) && (pc.Waiting? || pc.Staggering?) {
        GotoRank(s, a.g, Returning);
      }
    }
  }

  lemma TickRank<R>(checks: seq<CheckEntry>, s: State<R>, g: nat)
    ensures Rank(checks, Step(checks, s, Tick(g))) <= Rank(checks, s) + 2
  {
    if g < |s.goroutines| && s.goroutines[g].pc.Waiting? {
      RanksUpdate(s.goroutines, g, s.goroutines[g].(pc := Staggering));
      RanksUpdate(s.goroutines, g, s.goroutines[g].(pc := Executing));
    }
  }

  /** A working step that does anything brings shutdown closer; a tick sets it back by at most two. */
  lemma StepRank<R>(checks: seq<CheckEntry>, s: State<R>, a: Action<R>)
    ensures Works(a) ==> Step(checks, s, a) == s || Rank(checks, Step(checks, s, a)) < Rank(checks, s)
    ensures Rank(checks, Step(checks, s, a)) <= Rank(checks, s) + if a.Tick? then 2 else 0
  {
    match a
    case StartStep =>
      if !s.start.Started? {
        StartMakesProgress(checks, s);
      }
    case Cancel =>
    case Consume =>
    case CloserStep =>
    case Tick(g) => TickRank(checks, s, g);
    case Publish(g, r) => PublishRank(checks, s, g, r);
    case _ => MoveRank(checks, s, a);
  }

  function Ticks<R>(actions: seq<Action<R>>): nat {
    if actions == [] then 0 else (if actions[0].Tick? then 1 else 0) + Ticks(actions[1..])
  }

  /** How many working steps of the schedule do something. */
  ghost function StepsDone<R(!new)>(checks: seq<CheckEntry>, s: State<R>, actions: seq<Action<R>>): nat
    decreases |actions|
  {
    if actions == [] then 0
    else
      (if Works(actions[0]) && Step(checks, s, actions[0]) != s then 1 else 0) +
      StepsDone(checks, Step(checks, s, actions[0]), actions[1..])
  }

  lemma {:induction false} WorkIsBounded<R(!new)>(checks: seq<CheckEntry>, s: State<R>, actions: seq<Action<R>>)
    ensures StepsDone(checks, s, actions) + Rank(checks, Run(checks, s, actions)) <= Rank(checks, s) + 2 * Ticks(actions)
    decreases |actions|
  {
    if actions == [] {
    } else {
      StepRank(checks, s, actions[0]);
      WorkIsBounded(checks, Step(checks, s, actions[0]), actions[1..]);
    }
  }

  /**
   Every schedule: only a bounded number of working steps can do anything, two more for each further
   tick, and the channel is closed once that many have been done. As long as it is open after
   cancellation, some working step can do something. So a schedule that never leaves such a step
   waiting for good closes the channel, unless checks go on ticking forever.
   */
  lemma ShutdownCompletes<R(!new)>(checks: seq<CheckEntry>, s: State<R>, actions: seq<Action<R>>, r: R)
    requires Inv(checks, s) && s.cancelled
    ensures
      var end := Run(checks, s, actions);
      var bound := Rank(checks, s) + 2 * Ticks(actions);
      && StepsDone(checks, s, actions) <= bound
      && (StepsDone(checks, s, actions) == bound ==> end.closed)
      && (end.closed || exists a :: Works(a) && Step(checks, end, a) != end)
  {
    var end := Run(checks, s, actions);
    WorkIsBounded(checks, s, actions);
    RunKeeps(checks, s, actions);
    StaysCancelled(checks, s, actions);
    if !end.closed {
      var a := SomeStepMakesProgress(checks, end, r);
      assert Works(a) && Step(checks, end, a) != end;
    }
  }

  lemma {:induction false} StaysCancelled<R>(checks: seq<CheckEntry>, s: State<R>, actions: seq<Action<R>>)
    requires s.cancelled
    ensures Run(checks, s, actions).cancelled
    decreases |actions|
  {
    if actions == [] {
    } else {
      StaysCancelled(checks, Step(checks, s, actions[0]), actions[1..]);
    }
  }
}
