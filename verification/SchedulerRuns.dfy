/**
 What the scheduler does for each check: which goroutines Start creates, when a check begins to
 execute, when a loop ends, and which results are dropped.
 */
module SchedulerRuns {
  import opened Scheduler

  // ----- Which goroutines there are -----

  ghost predicate Has(gs: seq<Goroutine>, i: nat, kind: Kind) {
    exists g :: 0 <= g < |gs| && gs[g].entry == i && gs[g].kind == kind
  }

  /** How many entries Start has considered for a loop, and for a startup run. */
  function Considered(start: StartPc, kind: Kind, n: nat): nat {
    match start
    case Scheduling(i) => if kind.Recurring? then i else 0
    case Launching(i) => if kind.Recurring? then n else i
    case Started => n
  }

  predicate Wants(c: CheckEntry, kind: Kind) {
    c.hasChecker && (kind.Recurring? ==> c.validSchedule)
  }

  /** There is a goroutine of a kind for an entry exactly if Start has considered the entry and it wants one. */
  ghost predicate Roster(checks: seq<CheckEntry>, start: StartPc, gs: seq<Goroutine>) {
    forall i: nat, kind: Kind :: i < |checks| ==>
      (Has(gs, i, kind) <==> i < Considered(start, kind, |checks|) && Wants(checks[i], kind))
  }

  lemma HasAppended(gs: seq<Goroutine>, x: Goroutine, i: nat, kind: Kind)
    ensures Has(gs + [x], i, kind) <==> Has(gs, i, kind) || (x.entry == i && x.kind == kind)
  {
    if Has(gs, i, kind) {
      var g :| 0 <= g < |gs| && gs[g].entry == i && gs[g].kind == kind;
      assert (gs + [x])[g] == gs[g];
    }
    if x.entry == i && x.kind == kind {
      assert (gs + [x])[|gs|] == x;
    }
  }

  lemma HasMoved(gs: seq<Goroutine>, g: nat, pc: Pc, i: nat, kind: Kind)
    requires g < |gs|
    ensures Has(gs[g := gs[g].(pc := pc)], i, kind) <==> Has(gs, i, kind)
  {
    var gs' := gs[g := gs[g].(pc := pc)];
    if Has(gs, i, kind) {
      var h :| 0 <= h < |gs| && gs[h].entry == i && gs[h].kind == kind;
      assert gs'[h].entry == i && gs'[h].kind == kind;
    }
    if Has(gs', i, kind) {
      var h :| 0 <= h < |gs'| && gs'[h].entry == i && gs'[h].kind == kind;
      assert gs[h].entry == i && gs[h].kind == kind;
    }
  }

  lemma StartKeepsRoster<R>(checks: seq<CheckEntry>, s: State<R>)
    requires Roster(checks, s.start, s.goroutines)
    ensures Roster(checks, DoStart(checks, s).start, DoStart(checks, s).goroutines)
  {
    var t := DoStart(checks, s);
    forall i: nat, kind: Kind | i < |checks|
      ensures Has(t.goroutines, i, kind) <==> i < Considered(t.start, kind, |checks|) && Wants(checks[i], kind)
    {
      if t.goroutines != s.goroutines {
        HasAppended(s.goroutines, t.goroutines[|s.goroutines|], i, kind);
      }
    }
  }

  lemma MovesKeepRoster<R>(checks: seq<CheckEntry>, s: State<R>, t: State<R>, g: nat, pc: Pc)
    requires Roster(checks, s.start, s.goroutines) && g < |s.goroutines|
    requires t.start == s.start && t.goroutines == s.goroutines[g := s.goroutines[g].(pc := pc)]
    ensures Roster(checks, t.start, t.goroutines)
  {
    forall i: nat, kind: Kind | i < |checks|
      ensures Has(t.goroutines, i, kind) <==> Has(s.goroutines, i, kind)
    {
      HasMoved(s.goroutines, g, pc, i, kind);
    }
  }

  lemma StepKeepsRoster<R>(checks: seq<CheckEntry>, s: State<R>, a: Action<R>)
    requires Roster(checks, s.start, s.goroutines)
    ensures Roster(checks, Step(checks, s, a).start, Step(checks, s, a).goroutines)
  {
    var t := Step(checks, s, a);
    if a.StartStep? {
      StartKeepsRoster(checks, s);
    } else if t.goroutines != s.goroutines {
      MovesKeepRoster(checks, s, t, a.g, t.goroutines[a.g].pc);
    }
  }

  lemma {:induction false} RunKeepsRoster<R>(checks: seq<CheckEntry>, s: State<R>, actions: seq<Action<R>>)
    requires Roster(checks, s.start, s.goroutines)
    ensures Roster(checks, Run(checks, s, actions).start, Run(checks, s, actions).goroutines)
    decreases |actions|
  {
    if actions == [] {
    } else {
      StepKeepsRoster(checks, s, actions[0]);
      RunKeepsRoster(checks, Step(checks, s, actions[0]), actions[1..]);
    }
  }

  /**
   In every run in which Start has returned: an entry has a loop if and only if it has a checker and a
   valid schedule, a startup run if and only if it has a checker, and never two of a kind.
   */
  lemma StartedChecksHaveGoroutines<R>(checks: seq<CheckEntry>, actions: seq<Action<R>>, i: nat)
    requires i < |checks|
    ensures
      var s := Run(checks, Initial(), actions);
      s.start.Started? ==>
        && (Has(s.goroutines, i, Recurring) <==> checks[i].hasChecker && checks[i].validSchedule)
        && (Has(s.goroutines, i, Startup) <==> checks[i].hasChecker)
        && forall g, h :: 0 <= g < h < |s.goroutines| && s.goroutines[g].entry == i == s.goroutines[h].entry ==>
             s.goroutines[g].kind != s.goroutines[h].kind
  {
    var s0: State<R> := Initial();
    RunKeepsRoster(checks, s0, actions);
    RunKeeps(checks, s0, actions);
  }

  // ----- When a check executes and when its goroutine ends -----

  /** Only staggered checks wait for a stagger delay, and a startup run never waits for a tick. */
  ghost predicate Shaped(checks: seq<CheckEntry>, gs: seq<Goroutine>) {
    forall g :: 0 <= g < |gs| ==>
      && gs[g].entry < |checks|
      && (gs[g].pc.Staggering? ==> checks[gs[g].entry].staggered)
      && (gs[g].kind.Startup? ==> !gs[g].pc.Waiting?)
  }

  /** How one goroutine moves: the action is its own, and leads from its old place to the new one. */
  predicate Moves<R>(checks: seq<CheckEntry>, s: State<R>, a: Action<R>, x: Goroutine, g: nat, pc: Pc) {
    match a
    case TickFails(h) => h == g && x.pc.Waiting? && pc.Returning?
    case Tick(h) =>
      h == g && x.pc.Waiting? && x.entry < |checks| && pc == if checks[x.entry].staggered then Staggering else Executing
    case StaggerElapses(h) => h == g && x.pc.Staggering? && pc.Executing?
    case SeesCancel(h) => h == g && s.cancelled && (x.pc.Waiting? || x.pc.Staggering?) && pc.Returning?
    case Publish(h, _) => h == g && x.pc.Executing? && pc == if x.kind.Recurring? then Waiting else Returning
    case WgDone(h) => h == g && x.pc.Returning? && pc.Exited?
    case _ => false
  }

  lemma OneMoves<R>(checks: seq<CheckEntry>, s: State<R>, a: Action<R>)
    requires !a.StartStep?
    ensures
      var gs, gs' := s.goroutines, Step(checks, s, a).goroutines;
      gs' == gs ||
      (exists g: nat, pc: Pc :: g < |gs| && Moves(checks, s, a, gs[g], g, pc) && gs' == gs[g := gs[g].(pc := pc)])
  {
    var gs, gs' := s.goroutines, Step(checks, s, a).goroutines;
    if gs' != gs {
      var g, pc := a.g, gs'[a.g].pc;
      assert Moves(checks, s, a, gs[g], g, pc) && gs' == gs[g := gs[g].(pc := pc)];
    }
  }

  /** Start adds at most one goroutine, which waits, staggers or executes at once. */
  lemma StartAdds<R>(checks: seq<CheckEntry>, s: State<R>)
    ensures
      var gs, gs' := s.goroutines, DoStart(checks, s).goroutines;
      gs' == gs ||
      (exists x: Goroutine :: gs' == gs + [x] && x.entry < |checks| &&
         x.pc == if x.kind.Recurring? then Waiting else if checks[x.entry].staggered then Staggering else Executing)
  {
    var gs, gs' := s.goroutines, DoStart(checks, s).goroutines;
    if gs' != gs {
      assert gs' == gs + [gs'[|gs|]];
    }
  }

  lemma StepKeepsShape<R>(checks: seq<CheckEntry>, s: State<R>, a: Action<R>)
    requires Shaped(checks, s.goroutines)
    ensures Shaped(checks, Step(checks, s, a).goroutines)
  {
    if a.StartStep? {
      StartAdds(checks, s);
    } else {
      OneMoves(checks, s, a);
    }
  }

  lemma {:induction false} RunKeepsShape<R>(checks: seq<CheckEntry>, s: State<R>, actions: seq<Action<R>>)
    requires Shaped(checks, s.goroutines)
    ensures Shaped(checks, Run(checks, s, actions).goroutines)
    decreases |actions|
  {
    if actions == [] {
    } else {
      StepKeepsShape(checks, s, actions[0]);
      RunKeepsShape(checks, Step(checks, s, actions[0]), actions[1..]);
    }
  }

  predicate IsExecuting(gs: seq<Goroutine>, g: nat) {
    g < |gs| && gs[g].pc.Executing?
  }

  /**
   In every run, when a goroutine begins to execute its check: if the check has a stagger delay, that
   is because the delay has elapsed; otherwise it is a tick of its loop or its start.
   */
  lemma ExecutionFollowsStagger<R>(checks: seq<CheckEntry>, actions: seq<Action<R>>, a: Action<R>, g: nat)
    ensures
      var s := Run(checks, Initial(), actions);
      var t := Step(checks, s, a);
      IsExecuting(t.goroutines, g) && !IsExecuting(s.goroutines, g) ==>
        && t.goroutines[g].entry < |checks|
        && (if checks[t.goroutines[g].entry].staggered then a == StaggerElapses(g) else a == Tick(g) || a.StartStep?)
  {
    var s0: State<R> := Initial();
    RunKeepsShape(checks, s0, actions);
    BeginsExecuting(checks, Run(checks, s0, actions), a, g);
  }

  lemma BeginsExecuting<R>(checks: seq<CheckEntry>, s: State<R>, a: Action<R>, g: nat)
    requires Shaped(checks, s.goroutines)
    ensures
      var t := Step(checks, s, a);
      IsExecuting(t.goroutines, g) && !IsExecuting(s.goroutines, g) ==>
        && t.goroutines[g].entry < |checks|
        && (if checks[t.goroutines[g].entry].staggered then a == StaggerElapses(g) else a == Tick(g) || a.StartStep?)
  {
    if a.StartStep? {
      StartAdds(checks, s);
    } else {
      OneMoves(checks, s, a);
    }
  }

  predicate Gone(x: Goroutine) {
    x.pc.Returning? || x.pc.Exited?
  }

  /** A loop ends only by a schedule that has no next time or by cancellation; a startup run also by publishing. */
  lemma WhyGoroutinesEnd<R>(checks: seq<CheckEntry>, s: State<R>, a: Action<R>, g: nat)
    requires g < |s.goroutines| && !Gone(s.goroutines[g])
    ensures
      var t := Step(checks, s, a);
      g < |t.goroutines| &&
      (Gone(t.goroutines[g]) ==>
        || a == TickFails(g)
        || (a == SeesCancel(g) && s.cancelled)
        || (a.Publish? && a.g == g && s.goroutines[g].kind.Startup?))
  {
    if a.StartStep? {
      StartAdds(checks, s);
    } else {
      OneMoves(checks, s, a);
    }
  }

  /** The results goroutine g publishes in a run. */
  function PublishedBy<R>(checks: seq<CheckEntry>, s: State<R>, actions: seq<Action<R>>, g: nat): nat
    decreases |actions|
  {
    if actions == [] then 0
    else
      (if actions[0].Publish? && actions[0].g == g && IsExecuting(s.goroutines, g) then 1 else 0) +
      PublishedBy(checks, Step(checks, s, actions[0]), actions[1..], g)
  }

  /** Whether goroutine g may still publish as a startup run. */
  predicate Pending(gs: seq<Goroutine>, g: nat) {
    g < |gs| && gs[g].kind.Startup? ==> gs[g].pc.Staggering? || gs[g].pc.Executing?
  }

  lemma StartupStep<R>(checks: seq<CheckEntry>, s: State<R>, a: Action<R>, g: nat)
    requires Shaped(checks, s.goroutines)
    ensures
      var t := Step(checks, s, a);
      && |s.goroutines| <= |t.goroutines|
      && (g < |s.goroutines| ==> t.goroutines[g].kind == s.goroutines[g].kind)
      && (g < |s.goroutines| && s.goroutines[g].kind.Startup? && Pending(t.goroutines, g) ==>
            Pending(s.goroutines, g) && !(a.Publish? && a.g == g && IsExecuting(s.goroutines, g)))
  {
    if a.StartStep? {
      StartAdds(checks, s);
    } else {
      OneMoves(checks, s, a);
    }
  }

  lemma {:induction false} StartupPublishesOnce<R>(checks: seq<CheckEntry>, s: State<R>, actions: seq<Action<R>>, g: nat)
    requires Shaped(checks, s.goroutines)
    ensures
      var end := Run(checks, s, actions).goroutines;
      g < |end| && end[g].kind.Startup? ==>
        PublishedBy(checks, s, actions, g) + (if Pending(end, g) then 1 else 0) <= if Pending(s.goroutines, g) then 1 else 0
    ensures g < |s.goroutines| ==>
      g < |Run(checks, s, actions).goroutines| && Run(checks, s, actions).goroutines[g].kind == s.goroutines[g].kind
    decreases |actions|
  {
    if actions == [] {
    } else {
      StartupStep(checks, s, actions[0], g);
      StepKeepsShape(checks, s, actions[0]);
      StartupPublishesOnce(checks, Step(checks, s, actions[0]), actions[1..], g);
    }
  }

  /** In every run a startup run publishes at most one result. */
  lemma StartupRunsOnce<R>(checks: seq<CheckEntry>, actions: seq<Action<R>>, g: nat)
    ensures
      var end := Run(checks, Initial(), actions).goroutines;
      g < |end| && end[g].kind.Startup? ==> PublishedBy(checks, Initial(), actions, g) <= 1
  {
    StartupPublishesOnce(checks, Initial(), actions, g);
  }

  // ----- Results -----

  /**
   In every run, when a check publishes its result: it is dropped exactly when 100 results are buffered,
   and is otherwise the newest in the channel. Consuming takes the oldest.
   */
  lemma DroppedIffFull<R>(checks: seq<CheckEntry>, actions: seq<Action<R>>, g: nat, r: R)
    ensures
      var s := Run(checks, Initial(), actions);
      var t := Step(checks, s, Publish(g, r));
      IsExecuting(s.goroutines, g) ==>
        && t.produced == s.produced + [r]
        && (|s.channel| == 100 ==> t.dropped == s.dropped + [r] && t.channel == s.channel)
        && (|s.channel| != 100 ==> t.dropped == s.dropped && t.channel == s.channel + [r])
  {
    var s0: State<R> := Initial();
    RunKeeps(checks, s0, actions);
    var s := Run(checks, s0, actions);
    if IsExecuting(s.goroutines, g) {
      LiveMeansOpen(checks, s, g);
    }
  }

  lemma ConsumesOldest<R>(checks: seq<CheckEntry>, s: State<R>)
    ensures
      var t := Step(checks, s, Consume);
      if s.channel == [] then t == s
      else t.consumed == s.consumed + [s.channel[0]] && t.channel == s.channel[1..]
  {
  }

  // ----- A loop goes on, and ends -----

  /** One round of a loop: the tick, the stagger delay if there is one, and the result. */
  function Round<R>(staggered: bool, g: nat, r: R): seq<Action<R>> {
    [Tick(g)] + (if staggered then [StaggerElapses(g)] else []) + [Publish(g, r)]
  }

  lemma RunTwo<R>(checks: seq<CheckEntry>, s: State<R>, a: Action<R>, b: Action<R>)
    ensures Run(checks, s, [a] + [b]) == Step(checks, Step(checks, s, a), b)
  {
    assert ([a] + [b])[1..] == [b] && [b][1..] == [];
    assert Run(checks, Step(checks, s, a), [b]) == Run(checks, Step(checks, Step(checks, s, a), b), []);
  }

  lemma RunThree<R>(checks: seq<CheckEntry>, s: State<R>, a: Action<R>, b: Action<R>, c: Action<R>)
    ensures Run(checks, s, [a] + [b] + [c]) == Step(checks, Step(checks, Step(checks, s, a), b), c)
  {
    assert ([a] + [b] + [c])[1..] == [b] + [c];
    RunTwo(checks, Step(checks, s, a), b, c);
  }

  /** In every run a waiting loop can execute its check once more: the result is produced and the loop waits again. */
  lemma LoopGoesOn<R>(checks: seq<CheckEntry>, actions: seq<Action<R>>, g: nat, r: R)
    ensures
      var s := Run(checks, Initial(), actions);
      g < |s.goroutines| && s.goroutines[g].kind.Recurring? && s.goroutines[g].pc.Waiting? ==>
        && s.goroutines[g].entry < |checks|
        && var t := Run(checks, s, Round(checks[s.goroutines[g].entry].staggered, g, r));
           t.produced == s.produced + [r] && t.goroutines == s.goroutines
  {
    var s0: State<R> := Initial();
    RunKeepsShape(checks, s0, actions);
    var s := Run(checks, s0, actions);
    if g < |s.goroutines| && s.goroutines[g].kind.Recurring? && s.goroutines[g].pc.Waiting? {
      OneRound(checks, s, g, r);
    }
  }

  lemma OneRound<R>(checks: seq<CheckEntry>, s: State<R>, g: nat, r: R)
    requires g < |s.goroutines| && s.goroutines[g].kind.Recurring? && s.goroutines[g].pc.Waiting?
    requires s.goroutines[g].entry < |checks|
    ensures
      var t := Run(checks, s, Round(checks[s.goroutines[g].entry].staggered, g, r));
      t.produced == s.produced + [r] && t.goroutines == s.goroutines
  {
    if checks[s.goroutines[g].entry].staggered {
      RunThree(checks, s, Tick(g), StaggerElapses(g), Publish(g, r));
    } else {
      assert [Tick(g)] + [] + [Publish(g, r)] == [Tick(g)] + [Publish(g, r)];
      RunTwo(checks, s, Tick(g), Publish(g, r));
    }
  }

  /** A waiting loop ends when its schedule has no next time, and after cancellation; it then leaves the group. */
  lemma LoopEnds<R>(checks: seq<CheckEntry>, s: State<R>, g: nat)
    requires g < |s.goroutines| && s.goroutines[g].pc.Waiting?
    ensures Step(checks, s, TickFails(g)).goroutines[g].pc.Returning?
    ensures s.cancelled ==> Step(checks, s, SeesCancel(g)).goroutines[g].pc.Returning?
    ensures
      var t := Step(checks, Step(checks, s, TickFails(g)), WgDone(g));
      t.goroutines[g].pc.Exited? && t.wg == s.wg - 1
  {
  }

  /** However a run has gone: once the context is cancelled, some continuation closes the channel. */
  lemma CancelLeadsToClose<R>(checks: seq<CheckEntry>, actions: seq<Action<R>>, r: R) returns (more: seq<Action<R>>)
    ensures Run(checks, Step(checks, Run(checks, Initial(), actions), Cancel), more).closed
  {
    var s0: State<R> := Initial();
    RunKeeps(checks, s0, actions);
    var s := Run(checks, s0, actions);
    StepKeeps(checks, s, Cancel);
    more := ShutdownCanComplete(checks, Step(checks, s, Cancel), r);
  }
}
