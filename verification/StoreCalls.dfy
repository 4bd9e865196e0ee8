/**
 What a finished call of the store has done, whatever other threads did meanwhile: a mutation has
 written its view and is reflected in every snapshot served from then on, a Snapshot call has been
 served, a Save has an image.
 */
module StoreCalls {
  import opened Wrappers
  import opened StoreLocks

  predicate Mutation(op: Op) {
    op.Push? || op.RecordBudgetCheck?
  }

  // ----- One step, seen from thread i -----

  ghost predicate Moves<R, B>(s: State<R, B>, a: Action<R, B>, i: nat) {
    a.Exec? && a.i == i && Enabled(s, i)
  }

  /** A thread in the middle of a call only moves by its own steps. */
  lemma ThreadWaits<R, B>(s: State<R, B>, a: Action<R, B>, i: nat)
    requires s.trace != [] && i < |s.threads| && !s.threads[i].Idle() && !Moves(s, a, i)
    ensures |Step(s, a).threads| == |s.threads| && Step(s, a).threads[i] == s.threads[i]
  {
    if a.Exec? && Enabled(s, a.i) {
      OthersStay(s, a.i, a.r, a.b);
    }
  }

  lemma TraceGrows<R, B>(s: State<R, B>, a: Action<R, B>)
    requires s.trace != []
    ensures s.trace <= Step(s, a).trace
  {
    if a.Exec? && Enabled(s, a.i) {
      OwnThread(s, a.i, s.threads[a.i].Next(), a.r, a.b);
    }
  }

  // ----- Mutations -----

  /** The view a mutation with these values writes. */
  function Written<R, B>(op: Op, current: View<R, B>, r: R, b: B): View<R, B> {
    if op.Push? then View(r, current.budgets) else View(current.rings, b)
  }

  lemma MutationStep<R, B>(s: State<R, B>, i: nat, op: Op, r: R, b: B)
    requires s.trace != [] && Mutation(op) && Enabled(s, i) && s.threads[i].task == Doing(op) && s.threads[i].pc <= 1
    ensures
      var t := Step(s, Exec(i, r, b));
      && |t.threads| == |s.threads| && t.threads[i].task == Doing(op) && t.threads[i].pc == s.threads[i].pc + 1
      && (s.threads[i].pc == 1 ==> t.trace == s.trace + [Written(op, Current(s), r, b)])
  {
    OwnThread(s, i, s.threads[i].Next(), r, b);
    assert Program(op)[0].Acquire? && (Program(op)[1] == WriteRings || Program(op)[1] == WriteBudgets);
  }

  /** A mutation that is through has written its view at some step of its own. */
  lemma {:induction false} FindWrite<R, B>(s: State<R, B>, i: nat, op: Op, actions: seq<Action<R, B>>)
    returns (n: nat, r: R, b: B)
    requires Inv(s) && Mutation(op) && i < |s.threads| && s.threads[i].task == Doing(op) && s.threads[i].pc <= 1
    requires i < |Run(s, actions).threads| && Run(s, actions).threads[i].Idle()
    ensures n < |actions| && actions[n] == Exec(i, r, b)
    ensures
      var a := Run(s, actions[..n]);
      && Inv(a) && Enabled(a, i) && a.threads[i].task == Doing(op) && a.threads[i].pc == 1
    decreases |actions|
  {
    if actions == [] {
      assert false;
    } else {
      var x := actions[0];
      StepKeeps(s, x);
      if Moves(s, x, i) && s.threads[i].pc == 1 {
        n, r, b := 0, x.r, x.b;
        assert actions[..0] == [];
      } else {
        if Moves(s, x, i) {
          MutationStep(s, i, op, x.r, x.b);
        } else {
          ThreadWaits(s, x, i);
        }
        n, r, b := FindWrite(Step(s, x), i, op, actions[1..]);
        n := n + 1;
        assert actions[..n][1..] == actions[1..][..n - 1];
      }
    }
  }

  /** The mutation of thread i has written view w and not yet cleared the cache. */
  ghost predicate Underway<R, B>(s: State<R, B>, i: nat, op: Op, w: nat) {
    && i < |s.threads| && s.threads[i].task == Doing(op) && 2 <= s.threads[i].pc <= 3
    && NoOldPending(s, w)
  }

  /** Nothing older than w is cached or on its way into the cache. */
  ghost predicate Settled<R, B>(s: State<R, B>, w: nat) {
    NoOldCaptured(s, w) && CacheFrom(s, w)
  }

  lemma UnderwayStep<R, B>(s: State<R, B>, a: Action<R, B>, i: nat, op: Op, w: nat)
    requires Inv(s) && w < |s.trace| && Mutation(op) && Underway(s, i, op, w)
    ensures Underway(Step(s, a), i, op, w) || Settled(Step(s, a), w)
  {
    PendingStep(s, a, w);
    if !Moves(s, a, i) {
      ThreadWaits(s, a, i);
    } else if s.threads[i].pc == 2 {
      OwnThread(s, i, s.threads[i].Next(), a.r, a.b);
      assert Program(op)[2].Acquire?;
    } else {
      assert Program(op)[3] == ClearCache;
      ClearingMeansNoneStoring(s, i, w);
    }
  }

  lemma SettledStep<R, B>(s: State<R, B>, a: Action<R, B>, w: nat)
    requires Inv(s) && w < |s.trace| && Settled(s, w)
    ensures Settled(Step(s, a), w)
  {
    PendingStep(s, a, w);
    ServedStep(s, a, w);
  }

  lemma {:induction false} SettlesWhenDone<R, B>(s: State<R, B>, actions: seq<Action<R, B>>, i: nat, op: Op, w: nat)
    requires Inv(s) && w < |s.trace| && Mutation(op) && (Underway(s, i, op, w) || Settled(s, w))
    requires i < |Run(s, actions).threads| && Run(s, actions).threads[i].Idle()
    ensures Inv(Run(s, actions)) && w < |Run(s, actions).trace| && Settled(Run(s, actions), w)
    decreases |actions|
  {
    if actions == [] {
    } else {
      var t := Step(s, actions[0]);
      StepKeeps(s, actions[0]);
      TraceGrows(s, actions[0]);
      if Settled(s, w) {
        SettledStep(s, actions[0], w);
      } else {
        UnderwayStep(s, actions[0], i, op, w);
      }
      SettlesWhenDone(t, actions[1..], i, op, w);
    }
  }

  lemma FirstAction<R, B>(s: State<R, B>, a: Action<R, B>, rest: seq<Action<R, B>>)
    requires s.trace != []
    ensures Run(s, [a] + rest) == Run(Step(s, a), rest)
  {
    assert ([a] + rest)[1..] == rest;
  }

  /**
   A thread begins a Push or a RecordBudgetCheck and has finished after the actions. Then one of its own
   steps has added its view to the states of the store; and if at that moment no older computation was
   pending, every snapshot served after the call has finished shows that view or a later one.
   */
  lemma FinishedMutationIsReflected<R, B>(
    s: State<R, B>, i: nat, op: Op, actions: seq<Action<R, B>>, after: seq<Action<R, B>>)
    returns (n: nat, r: R, b: B)
    requires Inv(s) && i < |s.threads| && s.threads[i].Idle() && Mutation(op)
    requires
      var done := Run(s, [Begin(i, op)] + actions);
      i < |done.threads| && done.threads[i].Idle()
    ensures n < |actions| && actions[n] == Exec(i, r, b)
    ensures
      var a, t := Run(s, [Begin(i, op)] + actions[..n]), Run(s, [Begin(i, op)] + actions[..n + 1]);
      var done := Run(s, [Begin(i, op)] + actions);
      var later := Run(done, after);
      && t.trace == a.trace + [Written(op, Current(a), r, b)]
      && (NoOldPending(t, |a.trace|) ==>
            |done.served| <= |later.served| &&
            forall k :: |done.served| <= k < |later.served| ==> later.served[k].instant >= |a.trace|)
  {
    var s1 := Step(s, Begin(i, op));
    StepKeeps(s, Begin(i, op));
    FirstAction(s, Begin(i, op), actions);
    n, r, b := FindWrite(s1, i, op, actions);
    FirstAction(s, Begin(i, op), actions[..n]);
    FirstAction(s, Begin(i, op), actions[..n + 1]);
    FromWriteOn(s1, i, op, actions, n, r, b, after);
  }

  lemma RunOne<R, B>(s: State<R, B>, a: Action<R, B>)
    requires s.trace != []
    ensures Run(s, [a]) == Step(s, a)
  {
    assert [a][1..] == [];
    assert Run(s, [a]) == Run(Step(s, a), []);
  }

  lemma RunSplit<R, B>(s: State<R, B>, actions: seq<Action<R, B>>, n: nat)
    requires s.trace != [] && n < |actions|
    ensures Run(s, actions[..n + 1]) == Step(Run(s, actions[..n]), actions[n])
    ensures Run(s, actions) == Run(Run(s, actions[..n + 1]), actions[n + 1..])
  {
    assert actions[..n + 1] == actions[..n] + [actions[n]];
    RunConcat(s, actions[..n], [actions[n]]);
    RunOne(Run(s, actions[..n]), actions[n]);
    assert actions == actions[..n + 1] + actions[n + 1..];
    RunConcat(s, actions[..n + 1], actions[n + 1..]);
  }

  lemma FromWriteOn<R, B>(
    s: State<R, B>, i: nat, op: Op, actions: seq<Action<R, B>>, n: nat, r: R, b: B, after: seq<Action<R, B>>)
    requires Inv(s) && Mutation(op) && n < |actions| && actions[n] == Exec(i, r, b)
    requires
      var a := Run(s, actions[..n]);
      Inv(a) && Enabled(a, i) && a.threads[i].task == Doing(op) && a.threads[i].pc == 1
    requires i < |Run(s, actions).threads| && Run(s, actions).threads[i].Idle()
    ensures
      var a, t, done := Run(s, actions[..n]), Run(s, actions[..n + 1]), Run(s, actions);
      var later := Run(done, after);
      && t.trace == a.trace + [Written(op, Current(a), r, b)]
      && (NoOldPending(t, |a.trace|) ==>
            |done.served| <= |later.served| &&
            forall k :: |done.served| <= k < |later.served| ==> later.served[k].instant >= |a.trace|)
  {
    var a, t := Run(s, actions[..n]), Run(s, actions[..n + 1]);
    RunSplit(s, actions, n);
    MutationStep(a, i, op, r, b);
    StepKeeps(a, Exec(i, r, b));
    if NoOldPending(t, |a.trace|) {
      SettlesWhenDone(t, actions[n + 1..], i, op, |a.trace|);
      ServedFrom(Run(s, actions), after, |a.trace|);
    }
  }

  // ----- Snapshot calls -----

  /** A Snapshot call on its way: what it has captured, if anything, is no older than `from`. */
  ghost predicate Asking<R, B>(s: State<R, B>, i: nat, from: nat) {
    && i < |s.threads| && s.threads[i].task == Doing(Snapshot) && s.threads[i].pc <= 10
    && from < |s.trace|
    && (s.threads[i].pc >= 6 ==> s.threads[i].locals.instant >= from)
  }

  /** The step hands thread i's caller one snapshot: a cached one, or one no older than `from`. */
  ghost predicate Serves<R, B>(s: State<R, B>, t: State<R, B>, from: nat) {
    && |t.served| == |s.served| + 1 && t.served[..|s.served|] == s.served
    && var e := t.served[|s.served|];
    && e.at == s.now
    && (if e.storedAt.Some?
        then s.cache.Some? && e.view == s.cache.value.view && e.instant == s.cache.value.instant &&
             e.storedAt.value == s.cache.value.storedAt && s.now - e.storedAt.value < 2_000_000_000
        else e.instant >= from)
  }

  lemma AskingStep<R, B>(s: State<R, B>, i: nat, from: nat, r: R, b: B)
    requires Inv(s) && Asking(s, i, from) && Enabled(s, i)
    ensures
      var t := Step(s, Exec(i, r, b));
      Asking(t, i, from) || Serves(s, t, from)
  {
    var instr := s.threads[i].Next();
    NextFits(s.threads[i]);
    OwnThread(s, i, instr, r, b);
    assert LocalInv(s, s.threads[i]);
  }

  /** A Snapshot call that is through has been answered by a step of its own. */
  lemma {:induction false} FindAnswer<R, B>(s: State<R, B>, i: nat, from: nat, actions: seq<Action<R, B>>) returns (n: nat)
    requires Inv(s) && Asking(s, i, from)
    requires i < |Run(s, actions).threads| && Run(s, actions).threads[i].Idle()
    ensures n < |actions| && actions[n].Exec? && actions[n].i == i
    ensures Serves(Run(s, actions[..n]), Step(Run(s, actions[..n]), actions[n]), from)
    decreases |actions|
  {
    if actions == [] {
      assert false;
    } else {
      var x := actions[0];
      StepKeeps(s, x);
      TraceGrows(s, x);
      if Moves(s, x, i) {
        AskingStep(s, i, from, x.r, x.b);
      } else {
        ThreadWaits(s, x, i);
      }
      if Moves(s, x, i) && Serves(s, Step(s, x), from) {
        n := 0;
        assert actions[..0] == [];
      } else {
        n := FindAnswer(Step(s, x), i, from, actions[1..]);
        n := n + 1;
        assert actions[..n][1..] == actions[1..][..n - 1];
      }
    }
  }

  /**
   A finished Snapshot call has been handed a snapshot by one of its own steps: the valid cached one, or
   one whose instant is no older than the state in which the call began.
   */
  lemma FinishedSnapshotIsServed<R, B>(s: State<R, B>, i: nat, actions: seq<Action<R, B>>) returns (n: nat)
    requires Inv(s) && i < |s.threads| && s.threads[i].Idle()
    requires
      var done := Run(s, [Begin(i, Snapshot)] + actions);
      i < |done.threads| && done.threads[i].Idle()
    ensures n < |actions| && actions[n].Exec? && actions[n].i == i
    ensures
      Serves(Run(s, [Begin(i, Snapshot)] + actions[..n]), Run(s, [Begin(i, Snapshot)] + actions[..n + 1]), |s.trace| - 1)
  {
    var s1 := Step(s, Begin(i, Snapshot));
    StepKeeps(s, Begin(i, Snapshot));
    FirstAction(s, Begin(i, Snapshot), actions);
    n := FindAnswer(s1, i, |s.trace| - 1, actions);
    FirstAction(s, Begin(i, Snapshot), actions[..n]);
    FirstAction(s, Begin(i, Snapshot), actions[..n + 1]);
    RunSplit(s1, actions, n);
  }

  // ----- Saves -----

  ghost predicate Saving<R, B>(s: State<R, B>, i: nat, from: nat) {
    && i < |s.threads| && s.threads[i].task == Doing(Save) && s.threads[i].pc <= 4
    && from < |s.trace|
    && (s.threads[i].pc >= 2 ==> s.threads[i].locals.ringsAt >= from)
  }

  ghost predicate Saves<R, B>(s: State<R, B>, t: State<R, B>, from: nat) {
    && |t.images| == |s.images| + 1 && t.images[..|s.images|] == s.images
    && t.images[|s.images|].ringsAt >= from
  }

  lemma SavingStep<R, B>(s: State<R, B>, i: nat, from: nat, r: R, b: B)
    requires Inv(s) && Saving(s, i, from) && Enabled(s, i)
    ensures
      var t := Step(s, Exec(i, r, b));
      Saving(t, i, from) || Saves(s, t, from)
  {
    var instr := s.threads[i].Next();
    NextFits(s.threads[i]);
    OwnThread(s, i, instr, r, b);
    assert LocalInv(s, s.threads[i]);
  }

  lemma {:induction false} FindImage<R, B>(s: State<R, B>, i: nat, from: nat, actions: seq<Action<R, B>>) returns (n: nat)
    requires Inv(s) && Saving(s, i, from)
    requires i < |Run(s, actions).threads| && Run(s, actions).threads[i].Idle()
    ensures n < |actions| && actions[n].Exec? && actions[n].i == i
    ensures Saves(Run(s, actions[..n]), Step(Run(s, actions[..n]), actions[n]), from)
    decreases |actions|
  {
    if actions == [] {
      assert false;
    } else {
      var x := actions[0];
      StepKeeps(s, x);
      TraceGrows(s, x);
      if Moves(s, x, i) {
        SavingStep(s, i, from, x.r, x.b);
      } else {
        ThreadWaits(s, x, i);
      }
      if Moves(s, x, i) && Saves(s, Step(s, x), from) {
        n := 0;
        assert actions[..0] == [];
      } else {
        n := FindImage(Step(s, x), i, from, actions[1..]);
        n := n + 1;
        assert actions[..n][1..] == actions[1..][..n - 1];
      }
    }
  }

  /** A finished Save has produced one image, read no earlier than the state in which it began. */
  lemma FinishedSaveHasImage<R, B>(s: State<R, B>, i: nat, actions: seq<Action<R, B>>) returns (n: nat)
    requires Inv(s) && i < |s.threads| && s.threads[i].Idle()
    requires
      var done := Run(s, [Begin(i, Save)] + actions);
      i < |done.threads| && done.threads[i].Idle()
    ensures n < |actions| && actions[n].Exec? && actions[n].i == i
    ensures Saves(Run(s, [Begin(i, Save)] + actions[..n]), Run(s, [Begin(i, Save)] + actions[..n + 1]), |s.trace| - 1)
  {
    var s1 := Step(s, Begin(i, Save));
    StepKeeps(s, Begin(i, Save));
    FirstAction(s, Begin(i, Save), actions);
    n := FindImage(s1, i, |s.trace| - 1, actions);
    FirstAction(s, Begin(i, Save), actions[..n]);
    FirstAction(s, Begin(i, Save), actions[..n + 1]);
    RunSplit(s1, actions, n);
  }

  // ----- The clock -----

  function Elapsed<R, B>(actions: seq<Action<R, B>>): nat {
    if actions == [] then 0 else (if actions[0].Tick? then actions[0].d else 0) + Elapsed(actions[1..])
  }

  /** The clock shows the time that has passed, whatever the threads do. */
  lemma {:induction false} ClockRuns<R, B>(s: State<R, B>, actions: seq<Action<R, B>>)
    requires s.trace != []
    ensures Run(s, actions).now == s.now + Elapsed(actions)
    decreases |actions|
  {
    if actions == [] {
    } else {
      ClockStep(s, actions[0]);
      ClockRuns(Step(s, actions[0]), actions[1..]);
    }
  }

  lemma ClockStep<R, B>(s: State<R, B>, a: Action<R, B>)
    requires s.trace != []
    ensures Step(s, a).now == s.now + if a.Tick? then a.d else 0
  {
  }

  /** So two seconds after a snapshot was cached no call is answered with it. */
  lemma CacheExpires<R, B>(s: State<R, B>, actions: seq<Action<R, B>>)
    requires s.trace != [] && s.cache.Some? && s.now >= s.cache.value.storedAt
    requires Elapsed(actions) >= 2_000_000_000 && Run(s, actions).cache == s.cache
    ensures !CacheValid(Run(s, actions))
  {
    ClockRuns(s, actions);
  }
}
