/**
 The long-term history writer: a bounded queue, a batching writer goroutine, transactional flushes
 that commit or fail as a whole, retention pruning, and a final drain on Close.
 */
module History {
  import opened Wrappers
  import opened Check
  import opened Seqs

  const BUFFER_SIZE: nat := 1024
  const BATCH_SIZE: nat := 100

  datatype Flush = Flush(batch: seq<Result>, committed: bool)

  datatype Phase = Running | Draining | Stopped

  /**
   `rows` is the table. The last four fields only record what happened: every result the queue took,
   every flush in order, how many results had been taken when Close began, and the newest cutoff.
   */
  datatype State = State(
    queue: seq<Result>, batch: seq<Result>, rows: seq<Result>, phase: Phase, closing: bool,
    accepted: seq<Result>, flushes: seq<Flush>, acceptedAtClose: nat, cutoff: Option<int>)

  const INITIAL := State([], [], [], Running, false, [], [], 0, None)

  /** The ts column: Unix milliseconds. */
  function Millis(r: Result): int {
    r.timestamp / NANOS_PER_MILLI
  }

  /** Rows at or after the cutoff, in order. */
  function Recent(rows: seq<Result>, cutoff: int): seq<Result> {
    if rows == [] then []
    else Recent(rows[..|rows| - 1], cutoff) + (if Millis(rows[|rows| - 1]) >= cutoff then [rows[|rows| - 1]] else [])
  }

  // ----- Steps -----

  /**
   Record may happen at any time, also during and after Close. Receive, FlushTick, Prune and SeeDone
   are the branches of the writer's select; DrainOne and DrainEnd are its final loop. The flag says
   whether a flush in that step commits.
   */
  datatype Action =
    | Record(r: Option<Result>)
    | Receive(ok: bool)
    | FlushTick(ok: bool)
    | Prune(before: int)
    | BeginClose
    | SeeDone
    | DrainOne
    | DrainEnd(ok: bool)

  function FlushBatch(s: State, ok: bool): State {
    s.(batch := [], rows := if ok then s.rows + s.batch else s.rows, flushes := s.flushes + [Flush(s.batch, ok)])
  }

  /** An action that is not enabled leaves the state alone. */
  function Step(s: State, a: Action): State {
    match a
    case Record(r) =>
      if r.None? || r.value.infraError || |s.queue| >= BUFFER_SIZE then s
      else s.(queue := s.queue + [r.value], accepted := s.accepted + [r.value])
    case Receive(ok) =>
      if !s.phase.Running? || s.queue == [] then s
      else
        var s1 := s.(queue := s.queue[1..], batch := s.batch + [s.queue[0]]);
        if |s1.batch| >= BATCH_SIZE then FlushBatch(s1, ok) else s1
    case FlushTick(ok) =>
      if !s.phase.Running? || s.batch == [] then s else FlushBatch(s, ok)
    case Prune(before) =>
      if !s.phase.Running? then s
      else s.(rows := Recent(s.rows, before),
              cutoff := Some(if s.cutoff.Some? && s.cutoff.value > before then s.cutoff.value else before))
    case BeginClose =>
      if s.closing then s else s.(closing := true, acceptedAtClose := |s.accepted|)
    case SeeDone =>
      if s.phase.Running? && s.closing then s.(phase := Draining) else s
    case DrainOne =>
      if !s.phase.Draining? || s.queue == [] then s
      else s.(queue := s.queue[1..], batch := s.batch + [s.queue[0]])
    case DrainEnd(ok) =>
      if !s.phase.Draining? || s.queue != [] then s
      else (if s.batch == [] then s else FlushBatch(s, ok)).(phase := Stopped)
  }

  function Run(actions: seq<Action>): State {
    RunFrom(INITIAL, actions)
  }

  function RunFrom(s: State, actions: seq<Action>): State {
    if actions == [] then s else Step(RunFrom(s, actions[..|actions| - 1]), actions[|actions| - 1])
  }

  lemma RunFromSnoc(s: State, actions: seq<Action>, a: Action)
    ensures RunFrom(s, actions + [a]) == Step(RunFrom(s, actions), a)
  {
    assert (actions + [a])[..|actions|] == actions;
  }

  lemma {:induction false} RunFromConcat(s: State, a: seq<Action>, b: seq<Action>)
    ensures RunFrom(s, a + b) == RunFrom(RunFrom(s, a), b)
  {
    if b == [] {
      assert a + b == a;
    } else {
      RunFromConcat(s, a, b[..|b| - 1]);
      assert (a + b)[..|a + b| - 1] == a + b[..|b| - 1];
    }
  }

  // ----- What every step keeps -----

  function Flushed(fs: seq<Flush>): seq<Result> {
    if fs == [] then [] else Flushed(fs[..|fs| - 1]) + fs[|fs| - 1].batch
  }

  function Committed(fs: seq<Flush>): seq<Result> {
    if fs == [] then []
    else Committed(fs[..|fs| - 1]) + (if fs[|fs| - 1].committed then fs[|fs| - 1].batch else [])
  }

  /** Nothing at or after the newest cutoff is missing from the table, and nothing else is in it. */
  ghost predicate RowsKept(s: State) {
    && multiset(s.rows) <= multiset(Committed(s.flushes))
    && (match s.cutoff
        case None => s.rows == Committed(s.flushes)
        case Some(c) => Recent(s.rows, c) == Recent(Committed(s.flushes), c))
  }

  ghost predicate Inv(s: State) {
    && s.accepted == Flushed(s.flushes) + s.batch + s.queue
    && |s.queue| <= BUFFER_SIZE
    && (s.phase.Running? ==> |s.batch| < BATCH_SIZE)
    && (!s.phase.Running? ==> s.closing)
    && (s.phase.Stopped? ==> s.batch == [] && s.acceptedAtClose <= |Flushed(s.flushes)|)
    && (s.closing ==> s.acceptedAtClose <= |s.accepted|)
    && (forall i :: 0 <= i < |s.accepted| ==> !s.accepted[i].infraError)
    && RowsKept(s)
  }

  lemma FlushedSnoc(fs: seq<Flush>, f: Flush)
    ensures Flushed(fs + [f]) == Flushed(fs) + f.batch
    ensures Committed(fs + [f]) == Committed(fs) + if f.committed then f.batch else []
  {
    assert (fs + [f])[..|fs|] == fs;
  }

  lemma {:induction false} RecentConcat(a: seq<Result>, b: seq<Result>, c: int)
    ensures Recent(a + b, c) == Recent(a, c) + Recent(b, c)
  {
    if b == [] {
      assert a + b == a;
    } else {
      RecentConcat(a, b[..|b| - 1], c);
      assert (a + b)[..|a + b| - 1] == a + b[..|b| - 1];
    }
  }

  lemma {:induction false} RecentTwice(rows: seq<Result>, c: int, d: int)
    ensures Recent(Recent(rows, c), d) == Recent(rows, if c >= d then c else d)
  {
    if rows == [] {
    } else {
      var n := |rows| - 1;
      RecentTwice(rows[..n], c, d);
      var before := Recent(rows[..n], c);
      if Millis(rows[n]) >= c {
        assert (before + [rows[n]])[..|before|] == before;
      } else {
        assert before + [] == before;
      }
    }
  }

  lemma {:induction false} RecentIsContained(rows: seq<Result>, c: int)
    ensures multiset(Recent(rows, c)) <= multiset(rows)
  {
    if rows == [] {
    } else {
      RecentIsContained(rows[..|rows| - 1], c);
      assert rows == rows[..|rows| - 1] + [rows[|rows| - 1]];
    }
  }

  lemma FlushKeeps(s: State, ok: bool)
    requires s.accepted == Flushed(s.flushes) + s.batch + s.queue && RowsKept(s)
    ensures
      var t := FlushBatch(s, ok);
      && t.accepted == Flushed(t.flushes) + t.batch + t.queue
      && Flushed(t.flushes) == Flushed(s.flushes) + s.batch
      && RowsKept(t)
  {
    FlushedSnoc(s.flushes, Flush(s.batch, ok));
    assert Flushed(s.flushes) + s.batch + [] + s.queue == Flushed(s.flushes) + s.batch + s.queue;
    assert Committed(s.flushes) + [] == Committed(s.flushes);
    if s.cutoff.Some? && ok {
      RecentConcat(s.rows, s.batch, s.cutoff.value);
      RecentConcat(Committed(s.flushes), s.batch, s.cutoff.value);
    }
  }

  /** Both sides agree from o on, so they agree from any later c on, also after pruning one of them. */
  lemma AgreeLater(rows: seq<Result>, committed: seq<Result>, o: int, before: int)
    requires Recent(rows, o) == Recent(committed, o)
    ensures
      var c := if o > before then o else before;
      Recent(Recent(rows, before), c) == Recent(committed, c)
  {
    var c := if o > before then o else before;
    RecentTwice(rows, before, c);
    RecentTwice(rows, o, c);
    RecentTwice(committed, o, c);
  }

  lemma PruneKeeps(s: State, before: int)
    requires RowsKept(s)
    ensures RowsKept(Step(s, Prune(before)))
  {
    if s.phase.Running? {
      RecentIsContained(s.rows, before);
      match s.cutoff
      case None => RecentTwice(s.rows, before, before);
      case Some(o) => AgreeLater(s.rows, Committed(s.flushes), o, before);
    }
  }

  lemma TakeOne(flushed: seq<Result>, batch: seq<Result>, queue: seq<Result>)
    requires queue != []
    ensures flushed + (batch + [queue[0]]) + queue[1..] == flushed + batch + queue
  {
  }

  lemma RecordKeeps(s: State, r: Option<Result>)
    requires Inv(s)
    ensures Inv(Step(s, Record(r)))
  {
    if r.Some? {
      var x := Flushed(s.flushes) + s.batch;
      assert x + s.queue + [r.value] == x + (s.queue + [r.value]);
    }
  }

  lemma ReceiveKeeps(s: State, ok: bool)
    requires Inv(s) && s.phase.Running? && s.queue != []
    ensures Inv(Step(s, Receive(ok)))
  {
    TakeOne(Flushed(s.flushes), s.batch, s.queue);
    var taken := s.(queue := s.queue[1..], batch := s.batch + [s.queue[0]]);
    assert RowsKept(taken);
    FlushKeeps(taken, ok);
  }

  lemma StepKeeps(s: State, a: Action)
    requires Inv(s)
    ensures Inv(Step(s, a))
  {
    match a
    case Record(r) => RecordKeeps(s, r);
    case Receive(ok) =>
      if s.phase.Running? && s.queue != [] {
        ReceiveKeeps(s, ok);
      }
    case FlushTick(ok) => FlushTickKeeps(s, ok);
    case Prune(before) => PruneKeeps(s, before);
    case BeginClose =>
    case SeeDone =>
    case DrainOne =>
      if s.queue != [] {
        TakeOne(Flushed(s.flushes), s.batch, s.queue);
      }
    case DrainEnd(ok) => DrainEndKeeps(s, ok);
  }

  lemma FlushTickKeeps(s: State, ok: bool)
    requires Inv(s)
    ensures Inv(Step(s, FlushTick(ok)))
  {
    FlushKeeps(s, ok);
  }

  lemma DrainEndKeeps(s: State, ok: bool)
    requires Inv(s)
    ensures Inv(Step(s, DrainEnd(ok)))
  {
    FlushKeeps(s, ok);
  }

  lemma {:induction false} RunKeeps(actions: seq<Action>)
    ensures Inv(Run(actions))
  {
    if actions == [] {
    } else {
      RunKeeps(actions[..|actions| - 1]);
      StepKeeps(Run(actions[..|actions| - 1]), actions[|actions| - 1]);
    }
  }

  // ----- Results -----

  /**
   At every step of every run: the results the queue took are the flushed batches in order, then the
   current batch, then the queue. Nothing is lost, duplicated or reordered, and no infra error gets in.
   */
  lemma AcceptedIsAccountedFor(actions: seq<Action>)
    ensures
      var s := Run(actions);
      && s.accepted == Flushed(s.flushes) + s.batch + s.queue
      && |s.queue| <= 1024
      && (s.phase.Running? ==> |s.batch| < 100)
      && (forall i :: 0 <= i < |s.accepted| ==> !s.accepted[i].infraError)
  {
    RunKeeps(actions);
  }

  /** In every run a recorded result is taken exactly when it is no infrastructure error and fewer than 1024 are queued. */
  lemma TakenIffRoom(actions: seq<Action>, r: Result)
    ensures
      var s, t := Run(actions), Run(actions + [Record(Some(r))]);
      if !r.infraError && |s.queue| < 1024
      then t.accepted == s.accepted + [r] && t.queue == s.queue + [r]
      else t == s
    ensures Run(actions + [Record(None)]) == Run(actions)
  {
    RunFromSnoc(INITIAL, actions, Record(Some(r)));
    RunFromSnoc(INITIAL, actions, Record(None));
  }

  /** Pruning keeps exactly the rows whose time in whole milliseconds is at or after the cutoff, as often as they occur. */
  lemma {:induction false} RecentMeaning(rows: seq<Result>, cutoff: int, r: Result)
    ensures multiset(Recent(rows, cutoff))[r] == if r.timestamp / 1_000_000 >= cutoff then multiset(rows)[r] else 0
  {
    if rows == [] {
    } else {
      var n := |rows| - 1;
      RecentMeaning(rows[..n], cutoff, r);
      Snoc(rows);
    }
  }

  lemma {:induction false} AllCommitted(fs: seq<Flush>)
    requires forall i :: 0 <= i < |fs| ==> fs[i].committed
    ensures Committed(fs) == Flushed(fs)
  {
    if fs == [] {
    } else {
      AllCommitted(fs[..|fs| - 1]);
    }
  }

  /** After Close has begun, the number taken at that moment stays on record and what was taken stays in front. */
  lemma {:induction false} ClosingKeeps(s: State, after: seq<Action>)
    requires s.closing
    ensures
      var t := RunFrom(s, after);
      t.closing && t.acceptedAtClose == s.acceptedAtClose && s.accepted <= t.accepted
  {
    if after == [] {
    } else {
      ClosingKeeps(s, after[..|after| - 1]);
    }
  }

  /** A run in which Close begins after the actions `before`. */
  function WithClose(before: seq<Action>, after: seq<Action>): seq<Action> {
    before + [BeginClose] + after
  }

  lemma AtClose(before: seq<Action>, after: seq<Action>)
    requires !Run(before).closing
    ensures
      var s, t := Run(before), Run(WithClose(before, after));
      t.acceptedAtClose == |s.accepted| && s.accepted <= t.accepted
  {
    RunFromSnoc(INITIAL, before, BeginClose);
    RunFromConcat(INITIAL, before + [BeginClose], after);
    ClosingKeeps(Run(before + [BeginClose]), after);
  }

  /**
   Once the writer has stopped, everything taken before Close began has been flushed, whatever was
   recorded meanwhile; what is left in the queue was taken after Close began.
   */
  lemma ShutdownFlushesEverythingBeforeClose(before: seq<Action>, after: seq<Action>)
    requires !Run(before).closing && Run(WithClose(before, after)).phase.Stopped?
    ensures
      var s := Run(WithClose(before, after));
      && s.accepted == Flushed(s.flushes) + s.queue
      && Run(before).accepted <= Flushed(s.flushes)
  {
    AtClose(before, after);
    RunKeeps(WithClose(before, after));
    var s := Run(WithClose(before, after));
    assert Flushed(s.flushes) + s.batch + s.queue == Flushed(s.flushes) + s.queue;
    assert Run(before).accepted == s.accepted[..s.acceptedAtClose];
  }

  /**
   If every flush commits, nothing is pruned and nothing is taken after Close begins, the table ends
   up holding every accepted result once, in order.
   */
  lemma CleanShutdownPersistsAll(before: seq<Action>, after: seq<Action>)
    requires !Run(before).closing && Run(WithClose(before, after)).phase.Stopped?
    requires
      var s := Run(WithClose(before, after));
      && (forall i :: 0 <= i < |s.flushes| ==> s.flushes[i].committed)
      && s.cutoff.None?
      && s.accepted == Run(before).accepted
    ensures Run(WithClose(before, after)).rows == Run(before).accepted
  {
    ShutdownFlushesEverythingBeforeClose(before, after);
    RunKeeps(WithClose(before, after));
    AllCommitted(Run(WithClose(before, after)).flushes);
  }

  /** Pruning removes only rows older than the newest cutoff: the rest of what was committed is there, in order. */
  lemma RetentionIsExact(actions: seq<Action>)
    requires Run(actions).cutoff.Some?
    ensures
      var s := Run(actions);
      Recent(s.rows, s.cutoff.value) == Recent(Committed(s.flushes), s.cutoff.value)
    ensures multiset(Run(actions).rows) <= multiset(Committed(Run(actions).flushes))
  {
    RunKeeps(actions);
  }

  lemma {:induction false} CommittedWasFlushed(fs: seq<Flush>, r: Result)
    requires r in Committed(fs)
    ensures r in Flushed(fs)
  {
    var n := |fs| - 1;
    if r in Committed(fs[..n]) {
      CommittedWasFlushed(fs[..n], r);
    } else {
      assert r in fs[n].batch;
    }
  }

  /** No infrastructure error ever reaches the table. */
  lemma NoInfraErrorPersisted(actions: seq<Action>, r: Result)
    requires r in Run(actions).rows
    ensures !r.infraError
  {
    RunKeeps(actions);
    var s := Run(actions);
    assert multiset(s.rows)[r] <= multiset(Committed(s.flushes))[r];
    CommittedWasFlushed(s.flushes, r);
    assert r in s.accepted;
  }

  // ----- Which rows survive -----

  function Later(a: Option<int>, before: int): Option<int> {
    if a.Some? && a.value > before then a else Some(before)
  }

  function Kept(rows: seq<Result>, cutoff: Option<int>): seq<Result> {
    match cutoff
    case None => rows
    case Some(c) => Recent(rows, c)
  }

  /** The newest cutoff of the prunes carried out after the first n actions. */
  function CutoffSince(actions: seq<Action>, n: nat): Option<int>
    requires n <= |actions|
    decreases |actions|
  {
    if |actions| == n then None
    else
      var init, a := actions[..|actions| - 1], actions[|actions| - 1];
      if a.Prune? && Run(init).phase.Running? then Later(CutoffSince(init, n), a.before) else CutoffSince(init, n)
  }

  lemma PruneLater(rows: seq<Result>, added: seq<Result>, cutoff: Option<int>, before: int)
    ensures Recent(Kept(rows, cutoff) + added, before) == Kept(rows, Later(cutoff, before)) + Recent(added, before)
  {
    RecentConcat(Kept(rows, cutoff), added, before);
    if cutoff.Some? {
      RecentTwice(rows, cutoff.value, before);
    }
  }

  /** What a step does to the table: a prune, a flush at the end of the flush list, or nothing. */
  lemma StepRows(s: State, a: Action)
    ensures
      var t := Step(s, a);
      if a.Prune? && s.phase.Running? then t.rows == Recent(s.rows, a.before) && t.flushes == s.flushes
      else
        || (t.rows == s.rows && t.flushes == s.flushes)
        || (exists f: Flush ::
              t.flushes == s.flushes + [f] && t.rows == s.rows + if f.committed then f.batch else [])
  {
    var m := if s.queue == [] then s else s.(queue := s.queue[1..], batch := s.batch + [s.queue[0]]);
    if (a.FlushTick? || a.DrainEnd?) && Step(s, a).flushes != s.flushes {
      assert Step(s, a).flushes == s.flushes + [Flush(s.batch, a.ok)];
      assert s.rows + [] == s.rows;
    } else if a.Receive? && Step(s, a).flushes != s.flushes {
      assert Step(s, a).flushes == s.flushes + [Flush(m.batch, a.ok)];
      assert s.rows + [] == s.rows;
    }
  }

  /** `added` are rows that flushes from number m on committed. */
  ghost predicate AddedBy(added: seq<Result>, flushes: seq<Flush>, m: nat) {
    m <= |flushes| && multiset(added) <= multiset(Committed(flushes[m..]))
  }

  lemma AddedByFlush(added: seq<Result>, flushes: seq<Flush>, m: nat, f: Flush)
    requires AddedBy(added, flushes, m)
    ensures AddedBy(added + if f.committed then f.batch else [], flushes + [f], m)
  {
    assert (flushes + [f])[m..] == flushes[m..] + [f];
    FlushedSnoc(flushes[m..], f);
  }

  lemma AddedByPruned(added: seq<Result>, flushes: seq<Flush>, m: nat, before: int)
    requires AddedBy(added, flushes, m)
    ensures AddedBy(Recent(added, before), flushes, m)
  {
    RecentIsContained(added, before);
  }

  lemma SurviveStep(rows: seq<Result>, cutoff: Option<int>, m: nat, s: State, a: Action, added: seq<Result>)
    returns (added': seq<Result>)
    requires s.rows == Kept(rows, cutoff) + added && AddedBy(added, s.flushes, m)
    ensures AddedBy(added', Step(s, a).flushes, m)
    ensures Step(s, a).rows ==
              Kept(rows, if a.Prune? && s.phase.Running? then Later(cutoff, a.before) else cutoff) + added'
  {
    var t := Step(s, a);
    StepRows(s, a);
    if a.Prune? && s.phase.Running? {
      added' := Recent(added, a.before);
      PruneLater(rows, added, cutoff, a.before);
      AddedByPruned(added, s.flushes, m, a.before);
    } else if t.rows == s.rows && t.flushes == s.flushes {
      added' := added;
    } else {
      var f: Flush :| t.flushes == s.flushes + [f] && t.rows == s.rows + if f.committed then f.batch else [];
      added' := added + if f.committed then f.batch else [];
      AddedByFlush(added, s.flushes, m, f);
      Associative(Kept(rows, cutoff), added, if f.committed then f.batch else []);
    }
  }

  /**
   Exactly which rows survive: of the rows in the table after the first n actions, those not older than
   any later cutoff are still there, in order and before everything added since, and no others are.
   */
  lemma {:induction false} RowsSurviveUntilPruned(actions: seq<Action>, n: nat) returns (added: seq<Result>)
    requires n <= |actions|
    ensures Run(actions).rows == Kept(Run(actions[..n]).rows, CutoffSince(actions, n)) + added
    ensures AddedBy(added, Run(actions).flushes, |Run(actions[..n]).flushes|)
    decreases |actions|
  {
    if |actions| == n {
      assert actions[..n] == actions;
      added := [];
    } else {
      var init, a := actions[..|actions| - 1], actions[|actions| - 1];
      var before := RowsSurviveUntilPruned(init, n);
      assert init[..n] == actions[..n];
      added := SurviveStep(
        Run(actions[..n]).rows, CutoffSince(init, n), |Run(actions[..n]).flushes|, Run(init), a, before);
    }
  }

  // ----- The store object -----

  class Store {
    var queue: seq<Result>
    var batch: seq<Result>
    var rows: seq<Result>
    var phase: Phase
    var closing: bool
    ghost var accepted: seq<Result>
    ghost var flushes: seq<Flush>
    ghost var acceptedAtClose: nat
    ghost var cutoff: Option<int>

    ghost function Abs(): State
      reads this
    {
      State(queue, batch, rows, phase, closing, accepted, flushes, acceptedAtClose, cutoff)
    }

    constructor ()
      ensures Abs() == INITIAL
    {
      queue, batch, rows, phase, closing := [], [], [], Running, false;
      accepted, flushes, acceptedAtClose, cutoff := [], [], 0, None;
    }

    method Enqueue(r: Option<Result>)
      modifies this
      ensures Abs() == Step(old(Abs()), Record(r))
    {
      if r.None? || r.value.infraError {
        return;
      }
      if |queue| < BUFFER_SIZE {
        queue := queue + [r.value];
        accepted := accepted + [r.value];
      }
    }

    method FlushNow(ok: bool)
      modifies this
      ensures Abs() == FlushBatch(old(Abs()), ok)
    {
      if ok {
        rows := rows + batch;
      }
      flushes := flushes + [Flush(batch, ok)];
      batch := [];
    }

    method OnReceive(ok: bool)
      requires phase.Running? && queue != []
      modifies this
      ensures Abs() == Step(old(Abs()), Receive(ok))
    {
      batch := batch + [queue[0]];
      queue := queue[1..];
      if |batch| >= BATCH_SIZE {
        FlushNow(ok);
      }
    }

    method OnFlushTick(ok: bool)
      requires phase.Running?
      modifies this
      ensures Abs() == Step(old(Abs()), FlushTick(ok))
    {
      if |batch| > 0 {
        FlushNow(ok);
      }
    }

    /** Results that other goroutines record. */
    method EnqueueAll(rs: seq<Option<Result>>) returns (ghost actions: seq<Action>)
      modifies this
      ensures Abs() == RunFrom(old(Abs()), actions) && phase == old(phase)
      ensures forall a :: a in actions ==> a.Record?
    {
      actions := [];
      for i := 0 to |rs|
        invariant Abs() == RunFrom(old(Abs()), actions) && phase == old(phase)
        invariant forall a :: a in actions ==> a.Record?
      {
        RunFromSnoc(old(Abs()), actions, Record(rs[i]));
        Enqueue(rs[i]);
        actions := actions + [Record(rs[i])];
      }
    }

    /**
     The final loop. `arrivals` lists what others record before each of its first rounds; whatever
     arrives, the loop is a run of drain steps, ending with the last flush.
     */
    method FinalDrain(ok: bool, arrivals: seq<seq<Option<Result>>>) returns (ghost actions: seq<Action>)
      requires phase.Draining?
      modifies this
      ensures Abs() == RunFrom(old(Abs()), actions) && phase.Stopped?
      ensures forall a :: a in actions ==> a.Record? || a.DrainOne? || a == DrainEnd(ok)
    {
      actions := [];
      var round := 0;
      while true
        invariant Abs() == RunFrom(old(Abs()), actions) && phase.Draining? && round <= |arrivals|
        invariant forall a :: a in actions ==> a.Record? || a.DrainOne?
        decreases |arrivals| - round, |queue|
      {
        if round < |arrivals| {
          ghost var recorded := EnqueueAll(arrivals[round]);
          RunFromConcat(old(Abs()), actions, recorded);
          actions := actions + recorded;
          round := round + 1;
        }
        if queue == [] {
          break;
        }
        RunFromSnoc(old(Abs()), actions, DrainOne);
        Take();
        actions := actions + [DrainOne];
      }
      RunFromSnoc(old(Abs()), actions, DrainEnd(ok));
      Finish(ok);
      actions := actions + [DrainEnd(ok)];
    }

    method Take()
      requires phase.Draining? && queue != []
      modifies this`batch, this`queue
      ensures Abs() == Step(old(Abs()), DrainOne) && |queue| < old(|queue|)
    {
      batch := batch + [queue[0]];
      queue := queue[1..];
    }

    method Finish(ok: bool)
      requires phase.Draining? && queue == []
      modifies this
      ensures Abs() == Step(old(Abs()), DrainEnd(ok)) && phase.Stopped?
    {
      if |batch| > 0 {
        FlushNow(ok);
      }
      phase := Stopped;
    }
  }

  /** The state after the final loop: everything queued joins the batch, which is flushed once. */
  function Drained(s: State, ok: bool): State {
    Step(s.(batch := s.batch + s.queue, queue := []), DrainEnd(ok))
  }

  /** The final drain leaves nothing behind: every result ever taken has been flushed. */
  lemma DrainedMeaning(s: State, ok: bool)
    requires Inv(s) && s.phase.Draining?
    ensures
      var t := Drained(s, ok);
      && Inv(t) && t.phase.Stopped?
      && t.accepted == s.accepted == Flushed(t.flushes)
      && t.queue == [] && t.batch == []
  {
    var m := s.(batch := s.batch + s.queue, queue := []);
    Associative(Flushed(s.flushes), s.batch, s.queue);
    assert s.accepted == Flushed(s.flushes) + m.batch + m.queue;
    DrainEndKeeps(m, ok);
    var t := Drained(s, ok);
    assert Flushed(t.flushes) + t.batch + t.queue == Flushed(t.flushes);
  }

  function Drains(n: nat): seq<Action> {
    if n == 0 then [] else Drains(n - 1) + [DrainOne]
  }

  /** The state when the first n queued results have joined the batch. */
  function Taken(s: State, n: nat): State
    requires n <= |s.queue|
  {
    s.(batch := s.batch + s.queue[..n], queue := s.queue[n..])
  }

  lemma TakeNext(s: State, n: nat)
    requires s.phase.Draining? && n < |s.queue|
    ensures Step(Taken(s, n), DrainOne) == Taken(s, n + 1)
  {
    assert s.batch + s.queue[..n + 1] == s.batch + s.queue[..n] + [s.queue[n..][0]];
    assert s.queue[n..][1..] == s.queue[n + 1..];
  }

  lemma {:induction false} DrainsTake(s: State, n: nat)
    requires s.phase.Draining? && n <= |s.queue|
    ensures RunFrom(s, Drains(n)) == Taken(s, n)
  {
    if n == 0 {
      assert s.batch + s.queue[..0] == s.batch && s.queue[0..] == s.queue;
    } else {
      DrainsTake(s, n - 1);
      RunFromSnoc(s, Drains(n - 1), DrainOne);
      TakeNext(s, n - 1);
    }
  }

  lemma DrainsTakeAll(s: State)
    requires s.phase.Draining?
    ensures RunFrom(s, Drains(|s.queue|)) == s.(batch := s.batch + s.queue, queue := [])
  {
    DrainsTake(s, |s.queue|);
    assert s.queue[..|s.queue|] == s.queue && s.queue[|s.queue|..] == [];
  }

  /** With nobody recording, the drain steps take the queue one by one and end in that state. */
  lemma DrainedIsRun(s: State, ok: bool)
    requires s.phase.Draining?
    ensures RunFrom(s, Drains(|s.queue|) + [DrainEnd(ok)]) == Drained(s, ok)
  {
    DrainsTakeAll(s);
    RunFromSnoc(s, Drains(|s.queue|), DrainEnd(ok));
  }

  /** The steps by which the writer stops: it sees that Close has begun, drains the queue and flushes once more. */
  function Stopping(s: State, ok: bool): seq<Action> {
    [SeeDone] + (Drains(|s.queue|) + [DrainEnd(ok)])
  }

  /** However a run has gone: once Close has begun, the writer can stop, with everything it took flushed. */
  lemma CloseLeadsToStop(actions: seq<Action>, ok: bool)
    ensures
      var s := Step(Run(actions), BeginClose);
      s.phase.Running? ==>
        var t := RunFrom(s, Stopping(s, ok));
        t.phase.Stopped? && t.queue == [] && t.accepted == s.accepted == Flushed(t.flushes)
  {
    RunKeeps(actions);
    StepKeeps(Run(actions), BeginClose);
    var s := Step(Run(actions), BeginClose);
    if s.phase.Running? {
      var d := Step(s, SeeDone);
      StepKeeps(s, SeeDone);
      RunFromConcat(s, [SeeDone], Drains(|s.queue|) + [DrainEnd(ok)]);
      RunFromSnoc(s, [], SeeDone);
      DrainedIsRun(d, ok);
      DrainedMeaning(d, ok);
    }
  }
}
