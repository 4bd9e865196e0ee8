/** The per-check history buffer: a slice that grows to 90 entries and is then overwritten circularly. */
module Ring {
  import opened Check
  import opened Seqs

  const MAX_HISTORY: nat := 90

  datatype Entry = Entry(success: bool, infraError: bool, durationMs: real, timestamp: int, detail: Detail)

  function ToEntry(r: Result): Entry {
    Entry(r.success, r.infraError, r.duration as real / NANOS_PER_MILLI as real, r.timestamp, r.detail)
  }

  /** The fields of a ring that decide what it holds and in which order. */
  datatype Buffer = Buffer(entries: seq<Entry>, head: nat, full: bool) {
    predicate Valid() {
      && |entries| <= MAX_HISTORY
      && head < MAX_HISTORY
      && (full ==> |entries| == MAX_HISTORY)
      && (!full ==> head == 0)
    }

    function Push(e: Entry): Buffer
      requires Valid()
    {
      if |entries| < MAX_HISTORY then Buffer(entries + [e], head, full)
      else Buffer(entries[head := e], (head + 1) % MAX_HISTORY, true)
    }

    function Ordered(): seq<Entry>
      requires Valid()
    {
      if !full || head == 0 then entries else entries[head..] + entries[..head]
    }

    /** Persisting keeps the chronological list only; loading restarts with head 0 and full unset. */
    function Reload(): Buffer
      requires Valid()
    {
      Buffer(Ordered(), 0, false)
    }
  }

  const EMPTY := Buffer([], 0, false)

  /** The reference: the last n elements of an unbounded history. */
  function Last<T>(h: seq<T>, n: nat): seq<T> {
    if |h| <= n then h else h[|h| - n..]
  }

  ghost predicate Holds(b: Buffer, h: seq<Entry>) {
    b.Valid() && b.Ordered() == Last(h, MAX_HISTORY)
  }

  /** One push on a full ring drops the oldest entry and adds the newest. */
  lemma OverwriteOrdered(b: Buffer, e: Entry)
    requires b.Valid() && |b.entries| == MAX_HISTORY
    ensures b.Push(e).Valid() && b.Push(e).Ordered() == b.Ordered()[1..] + [e]
  {
    var b', o := b.Push(e), b.Ordered();
    if b'.head == 0 {
      assert b'.entries == o[1..] + [e];
    } else {
      assert b'.entries[b'.head..] + b'.entries[..b'.head] == o[1..] + [e];
    }
  }

  lemma PushHolds(b: Buffer, h: seq<Entry>, e: Entry)
    requires Holds(b, h)
    ensures Holds(b.Push(e), h + [e])
  {
    assert |b.Ordered()| == |b.entries|;
    if |b.entries| == MAX_HISTORY {
      OverwriteOrdered(b, e);
      assert Last(h, MAX_HISTORY)[1..] + [e] == Last(h + [e], MAX_HISTORY);
    }
  }

  lemma ReloadHolds(b: Buffer, h: seq<Entry>)
    requires Holds(b, h)
    ensures Holds(b.Reload(), h)
  {
  }

  // ----- Whole runs -----

  datatype RingOp = Append(e: Entry) | Restart

  function RunRing(b: Buffer, ops: seq<RingOp>): (r: Buffer)
    requires b.Valid()
    ensures r.Valid()
    decreases |ops|
  {
    if ops == [] then b
    else
      var b' := match ops[0]
        case Append(e) => b.Push(e)
        case Restart => b.Reload();
      RunRing(b', ops[1..])
  }

  function Appended(ops: seq<RingOp>): seq<Entry> {
    if ops == [] then []
    else (if ops[0].Append? then [ops[0].e] else []) + Appended(ops[1..])
  }

  lemma {:induction false} RunRingHolds(b: Buffer, h: seq<Entry>, ops: seq<RingOp>)
    requires Holds(b, h)
    ensures Holds(RunRing(b, ops), h + Appended(ops))
    decreases |ops|
  {
    if ops == [] {
      assert h + [] == h;
    } else if ops[0].Append? {
      PushHolds(b, h, ops[0].e);
      RunRingHolds(b.Push(ops[0].e), h + [ops[0].e], ops[1..]);
      Associative(h, [ops[0].e], Appended(ops[1..]));
    } else {
      ReloadHolds(b, h);
      RunRingHolds(b.Reload(), h, ops[1..]);
      assert [] + Appended(ops[1..]) == Appended(ops[1..]);
    }
  }

  /** However pushes and restarts interleave, the ring shows the last 90 entries, oldest first. */
  lemma RingShowsLastNinety(ops: seq<RingOp>)
    ensures RunRing(EMPTY, ops).Ordered() == Last(Appended(ops), MAX_HISTORY)
  {
    RunRingHolds(EMPTY, [], ops);
    assert [] + Appended(ops) == Appended(ops);
  }

  /** No future run can tell a reloaded ring from one that was never restarted. */
  lemma ReloadIsInvisible(before: seq<RingOp>, after: seq<RingOp>)
    ensures
      var b := RunRing(EMPTY, before);
      RunRing(b.Reload(), after).Ordered() == RunRing(b, after).Ordered()
  {
    var b := RunRing(EMPTY, before);
    var h := [] + Appended(before);
    RunRingHolds(EMPTY, [], before);
    ReloadHolds(b, h);
    RunRingHolds(b, h, after);
    RunRingHolds(b.Reload(), h, after);
  }
}
