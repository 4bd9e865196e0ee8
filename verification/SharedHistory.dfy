/**
 Histories as slices of memory. The ring hands out its backing array instead of a copy while its oldest
 entry is in the first slot, and a save reads what it was handed after it has given up the lock. This
 module says when such a history changes afterwards, and to what.
 */
module SharedHistory {
  import opened Ring

  /** A slice: the first n slots of an array. */
  datatype Slice = Slice(a: array<Entry>, n: nat)

  // ----- Values: what the slots hold after further pushes -----

  function PushAll(b: Buffer, es: seq<Entry>): (r: Buffer)
    requires b.Valid()
    ensures r.Valid()
  {
    if es == [] then b else PushAll(b, es[..|es| - 1]).Push(es[|es| - 1])
  }

  /** The ring is laid out from the first slot on, so ordered() does not copy. */
  predicate HandsOut(b: Buffer) {
    !b.full || b.head == 0
  }

  /** The slots that m pushes overwrite in a ring that holds n entries from the first slot on. */
  function Overwritten(n: nat, m: nat): nat {
    if n + m <= MAX_HISTORY then 0 else n + m - MAX_HISTORY
  }

  /** While fewer pushes than slots wrap around: new entries fill the free slots, the rest replace the oldest. */
  lemma {:induction false} SlotsAfter(b: Buffer, es: seq<Entry>)
    requires b.Valid() && HandsOut(b)
    requires Overwritten(|b.entries|, |es|) < MAX_HISTORY
    ensures
      var r, n, w := PushAll(b, es), |b.entries|, Overwritten(|b.entries|, |es|);
      && |r.entries| == (if n + |es| <= MAX_HISTORY then n + |es| else MAX_HISTORY)
      && r.head == w
      && (forall i :: 0 <= i < n && w <= i ==> r.entries[i] == b.entries[i])
      && (forall i :: 0 <= i < w ==> r.entries[i] == es[MAX_HISTORY - n + i])
  {
    if es == [] {
    } else {
      SlotsAfter(b, es[..|es| - 1]);
    }
  }

  lemma {:induction false} NeverShrinks(b: Buffer, es: seq<Entry>)
    requires b.Valid()
    ensures |PushAll(b, es).entries| >= |b.entries|
  {
    if es == [] {
    } else {
      NeverShrinks(b, es[..|es| - 1]);
    }
  }

  /** Once the ring has wrapped around, its first slot holds one of the new entries for good. */
  lemma {:induction false} FirstSlotIsNew(b: Buffer, es: seq<Entry>)
    requires b.Valid() && HandsOut(b) && |b.entries| + |es| > MAX_HISTORY
    ensures |PushAll(b, es).entries| == MAX_HISTORY && PushAll(b, es).entries[0] in es
  {
    var before := es[..|es| - 1];
    if |b.entries| + |before| > MAX_HISTORY {
      FirstSlotIsNew(b, before);
    } else {
      SlotsAfter(b, before);
    }
  }

  /**
   The slots handed out still hold the history they held, after any number of pushes of entries it did
   not hold, if and only if those pushes did not wrap around.
   */
  lemma IntactIff(b: Buffer, es: seq<Entry>)
    requires b.Valid() && HandsOut(b) && b.entries != []
    requires forall e :: e in es ==> e !in b.entries
    ensures |PushAll(b, es).entries| >= |b.entries|
    ensures PushAll(b, es).entries[..|b.entries|] == b.entries <==> |b.entries| + |es| <= MAX_HISTORY
  {
    NeverShrinks(b, es);
    if |b.entries| + |es| <= MAX_HISTORY {
      SlotsAfter(b, es);
    } else {
      FirstSlotIsNew(b, es);
      assert b.entries[0] in b.entries;
    }
  }

  /** The smallest case: one push onto a full ring puts the newest entry in front of all older ones. */
  lemma NewestFirst(b: Buffer, e: Entry)
    requires b.Valid() && HandsOut(b) && |b.entries| == MAX_HISTORY
    ensures PushAll(b, [e]).entries == [e] + b.entries[1..]
  {
    assert [e][..0] == [];
    SlotsAfter(b, [e]);
  }

  // ----- Memory -----

  /** A ring over a backing array that append replaces by a larger one when it is used up. */
  class SliceRing {
    var backing: array<Entry>
    var len: nat
    var head: nat
    var full: bool

    ghost predicate Valid()
      reads this, backing
    {
      len <= backing.Length && Abs().Valid()
    }

    ghost function Abs(): Buffer
      reads this, backing
    {
      Buffer(if len <= backing.Length then backing[..len] else [], head, full)
    }

    constructor ()
      ensures Valid() && Abs() == EMPTY && fresh(backing)
    {
      backing := new Entry[0];
      len, head, full := 0, 0, false;
    }

    /** append: in place if there is room, otherwise into a new array with some room to spare. */
    method Append(e: Entry, spare: nat)
      requires Valid() && len < MAX_HISTORY
      modifies this`backing, this`len, backing
      ensures Valid() && Abs() == old(Abs()).Push(e)
      ensures backing == old(backing) || fresh(backing)
      ensures old(backing)[..old(len)] == old(backing[..len])
    {
      if len == backing.Length {
        var copied := backing[..len];
        var grown := new Entry[len + 1 + spare](i requires i >= 0 => if i < |copied| then copied[i] else e);
        backing := grown;
      }
      backing[len] := e;
      len := len + 1;
      assert backing[..len - 1] == old(backing[..len]);
    }

    method Push(e: Entry, spare: nat)
      requires Valid()
      modifies this, backing
      ensures Valid() && Abs() == old(Abs()).Push(e)
      ensures backing == old(backing) || fresh(backing)
      ensures backing != old(backing) ==> old(len) < MAX_HISTORY && old(backing)[..old(len)] == old(backing[..len])
    {
      if len < MAX_HISTORY {
        Append(e, spare);
        return;
      }
      backing[head] := e;
      head := (head + 1) % MAX_HISTORY;
      full := true;
    }

    /** The backing array itself while the oldest entry is in its first slot, a copy otherwise. */
    method Ordered() returns (s: Slice)
      requires Valid()
      ensures s.n == len && s.n <= s.a.Length && s.a[..s.n] == Abs().Ordered()
      ensures if HandsOut(Abs()) then s.a == backing else fresh(s.a)
    {
      if !full || head == 0 {
        return Slice(backing, len);
      }
      var entries := backing[head..len] + backing[..head];
      var copy := new Entry[len](i requires 0 <= i < |entries| => entries[i]);
      assert copy[..] == entries;
      return Slice(copy, len);
    }
  }

  lemma PushAllSnoc(b: Buffer, es: seq<Entry>, i: nat)
    requires b.Valid() && i < |es|
    ensures PushAll(b, es[..i + 1]) == PushAll(b, es[..i]).Push(es[i])
  {
    assert es[..i + 1][..i] == es[..i];
  }

  /** What further pushes do, as seen through the array the ring had before them. */
  method PushMany(ring: SliceRing, es: seq<Entry>, spare: nat)
    requires ring.Valid()
    modifies ring, ring.backing
    ensures ring.Valid() && ring.Abs() == PushAll(old(ring.Abs()), es)
    ensures ring.backing == old(ring.backing) || fresh(ring.backing)
    ensures
      HandsOut(old(ring.Abs())) && ring.backing != old(ring.backing) ==>
        old(ring.backing)[..old(ring.len)] == old(ring.backing[..ring.len])
  {
    ghost var b0 := ring.Abs();
    for i := 0 to |es|
      invariant ring.Valid() && ring.Abs() == PushAll(b0, es[..i])
      invariant ring.backing == old(ring.backing) || fresh(ring.backing)
      invariant
        HandsOut(b0) && ring.backing != old(ring.backing) ==>
          old(ring.backing)[..old(ring.len)] == old(ring.backing[..ring.len])
    {
      PushAllSnoc(b0, es, i);
      NeverShrinks(b0, es[..i]);
      if HandsOut(b0) && |b0.entries| + i <= MAX_HISTORY {
        SlotsAfter(b0, es[..i]);
      } else if HandsOut(b0) {
        FirstSlotIsNew(b0, es[..i]);
      }
      ring.Push(es[i], spare);
    }
    assert es[..|es|] == es;
  }

  /**
   A save that takes the history under the lock and reads it after others have pushed. The image is the
   history if it was copied or if append has moved the ring to another array meanwhile. Otherwise it is
   what the ring's own slots hold by then, which IntactIff and SlotsAfter describe.
   */
  method ReadLater(ring: SliceRing, es: seq<Entry>, spare: nat) returns (image: seq<Entry>)
    requires ring.Valid()
    modifies ring, ring.backing
    ensures ring.Valid() && ring.Abs() == PushAll(old(ring.Abs()), es)
    ensures |PushAll(old(ring.Abs()), es).entries| >= old(ring.len)
    ensures
      image ==
      if HandsOut(old(ring.Abs())) && ring.backing == old(ring.backing)
      then PushAll(old(ring.Abs()), es).entries[..old(ring.len)]
      else old(ring.Abs().Ordered())
  {
    NeverShrinks(ring.Abs(), es);
    var s := ring.Ordered();
    PushMany(ring, es, spare);
    image := s.a[..s.n];
  }
}
