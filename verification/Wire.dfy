/**
 The protobuf wire format: base 128 varints, fixed 64-bit words and length-delimited records,
 as the Protocol Buffers encoding guide defines them, with a parser that rejects what
 protowire rejects. Groups are not parsed.
 */
module Wire {
  import opened Wrappers
  import opened FixedWidth

  type byte = x: int | 0 <= x < 256

  const MAX_FIELD_NUMBER: nat := 0x7FFF_FFFF

  const VARINT: nat := 0
  const FIXED64: nat := 1
  const BYTES: nat := 2
  const FIXED32: nat := 5

  // ----- Varints -----

  function Varint(v: nat): (b: seq<byte>)
    ensures |b| >= 1
  {
    if v < 128 then [v] else [v % 128 + 128] + Varint(v / 128)
  }

  /** Values that still fit in 64 bits when k bytes have gone before. */
  function Cap(k: nat): nat
    requires k <= 9
    decreases 9 - k
  {
    if k == 9 then 2 else 128 * Cap(k + 1)
  }

  /** Value and length of the varint at the front of b; the tenth byte may only hold one bit. */
  function ConsumeVarint(b: seq<byte>, k: nat): (r: Option<(nat, nat)>)
    requires k <= 9
    ensures r.Some? ==> 1 <= r.value.1 <= |b|
    decreases |b|
  {
    if b == [] then None
    else if b[0] < 128 then (if k == 9 && b[0] > 1 then None else Some((b[0], 1)))
    else if k == 9 then None
    else
      var rest := ConsumeVarint(b[1..], k + 1);
      if rest.None? then None
      else Some((b[0] - 128 + 128 * rest.value.0, rest.value.1 + 1))
  }

  lemma CapIsTwo64()
    ensures Cap(0) == TWO_64
  {
    assert Cap(6) == 128 * 128 * 128 * 2;
    assert Cap(3) == 128 * 128 * 128 * Cap(6);
    assert Cap(0) == 128 * 128 * 128 * Cap(3);
  }

  lemma CapStep(v: nat, k: nat)
    requires k <= 9 && 128 <= v < Cap(k)
    ensures k < 9 && v / 128 < Cap(k + 1)
  {
  }

  lemma ConsumeStep(low: nat, b: seq<byte>, k: nat, v: nat, n: nat)
    requires k < 9 && low < 128 && ConsumeVarint(b, k + 1) == Some((v, n))
    ensures ConsumeVarint([low + 128] + b, k) == Some((low + 128 * v, n + 1))
  {
    assert ([low + 128] + b)[1..] == b;
  }

  lemma {:induction false} VarintRoundTripAt(v: nat, k: nat, rest: seq<byte>)
    requires k <= 9 && v < Cap(k)
    ensures ConsumeVarint(Varint(v) + rest, k) == Some((v, |Varint(v)|))
    decreases 9 - k
  {
    if v < 128 {
    } else {
      CapStep(v, k);
      VarintRoundTripAt(v / 128, k + 1, rest);
      ConsumeStep(v % 128, Varint(v / 128) + rest, k, v / 128, |Varint(v / 128)|);
      assert Varint(v) + rest == [v % 128 + 128] + (Varint(v / 128) + rest);
    }
  }

  /** Every 64-bit value survives, whatever follows it. */
  lemma VarintRoundTrip(v: nat, rest: seq<byte>)
    requires v < TWO_64
    ensures ConsumeVarint(Varint(v) + rest, 0) == Some((v, |Varint(v)|))
  {
    CapIsTwo64();
    VarintRoundTripAt(v, 0, rest);
  }

  // ----- Fixed-width words, little-endian -----

  function Pow256(n: nat): nat {
    if n == 0 then 1 else 256 * Pow256(n - 1)
  }

  function LittleEndian(w: nat, n: nat): (b: seq<byte>)
    ensures |b| == n
  {
    if n == 0 then [] else [w % 256] + LittleEndian(w / 256, n - 1)
  }

  function FromLittleEndian(b: seq<byte>): nat {
    if b == [] then 0 else b[0] + 256 * FromLittleEndian(b[1..])
  }

  lemma {:induction false} LittleEndianRoundTrip(w: nat, n: nat)
    requires w < Pow256(n)
    ensures FromLittleEndian(LittleEndian(w, n)) == w
  {
    if n == 0 {
    } else {
      LittleEndianRoundTrip(w / 256, n - 1);
      assert LittleEndian(w, n)[1..] == LittleEndian(w / 256, n - 1);
    }
  }

  lemma Pow256Of8()
    ensures Pow256(8) == TWO_64
  {
    assert Pow256(4) == 256 * 256 * 256 * 256;
    assert Pow256(8) == 256 * 256 * 256 * 256 * Pow256(4);
  }

  // ----- Appending -----

  function Tag(num: nat, wireType: nat): seq<byte> {
    Varint(num * 8 + wireType)
  }

  function LengthDelimited(b: seq<byte>): seq<byte> {
    Varint(|b|) + b
  }

  /** A whole length-delimited field. */
  function Record(num: nat, b: seq<byte>): seq<byte> {
    Tag(num, BYTES) + LengthDelimited(b)
  }

  lemma AppendRecord(out: seq<byte>, num: nat, b: seq<byte>)
    ensures out + Tag(num, BYTES) + LengthDelimited(b) == out + Record(num, b)
  {
  }

  function Fixed64(w: nat): seq<byte> {
    LittleEndian(w, 8)
  }

  // ----- Parsing -----

  datatype Field =
    | VarintField(num: nat, v: nat)
    | Fixed64Field(num: nat, w: nat)
    | Fixed32Field(num: nat, w: nat)
    | BytesField(num: nat, b: seq<byte>)
  {
    predicate WellFormed() {
      && 1 <= num <= MAX_FIELD_NUMBER
      && match this
         case VarintField(_, v) => v < TWO_64
         case Fixed64Field(_, w) => w < TWO_64
         case Fixed32Field(_, w) => w < Pow256(4)
         case BytesField(_, b) => |b| < TWO_64
    }
  }

  function WireType(f: Field): nat {
    match f
    case VarintField(_, _) => VARINT
    case Fixed64Field(_, _) => FIXED64
    case Fixed32Field(_, _) => FIXED32
    case BytesField(_, _) => BYTES
  }

  function EncodeValue(f: Field): seq<byte> {
    match f
    case VarintField(_, v) => Varint(v)
    case Fixed64Field(_, w) => Fixed64(w)
    case Fixed32Field(_, w) => LittleEndian(w, 4)
    case BytesField(_, b) => LengthDelimited(b)
  }

  function EncodeField(f: Field): (e: seq<byte>)
    ensures |e| >= 1
  {
    Tag(f.num, WireType(f)) + EncodeValue(f)
  }

  /** The value of one field of the given wire type at the front of b, and its length. */
  function ConsumeValue(num: nat, wireType: nat, b: seq<byte>): (r: Option<(Field, nat)>)
    ensures r.Some? ==> r.value.1 <= |b|
  {
    if wireType == VARINT then
      var v := ConsumeVarint(b, 0);
      if v.None? then None else Some((VarintField(num, v.value.0), v.value.1))
    else if wireType == FIXED64 then
      if |b| < 8 then None else Some((Fixed64Field(num, FromLittleEndian(b[..8])), 8))
    else if wireType == FIXED32 then
      if |b| < 4 then None else Some((Fixed32Field(num, FromLittleEndian(b[..4])), 4))
    else if wireType == BYTES then
      var n := ConsumeVarint(b, 0);
      if n.None? || n.value.0 > |b| - n.value.1 then None
      else Some((BytesField(num, b[n.value.1..n.value.1 + n.value.0]), n.value.1 + n.value.0))
    else None
  }

  function ConsumeField(b: seq<byte>): (r: Option<(Field, nat)>)
    ensures r.Some? ==> 1 <= r.value.1 <= |b|
  {
    var tag := ConsumeVarint(b, 0);
    if tag.None? then None
    else
      var num, wireType := tag.value.0 / 8, tag.value.0 % 8;
      if num == 0 || num > MAX_FIELD_NUMBER then None
      else
        var value := ConsumeValue(num, wireType, b[tag.value.1..]);
        if value.None? then None else Some((value.value.0, tag.value.1 + value.value.1))
  }

  function ParseMessage(b: seq<byte>): Option<seq<Field>>
    decreases |b|
  {
    if b == [] then Some([])
    else
      var f := ConsumeField(b);
      if f.None? then None
      else
        var rest := ParseMessage(b[f.value.1..]);
        if rest.None? then None else Some([f.value.0] + rest.value)
  }

  lemma ValueRoundTrip(f: Field, rest: seq<byte>)
    requires f.WellFormed()
    ensures ConsumeValue(f.num, WireType(f), EncodeValue(f) + rest) == Some((f, |EncodeValue(f)|))
  {
    var value := EncodeValue(f);
    match f
    case VarintField(_, v) =>
      VarintRoundTrip(v, rest);
    case Fixed64Field(_, w) =>
      Pow256Of8();
      LittleEndianRoundTrip(w, 8);
      assert (value + rest)[..8] == value;
    case Fixed32Field(_, w) =>
      LittleEndianRoundTrip(w, 4);
      assert (value + rest)[..4] == value;
    case BytesField(_, b) =>
      VarintRoundTrip(|b|, b + rest);
      assert value + rest == Varint(|b|) + (b + rest);
      assert (value + rest)[|Varint(|b|)|..|Varint(|b|)| + |b|] == b;
  }

  lemma TaggedRoundTrip(num: nat, wireType: nat, tail: seq<byte>)
    requires 1 <= num <= MAX_FIELD_NUMBER && wireType < 8
    requires ConsumeValue(num, wireType, tail).Some?
    ensures
      var value := ConsumeValue(num, wireType, tail).value;
      ConsumeField(Tag(num, wireType) + tail) == Some((value.0, |Tag(num, wireType)| + value.1))
  {
    var tag := Tag(num, wireType);
    VarintRoundTrip(num * 8 + wireType, tail);
    assert (tag + tail)[|tag|..] == tail;
  }

  lemma FieldRoundTrip(f: Field, rest: seq<byte>)
    requires f.WellFormed()
    ensures ConsumeField(EncodeField(f) + rest) == Some((f, |EncodeField(f)|))
  {
    ValueRoundTrip(f, rest);
    TaggedRoundTrip(f.num, WireType(f), EncodeValue(f) + rest);
    assert EncodeField(f) + rest == Tag(f.num, WireType(f)) + (EncodeValue(f) + rest);
  }

  lemma ParseStep(b: seq<byte>, f: Field, n: nat, fs: seq<Field>)
    requires ConsumeField(b) == Some((f, n))
    requires ParseMessage(b[n..]) == Some(fs)
    ensures ParseMessage(b) == Some([f] + fs)
  {
  }

  function EncodeFields(fs: seq<Field>): seq<byte> {
    if fs == [] then [] else EncodeField(fs[0]) + EncodeFields(fs[1..])
  }

  /** Parsing a printed message gives back its fields, in order. */
  lemma {:induction false} MessageRoundTrip(fs: seq<Field>)
    requires forall i :: 0 <= i < |fs| ==> fs[i].WellFormed()
    ensures ParseMessage(EncodeFields(fs)) == Some(fs)
  {
    if fs == [] {
    } else {
      var first, rest := EncodeField(fs[0]), EncodeFields(fs[1..]);
      FieldRoundTrip(fs[0], rest);
      assert (first + rest)[|first|..] == rest;
      MessageRoundTrip(fs[1..]);
      ParseStep(first + rest, fs[0], |first|, fs[1..]);
      assert fs == [fs[0]] + fs[1..];
    }
  }

  lemma {:induction false} EncodeFieldsConcat(a: seq<Field>, b: seq<Field>)
    ensures EncodeFields(a + b) == EncodeFields(a) + EncodeFields(b)
  {
    if a == [] {
      assert a + b == b;
    } else {
      assert (a + b)[1..] == a[1..] + b;
      EncodeFieldsConcat(a[1..], b);
    }
  }
}
