/**
 The hand-built remote-write encoder and the round trip through a decoder of the same format.

 Strings are the byte strings the encoder sees. Sample values are opaque 64-bit words; the
 encoder only moves their bits.
 */
module RemoteWrite {
  import opened Wrappers
  import opened FixedWidth
  import opened Wire
  import opened Sorting
  import opened Seqs

  type Word = x: int | 0 <= x < TWO_64
  type Int64 = x: int | -0x8000_0000_0000_0000 <= x < TWO_63

  datatype Label = Label(name: seq<byte>, value: seq<byte>)

  datatype MetricType = COUNTER | GAUGE | SUMMARY | UNTYPED | HISTOGRAM | GAUGE_HISTOGRAM

  /** Absent value messages read as zero, as generated getters do. */
  datatype Metric = Metric(
    labels: seq<Label>, gauge: Option<Word>, counter: Option<Word>, untyped: Option<Word>)

  datatype MetricFamily = MetricFamily(name: seq<byte>, typ: MetricType, metrics: seq<Metric>)

  /** "technician_" and "__name__". */
  const METRIC_PREFIX: seq<byte> := [116, 101, 99, 104, 110, 105, 99, 105, 97, 110, 95]
  const NAME_LABEL: seq<byte> := [95, 95, 110, 97, 109, 101, 95, 95]

  // ----- What is sent -----

  datatype Sample = Sample(value: Word, timestamp: Int64)

  datatype Series = Series(labels: seq<Label>, samples: seq<Sample>)

  predicate LabelLeq(a: Label, b: Label) {
    LexLeq(a.name, b.name)
  }

  function SampleValue(t: MetricType, m: Metric): Option<Word> {
    match t
    case GAUGE => Some(m.gauge.GetOr(0))
    case COUNTER => Some(m.counter.GetOr(0))
    case UNTYPED => Some(m.untyped.GetOr(0))
    case _ => None
  }

  function SeriesFor(name: seq<byte>, labels: seq<Label>, value: Word, ts: Int64): Series {
    Series(Sort([Label(NAME_LABEL, name)] + labels, LabelLeq), [Sample(value, ts)])
  }

  function FamilySeries(mf: MetricFamily, metrics: seq<Metric>, ts: Int64): seq<Series> {
    if metrics == [] then []
    else
      var m := metrics[|metrics| - 1];
      FamilySeries(mf, metrics[..|metrics| - 1], ts) + MetricSeries(mf, m, ts)
  }

  function MetricSeries(mf: MetricFamily, m: Metric, ts: Int64): seq<Series> {
    match SampleValue(mf.typ, m)
    case Some(v) => [SeriesFor(mf.name, m.labels, v, ts)]
    case None => []
  }

  function MatchingSeries(mf: MetricFamily, ts: Int64): seq<Series> {
    if METRIC_PREFIX <= mf.name then FamilySeries(mf, mf.metrics, ts) else []
  }

  /** The reference: one series per eligible metric of a matching family, in gathering order. */
  function SeriesOf(mfs: seq<MetricFamily>, ts: Int64): seq<Series> {
    if mfs == [] then []
    else SeriesOf(mfs[..|mfs| - 1], ts) + MatchingSeries(mfs[|mfs| - 1], ts)
  }

  // ----- Encoding -----

  function Unsigned(ts: Int64): Word {
    if ts < 0 then ts + TWO_64 else ts
  }

  function Signed(w: Word): Int64 {
    if w >= TWO_63 then w - TWO_64 else w
  }

  function EncodeLabel(name: seq<byte>, value: seq<byte>): seq<byte> {
    Tag(1, BYTES) + LengthDelimited(name) + Tag(2, BYTES) + LengthDelimited(value)
  }

  function EncodeSample(value: Word, ts: Int64): seq<byte> {
    Tag(1, FIXED64) + Fixed64(value) + Tag(2, VARINT) + Varint(Unsigned(ts))
  }

  function EncodeLabels(labels: seq<Label>): seq<byte> {
    if labels == [] then []
    else
      var l := labels[|labels| - 1];
      EncodeLabels(labels[..|labels| - 1]) + Record(1, EncodeLabel(l.name, l.value))
  }

  function EncodeSamples(samples: seq<Sample>): seq<byte> {
    if samples == [] then []
    else
      var s := samples[|samples| - 1];
      EncodeSamples(samples[..|samples| - 1]) + Record(2, EncodeSample(s.value, s.timestamp))
  }

  function EncodeSeries(s: Series): seq<byte> {
    EncodeLabels(s.labels) + EncodeSamples(s.samples)
  }

  /** The bytes of a whole request. */
  function EncodeRequest(ss: seq<Series>): seq<byte> {
    if ss == [] then []
    else EncodeRequest(ss[..|ss| - 1]) + Record(1, EncodeSeries(ss[|ss| - 1]))
  }

  lemma OneSample(s: Sample)
    ensures EncodeSamples([s]) == Record(2, EncodeSample(s.value, s.timestamp))
  {
    assert [s][..0] == [];
    assert EncodeSamples([s]) == [] + Record(2, EncodeSample(s.value, s.timestamp));
  }

  method EncodeTimeSeries(name: seq<byte>, labels: seq<Label>, value: Word, tsMillis: Int64)
    returns (ts: seq<byte>)
    ensures ts == EncodeSeries(SeriesFor(name, labels, value, tsMillis))
  {
    var pairs := [Label(NAME_LABEL, name)];
    for i := 0 to |labels|
      invariant pairs == [Label(NAME_LABEL, name)] + labels[..i]
    {
      pairs := pairs + [Label(labels[i].name, labels[i].value)];
    }
    assert labels[..|labels|] == labels;
    pairs := Sort(pairs, LabelLeq);

    ts := [];
    for i := 0 to |pairs|
      invariant ts == EncodeLabels(pairs[..i])
    {
      assert pairs[..i + 1][..i] == pairs[..i];
      AppendRecord(ts, 1, EncodeLabel(pairs[i].name, pairs[i].value));
      ts := ts + Tag(1, BYTES);
      ts := ts + LengthDelimited(EncodeLabel(pairs[i].name, pairs[i].value));
    }
    assert pairs[..|pairs|] == pairs;
    AppendRecord(ts, 2, EncodeSample(value, tsMillis));
    ts := ts + Tag(2, BYTES);
    ts := ts + LengthDelimited(EncodeSample(value, tsMillis));
    OneSample(Sample(value, tsMillis));
  }

  lemma EncodeRequestSnoc(ss: seq<Series>, s: Series)
    ensures EncodeRequest(ss + [s]) == EncodeRequest(ss) + Record(1, EncodeSeries(s))
  {
    assert (ss + [s])[..|ss|] == ss;
  }

  lemma FamilySeriesStep(before: seq<Series>, mf: MetricFamily, j: nat, ts: Int64)
    requires j < |mf.metrics|
    ensures
      before + FamilySeries(mf, mf.metrics[..j + 1], ts) ==
      before + FamilySeries(mf, mf.metrics[..j], ts) + MetricSeries(mf, mf.metrics[j], ts)
  {
    assert mf.metrics[..j + 1][..j] == mf.metrics[..j];
  }

  /** The inner loop: the eligible metrics of one matching family. */
  method AppendFamily(buf: seq<byte>, mf: MetricFamily, tsMillis: Int64, ghost before: seq<Series>)
    returns (out: seq<byte>)
    requires buf == EncodeRequest(before)
    ensures out == EncodeRequest(before + FamilySeries(mf, mf.metrics, tsMillis))
  {
    out := buf;
    assert before + FamilySeries(mf, mf.metrics[..0], tsMillis) == before;
    for j := 0 to |mf.metrics|
      invariant out == EncodeRequest(before + FamilySeries(mf, mf.metrics[..j], tsMillis))
    {
      var m := mf.metrics[j];
      ghost var so := before + FamilySeries(mf, mf.metrics[..j], tsMillis);
      FamilySeriesStep(before, mf, j, tsMillis);
      var val := SampleValue(mf.typ, m);
      if val.Some? {
        var series := EncodeTimeSeries(mf.name, m.labels, val.value, tsMillis);
        EncodeRequestSnoc(so, SeriesFor(mf.name, m.labels, val.value, tsMillis));
        AppendRecord(out, 1, series);
        out := out + Tag(1, BYTES);
        out := out + LengthDelimited(series);
      } else {
        assert so + [] == so;
      }
    }
    assert mf.metrics[..|mf.metrics|] == mf.metrics;
  }

  /**
   nil, modelled as None, when there is nothing to send; otherwise the bytes of the reference list, from
   which a receiver reads exactly the metrics to send.
   */
  method EncodeWriteRequest(mfs: seq<MetricFamily>, tsMillis: Int64) returns (r: Option<seq<byte>>)
    ensures r.None? <==> ToSend(mfs) == []
    ensures r.Some? ==> r.value == EncodeRequest(SeriesOf(mfs, tsMillis))
    ensures
      r.Some? && |r.value| < TWO_63 ==>
        DecodeWriteRequest(r.value).Some? && CarriesAll(DecodeWriteRequest(r.value).value, ToSend(mfs), tsMillis)
  {
    var out: seq<byte> := [];
    for i := 0 to |mfs|
      invariant out == EncodeRequest(SeriesOf(mfs[..i], tsMillis))
    {
      SeriesOfStep(mfs, i, tsMillis);
      if METRIC_PREFIX <= mfs[i].name {
        out := AppendFamily(out, mfs[i], tsMillis, SeriesOf(mfs[..i], tsMillis));
      }
    }
    assert mfs[..|mfs|] == mfs;
    EncodeRequestEmptyIff(SeriesOf(mfs, tsMillis));
    AllIsCarried(mfs, tsMillis);
    if |out| < TWO_63 {
      RequestCarriesMetrics(mfs, tsMillis);
    }
    if |out| == 0 {
      return None;
    }
    return Some(out);
  }

  lemma SeriesOfStep(mfs: seq<MetricFamily>, i: nat, ts: Int64)
    requires i < |mfs|
    ensures SeriesOf(mfs[..i + 1], ts) == SeriesOf(mfs[..i], ts) + MatchingSeries(mfs[i], ts)
    ensures !(METRIC_PREFIX <= mfs[i].name) ==> SeriesOf(mfs[..i + 1], ts) == SeriesOf(mfs[..i], ts)
  {
    assert mfs[..i + 1][..i] == mfs[..i];
  }

  lemma EncodeRequestEmptyIff(ss: seq<Series>)
    ensures |EncodeRequest(ss)| == 0 <==> ss == []
  {
    if ss == [] {
    } else {
      assert |Tag(1, BYTES)| >= 1;
    }
  }

  // ----- Decoding -----

  function DecodeLabelFields(fs: seq<Field>, acc: Label): Label {
    if fs == [] then acc
    else
      var f := fs[0];
      DecodeLabelFields(fs[1..],
        if !f.BytesField? then acc
        else if f.num == 1 then acc.(name := f.b)
        else acc.(value := f.b))
  }

  function DecodeLabel(b: seq<byte>): Option<Label> {
    match ParseMessage(b)
    case None => None
    case Some(fs) => Some(DecodeLabelFields(fs, Label([], [])))
  }

  function DecodeSampleFields(fs: seq<Field>, acc: Sample): Sample {
    if fs == [] then acc
    else
      var f := fs[0];
      DecodeSampleFields(fs[1..],
        if f.Fixed64Field? && f.num == 1 && f.w < TWO_64 then acc.(value := f.w)
        else if f.VarintField? && f.num == 2 && f.v < TWO_64 then acc.(timestamp := Signed(f.v))
        else acc)
  }

  function DecodeSample(b: seq<byte>): Option<Sample> {
    match ParseMessage(b)
    case None => None
    case Some(fs) => Some(DecodeSampleFields(fs, Sample(0, 0)))
  }

  function DecodeSeriesFields(fs: seq<Field>): Option<Series> {
    if fs == [] then Some(Series([], []))
    else
      var rest := DecodeSeriesFields(fs[..|fs| - 1]);
      var f := fs[|fs| - 1];
      if rest.None? then None
      else if f.BytesField? && f.num == 1 then
        var l := DecodeLabel(f.b);
        if l.None? then None else Some(rest.value.(labels := rest.value.labels + [l.value]))
      else if f.BytesField? && f.num == 2 then
        var s := DecodeSample(f.b);
        if s.None? then None else Some(rest.value.(samples := rest.value.samples + [s.value]))
      else rest
  }

  function DecodeSeries(b: seq<byte>): Option<Series> {
    match ParseMessage(b)
    case None => None
    case Some(fs) => DecodeSeriesFields(fs)
  }

  function DecodeRequestFields(fs: seq<Field>): Option<seq<Series>> {
    if fs == [] then Some([])
    else
      var rest := DecodeRequestFields(fs[..|fs| - 1]);
      var f := fs[|fs| - 1];
      if rest.None? then None
      else if f.BytesField? && f.num == 1 then
        var s := DecodeSeries(f.b);
        if s.None? then None else Some(rest.value + [s.value])
      else rest
  }

  function DecodeWriteRequest(b: seq<byte>): Option<seq<Series>> {
    match ParseMessage(b)
    case None => None
    case Some(fs) => DecodeRequestFields(fs)
  }

  // ----- Round trips, innermost first -----

  lemma TwoFields(a: Field, b: Field)
    ensures EncodeFields([a, b]) == EncodeField(a) + EncodeField(b)
  {
    assert [a, b][1..] == [b];
    assert [b][1..] == [];
    assert EncodeFields([b]) == EncodeField(b) + [];
  }

  lemma LabelFits(l: Label)
    ensures |l.name| + |l.value| <= |EncodeLabel(l.name, l.value)|
  {
  }

  lemma LabelFieldsRead(l: Label)
    ensures DecodeLabelFields([BytesField(1, l.name), BytesField(2, l.value)], Label([], [])) == l
  {
    var a, b := BytesField(1, l.name), BytesField(2, l.value);
    assert [a, b][1..] == [b] && [b][1..] == [];
    assert DecodeLabelFields([b], Label(l.name, [])) == l;
  }

  lemma LabelIsFields(l: Label)
    ensures EncodeLabel(l.name, l.value) == EncodeFields([BytesField(1, l.name), BytesField(2, l.value)])
  {
    TwoFields(BytesField(1, l.name), BytesField(2, l.value));
  }

  lemma LabelRoundTrip(l: Label)
    requires |EncodeLabel(l.name, l.value)| < TWO_64
    ensures DecodeLabel(EncodeLabel(l.name, l.value)) == Some(l)
  {
    LabelIsFields(l);
    LabelFits(l);
    MessageRoundTrip([BytesField(1, l.name), BytesField(2, l.value)]);
    LabelFieldsRead(l);
  }

  lemma SignedUnsigned(ts: Int64)
    ensures Signed(Unsigned(ts)) == ts
  {
  }

  lemma SampleRoundTrip(s: Sample)
    ensures DecodeSample(EncodeSample(s.value, s.timestamp)) == Some(s)
  {
    var a, b := Fixed64Field(1, s.value), VarintField(2, Unsigned(s.timestamp));
    TwoFields(a, b);
    assert EncodeSample(s.value, s.timestamp) == EncodeFields([a, b]);
    MessageRoundTrip([a, b]);
    assert [a, b][1..] == [b] && [b][1..] == [];
    SignedUnsigned(s.timestamp);
    var acc := Sample(0, 0);
    calc {
      DecodeSampleFields([a, b], acc);
      DecodeSampleFields([b], acc.(value := s.value));
      DecodeSampleFields([], s);
      s;
    }
  }

  function LabelField(l: Label): Field {
    BytesField(1, EncodeLabel(l.name, l.value))
  }

  function SampleField(s: Sample): Field {
    BytesField(2, EncodeSample(s.value, s.timestamp))
  }

  function SeriesField(s: Series): Field {
    BytesField(1, EncodeSeries(s))
  }

  function LabelFields(labels: seq<Label>): (fs: seq<Field>)
    ensures |fs| == |labels|
  {
    if labels == [] then [] else LabelFields(labels[..|labels| - 1]) + [LabelField(labels[|labels| - 1])]
  }

  function SampleFields(samples: seq<Sample>): (fs: seq<Field>)
    ensures |fs| == |samples|
  {
    if samples == [] then [] else SampleFields(samples[..|samples| - 1]) + [SampleField(samples[|samples| - 1])]
  }

  function SeriesFields(ss: seq<Series>): (fs: seq<Field>)
    ensures |fs| == |ss|
  {
    if ss == [] then [] else SeriesFields(ss[..|ss| - 1]) + [SeriesField(ss[|ss| - 1])]
  }

  lemma {:induction false} LabelFieldAt(labels: seq<Label>, i: nat)
    requires i < |labels|
    ensures LabelFields(labels)[i] == LabelField(labels[i])
  {
    if i == |labels| - 1 {
    } else {
      LabelFieldAt(labels[..|labels| - 1], i);
    }
  }

  lemma {:induction false} SampleFieldAt(samples: seq<Sample>, i: nat)
    requires i < |samples|
    ensures SampleFields(samples)[i] == SampleField(samples[i])
  {
    if i == |samples| - 1 {
    } else {
      SampleFieldAt(samples[..|samples| - 1], i);
    }
  }

  lemma {:induction false} SeriesFieldAt(ss: seq<Series>, i: nat)
    requires i < |ss|
    ensures SeriesFields(ss)[i] == SeriesField(ss[i])
  {
    if i == |ss| - 1 {
    } else {
      SeriesFieldAt(ss[..|ss| - 1], i);
    }
  }

  lemma EncodeFieldsSnoc(fs: seq<Field>, f: Field)
    ensures EncodeFields(fs + [f]) == EncodeFields(fs) + EncodeField(f)
  {
    EncodeFieldsConcat(fs, [f]);
    assert [f][1..] == [];
    assert EncodeFields([f]) == EncodeField(f) + [];
  }

  lemma {:induction false} LabelsAreFields(labels: seq<Label>)
    ensures EncodeLabels(labels) == EncodeFields(LabelFields(labels))
  {
    if labels == [] {
    } else {
      var n := |labels| - 1;
      LabelsAreFields(labels[..n]);
      EncodeFieldsSnoc(LabelFields(labels[..n]), LabelField(labels[n]));
    }
  }

  lemma {:induction false} SamplesAreFields(samples: seq<Sample>)
    ensures EncodeSamples(samples) == EncodeFields(SampleFields(samples))
  {
    if samples == [] {
    } else {
      var n := |samples| - 1;
      SamplesAreFields(samples[..n]);
      EncodeFieldsSnoc(SampleFields(samples[..n]), SampleField(samples[n]));
    }
  }

  lemma {:induction false} RequestIsFields(ss: seq<Series>)
    ensures EncodeRequest(ss) == EncodeFields(SeriesFields(ss))
  {
    if ss == [] {
    } else {
      var n := |ss| - 1;
      RequestIsFields(ss[..n]);
      EncodeFieldsSnoc(SeriesFields(ss[..n]), SeriesField(ss[n]));
    }
  }

  /** A record is no longer than the message that holds it. */
  lemma {:induction false} FieldFits(fs: seq<Field>, i: nat)
    requires i < |fs| && fs[i].BytesField?
    ensures |fs[i].b| <= |EncodeFields(fs)|
  {
    if i == 0 {
    } else {
      FieldFits(fs[1..], i - 1);
    }
  }

  lemma LabelFieldDecodes(fs: seq<Field>, series: Series, l: Label)
    requires DecodeSeriesFields(fs) == Some(series) && |EncodeLabel(l.name, l.value)| < TWO_64
    ensures DecodeSeriesFields(fs + [LabelField(l)]) == Some(Series(series.labels + [l], series.samples))
  {
    LabelRoundTrip(l);
    assert (fs + [LabelField(l)])[..|fs|] == fs;
  }

  lemma {:induction false} LabelFieldsDecode(labels: seq<Label>)
    requires forall i :: 0 <= i < |labels| ==> |EncodeLabel(labels[i].name, labels[i].value)| < TWO_64
    ensures DecodeSeriesFields(LabelFields(labels)) == Some(Series(labels, []))
  {
    if labels == [] {
    } else {
      var n := |labels| - 1;
      LabelFieldsDecode(labels[..n]);
      LabelFieldDecodes(LabelFields(labels[..n]), Series(labels[..n], []), labels[n]);
      Snoc(labels);
    }
  }

  lemma SampleFieldDecodes(fs: seq<Field>, series: Series, s: Sample)
    requires DecodeSeriesFields(fs) == Some(series)
    ensures
      DecodeSeriesFields(fs + [SampleField(s)]) == Some(Series(series.labels, series.samples + [s]))
  {
    SampleRoundTrip(s);
    assert (fs + [SampleField(s)])[..|fs|] == fs;
  }

  lemma {:induction false} SampleFieldsDecode(labels: seq<Label>, samples: seq<Sample>)
    requires DecodeSeriesFields(LabelFields(labels)) == Some(Series(labels, []))
    ensures DecodeSeriesFields(LabelFields(labels) + SampleFields(samples)) == Some(Series(labels, samples))
  {
    var ls := LabelFields(labels);
    if samples == [] {
      assert ls + SampleFields(samples) == ls;
    } else {
      var n := |samples| - 1;
      SampleFieldsDecode(labels, samples[..n]);
      SampleFieldDecodes(ls + SampleFields(samples[..n]), Series(labels, samples[..n]), samples[n]);
      Associative(ls, SampleFields(samples[..n]), [SampleField(samples[n])]);
      Snoc(samples);
    }
  }

  lemma SeriesRoundTrip(s: Series)
    requires |EncodeSeries(s)| < TWO_64
    ensures DecodeSeries(EncodeSeries(s)) == Some(s)
  {
    var ls, ps := LabelFields(s.labels), SampleFields(s.samples);
    LabelsAreFields(s.labels);
    SamplesAreFields(s.samples);
    EncodeFieldsConcat(ls, ps);
    forall i | 0 <= i < |ls + ps|
      ensures (ls + ps)[i].WellFormed()
    {
      if i < |ls| {
        LabelFieldAt(s.labels, i);
      } else {
        SampleFieldAt(s.samples, i - |ls|);
      }
      FieldFits(ls + ps, i);
    }
    MessageRoundTrip(ls + ps);
    forall i | 0 <= i < |s.labels|
      ensures |EncodeLabel(s.labels[i].name, s.labels[i].value)| < TWO_64
    {
      LabelFieldAt(s.labels, i);
      assert (ls + ps)[i].WellFormed();
    }
    LabelFieldsDecode(s.labels);
    SampleFieldsDecode(s.labels, s.samples);
  }

  lemma SeriesFieldDecodes(fs: seq<Field>, ss: seq<Series>, s: Series)
    requires DecodeRequestFields(fs) == Some(ss) && |EncodeSeries(s)| < TWO_64
    ensures DecodeRequestFields(fs + [SeriesField(s)]) == Some(ss + [s])
  {
    SeriesRoundTrip(s);
    assert (fs + [SeriesField(s)])[..|fs|] == fs;
  }

  lemma {:induction false} SeriesFieldsDecode(ss: seq<Series>)
    requires forall i :: 0 <= i < |ss| ==> |EncodeSeries(ss[i])| < TWO_64
    ensures DecodeRequestFields(SeriesFields(ss)) == Some(ss)
  {
    if ss == [] {
    } else {
      var n := |ss| - 1;
      SeriesFieldsDecode(ss[..n]);
      SeriesFieldDecodes(SeriesFields(ss[..n]), ss[..n], ss[n]);
      Snoc(ss);
    }
  }

  /** Decoding a request that fits in memory gives back its series, in order and complete. */
  lemma RequestRoundTrip(ss: seq<Series>)
    requires |EncodeRequest(ss)| < TWO_63
    ensures DecodeWriteRequest(EncodeRequest(ss)) == Some(ss)
  {
    var fs := SeriesFields(ss);
    RequestIsFields(ss);
    forall i | 0 <= i < |ss|
      ensures fs[i].WellFormed() && |EncodeSeries(ss[i])| < TWO_64
    {
      SeriesFieldAt(ss, i);
      FieldFits(fs, i);
    }
    MessageRoundTrip(fs);
    SeriesFieldsDecode(ss);
  }

  /** Different lists of series never share an encoding. */
  lemma EncodeRequestInjective(a: seq<Series>, b: seq<Series>)
    requires |EncodeRequest(a)| < TWO_63
    requires EncodeRequest(a) == EncodeRequest(b)
    ensures a == b
  {
    RequestRoundTrip(a);
    RequestRoundTrip(b);
  }

  lemma {:induction false} EncodeRequestConcat(a: seq<Series>, b: seq<Series>)
    ensures EncodeRequest(a + b) == EncodeRequest(a) + EncodeRequest(b)
  {
    if b == [] {
      assert a + b == a;
    } else {
      var init, s := b[..|b| - 1], b[|b| - 1];
      Snoc(b);
      Associative(a, init, [s]);
      EncodeRequestConcat(a, init);
      EncodeRequestSnoc(a + init, s);
      EncodeRequestSnoc(init, s);
      Associative(EncodeRequest(a), EncodeRequest(init), Record(1, EncodeSeries(s)));
    }
  }

  lemma SeriesOfSnoc(mfs: seq<MetricFamily>, mf: MetricFamily, ts: Int64)
    ensures SeriesOf(mfs + [mf], ts) == SeriesOf(mfs, ts) + MatchingSeries(mf, ts)
  {
    assert (mfs + [mf])[..|mfs|] == mfs;
  }

  lemma {:induction false} SeriesOfConcat(a: seq<MetricFamily>, b: seq<MetricFamily>, ts: Int64)
    ensures SeriesOf(a + b, ts) == SeriesOf(a, ts) + SeriesOf(b, ts)
  {
    if b == [] {
      assert a + b == a;
    } else {
      var init, mf := b[..|b| - 1], b[|b| - 1];
      Snoc(b);
      Associative(a, init, [mf]);
      SeriesOfConcat(a, init, ts);
      SeriesOfSnoc(a + init, mf, ts);
      SeriesOfSnoc(init, mf, ts);
      Associative(SeriesOf(a, ts), SeriesOf(init, ts), MatchingSeries(mf, ts));
    }
  }

  /** Encoding two gatherings one after the other is encoding their concatenation. */
  lemma EncodingIsHomomorphic(a: seq<MetricFamily>, b: seq<MetricFamily>, ts: Int64)
    ensures EncodeRequest(SeriesOf(a + b, ts)) == EncodeRequest(SeriesOf(a, ts)) + EncodeRequest(SeriesOf(b, ts))
  {
    SeriesOfConcat(a, b, ts);
    EncodeRequestConcat(SeriesOf(a, ts), SeriesOf(b, ts));
  }

  // ----- The reference list is what the remote-write specification asks for -----

  lemma LabelLeqIsTotalPreorder()
    ensures TotalPreorder(LabelLeq)
  {
    forall a: Label, b: Label
      ensures LabelLeq(a, b) || LabelLeq(b, a)
    {
      LessIsTotal(a.name, b.name);
    }
    forall a: Label, b: Label, c: Label | LabelLeq(a, b) && LabelLeq(b, c)
      ensures LabelLeq(a, c)
    {
      if a.name != b.name && b.name != c.name {
        LessIsTransitive(a.name, b.name, c.name);
      }
    }
  }

  /** A series carries __name__ and every label of the metric, sorted by name. */
  lemma SeriesLabels(name: seq<byte>, labels: seq<Label>, value: Word, ts: Int64)
    ensures
      var s := SeriesFor(name, labels, value, ts);
      && SortedBy(s.labels, LabelLeq)
      && multiset(s.labels) == multiset{Label(NAME_LABEL, name)} + multiset(labels)
      && s.samples == [Sample(value, ts)]
  {
    LabelLeqIsTotalPreorder();
    SortSorts([Label(NAME_LABEL, name)] + labels, LabelLeq);
  }

  /**
   sort.Slice may order equal names either way. With distinct names there is only one sorted
   arrangement, so the encoding does not depend on the sorting algorithm.
   */
  lemma SortOrderIsForced(pairs: seq<Label>, sorted: seq<Label>)
    requires forall i, j :: 0 <= i < j < |pairs| ==> pairs[i].name != pairs[j].name
    requires SortedBy(sorted, LabelLeq) && multiset(sorted) == multiset(pairs)
    ensures sorted == Sort(pairs, LabelLeq)
  {
    LabelLeqIsTotalPreorder();
    SortSorts(pairs, LabelLeq);
    forall x, y | x in sorted && y in sorted && LabelLeq(x, y) && LabelLeq(y, x)
      ensures x == y
    {
      if x.name != y.name {
        LessIsAsymmetric(x.name, y.name);
      }
      assert x in multiset(pairs) && y in multiset(pairs);
    }
    SortedIsUnique(sorted, Sort(pairs, LabelLeq), LabelLeq);
  }

  predicate FamilyEligible(mf: MetricFamily) {
    && METRIC_PREFIX <= mf.name
    && mf.metrics != []
    && (mf.typ.GAUGE? || mf.typ.COUNTER? || mf.typ.UNTYPED?)
  }

  lemma {:induction false} FamilySeriesLength(mf: MetricFamily, metrics: seq<Metric>, ts: Int64)
    ensures |FamilySeries(mf, metrics, ts)| ==
              if mf.typ.GAUGE? || mf.typ.COUNTER? || mf.typ.UNTYPED? then |metrics| else 0
  {
    if metrics == [] {
    } else {
      FamilySeriesLength(mf, metrics[..|metrics| - 1], ts);
    }
  }

  lemma MatchingEmptyIff(mf: MetricFamily, ts: Int64)
    ensures MatchingSeries(mf, ts) == [] <==> !FamilyEligible(mf)
  {
    FamilySeriesLength(mf, mf.metrics, ts);
  }

  /** Nothing is sent exactly when no matching family has a gauge, counter or untyped metric. */
  lemma {:induction false} NothingToSendIff(mfs: seq<MetricFamily>, ts: Int64)
    ensures SeriesOf(mfs, ts) == [] <==> forall mf :: mf in mfs ==> !FamilyEligible(mf)
  {
    if mfs == [] {
    } else {
      var init, last := mfs[..|mfs| - 1], mfs[|mfs| - 1];
      NothingToSendIff(init, ts);
      MatchingEmptyIff(last, ts);
      assert forall mf :: mf in mfs <==> mf in init || mf == last;
    }
  }

  // ----- From the gathered families to the decoded request -----

  /** ASCII text as bytes. */
  function Ascii(text: string): seq<byte>
    requires forall i :: 0 <= i < |text| ==> text[i] as int < 128
  {
    seq(|text|, i requires 0 <= i < |text| => text[i] as int)
  }

  lemma Names()
    ensures METRIC_PREFIX == Ascii("technician_") && NAME_LABEL == Ascii("__name__")
  {
  }

  /** The metrics to send: all of every family with the prefix and a scalar type, in order. */
  function ToSend(mfs: seq<MetricFamily>): seq<(MetricFamily, Metric)> {
    if mfs == [] then [] else ToSend(mfs[..|mfs| - 1]) + FromFamily(mfs[|mfs| - 1])
  }

  function InFamily(mf: MetricFamily, metrics: seq<Metric>): (r: seq<(MetricFamily, Metric)>)
    ensures |r| == |metrics| && forall j :: 0 <= j < |r| ==> r[j] == (mf, metrics[j])
  {
    seq(|metrics|, j requires 0 <= j < |metrics| => (mf, metrics[j]))
  }

  /**
   The series carries the metric: the family's name and the metric's labels, sorted by name, and one
   sample at ts with the word of the value message the family's type calls for, 0 when that is absent.
   */
  ghost predicate Carries(s: Series, mf: MetricFamily, m: Metric, ts: Int64) {
    && SortedBy(s.labels, LabelLeq)
    && multiset(s.labels) == multiset{Label(Ascii("__name__"), mf.name)} + multiset(m.labels)
    && |s.samples| == 1
    && s.samples[0].timestamp == ts
    && (mf.typ.GAUGE? ==> s.samples[0].value == if m.gauge.Some? then m.gauge.value else 0)
    && (mf.typ.COUNTER? ==> s.samples[0].value == if m.counter.Some? then m.counter.value else 0)
    && (mf.typ.UNTYPED? ==> s.samples[0].value == if m.untyped.Some? then m.untyped.value else 0)
  }

  ghost predicate CarriesAll(ss: seq<Series>, ms: seq<(MetricFamily, Metric)>, ts: Int64) {
    |ss| == |ms| && forall i :: 0 <= i < |ss| ==> Carries(ss[i], ms[i].0, ms[i].1, ts)
  }

  lemma CarriesJoin(
    a: seq<Series>, x: seq<(MetricFamily, Metric)>, b: seq<Series>, y: seq<(MetricFamily, Metric)>, ts: Int64)
    requires CarriesAll(a, x, ts) && CarriesAll(b, y, ts)
    ensures CarriesAll(a + b, x + y, ts)
  {
  }

  lemma MetricIsCarried(mf: MetricFamily, m: Metric, ts: Int64)
    requires mf.typ.GAUGE? || mf.typ.COUNTER? || mf.typ.UNTYPED?
    ensures CarriesAll(MetricSeries(mf, m, ts), [(mf, m)], ts)
  {
    Names();
    SeriesLabels(mf.name, m.labels, SampleValue(mf.typ, m).value, ts);
  }

  lemma {:induction false} FamilyIsCarried(mf: MetricFamily, metrics: seq<Metric>, ts: Int64)
    requires mf.typ.GAUGE? || mf.typ.COUNTER? || mf.typ.UNTYPED?
    ensures CarriesAll(FamilySeries(mf, metrics, ts), InFamily(mf, metrics), ts)
  {
    if metrics == [] {
    } else {
      var n := |metrics| - 1;
      FamilyIsCarried(mf, metrics[..n], ts);
      OneMoreMetric(mf, metrics, ts);
    }
  }

  lemma OneMoreMetric(mf: MetricFamily, metrics: seq<Metric>, ts: Int64)
    requires mf.typ.GAUGE? || mf.typ.COUNTER? || mf.typ.UNTYPED?
    requires metrics != [] && CarriesAll(FamilySeries(mf, metrics[..|metrics| - 1], ts), InFamily(mf, metrics[..|metrics| - 1]), ts)
    ensures CarriesAll(FamilySeries(mf, metrics, ts), InFamily(mf, metrics), ts)
  {
    var init, m := metrics[..|metrics| - 1], metrics[|metrics| - 1];
    MetricIsCarried(mf, m, ts);
    CarriesJoin(FamilySeries(mf, init, ts), InFamily(mf, init), MetricSeries(mf, m, ts), [(mf, m)], ts);
    InFamilySnoc(mf, metrics);
  }

  lemma InFamilySnoc(mf: MetricFamily, metrics: seq<Metric>)
    requires metrics != []
    ensures InFamily(mf, metrics) == InFamily(mf, metrics[..|metrics| - 1]) + [(mf, metrics[|metrics| - 1])]
  {
  }

  /** What a family contributes. */
  function FromFamily(mf: MetricFamily): seq<(MetricFamily, Metric)> {
    if Ascii("technician_") <= mf.name && (mf.typ.GAUGE? || mf.typ.COUNTER? || mf.typ.UNTYPED?)
    then InFamily(mf, mf.metrics)
    else []
  }

  lemma MatchingIsCarried(mf: MetricFamily, ts: Int64)
    ensures CarriesAll(MatchingSeries(mf, ts), FromFamily(mf), ts)
  {
    Names();
    FamilySeriesLength(mf, mf.metrics, ts);
    if mf.typ.GAUGE? || mf.typ.COUNTER? || mf.typ.UNTYPED? {
      FamilyIsCarried(mf, mf.metrics, ts);
    }
  }

  lemma {:induction false} AllIsCarried(mfs: seq<MetricFamily>, ts: Int64)
    ensures CarriesAll(SeriesOf(mfs, ts), ToSend(mfs), ts)
  {
    if mfs == [] {
    } else {
      var n := |mfs| - 1;
      AllIsCarried(mfs[..n], ts);
      MatchingIsCarried(mfs[n], ts);
      CarriesJoin(SeriesOf(mfs[..n], ts), ToSend(mfs[..n]), MatchingSeries(mfs[n], ts), FromFamily(mfs[n]), ts);
    }
  }

  /** What the receiver of a request reads: one series per metric to send, in order, each carrying its metric. */
  lemma RequestCarriesMetrics(mfs: seq<MetricFamily>, ts: Int64)
    requires |EncodeRequest(SeriesOf(mfs, ts))| < TWO_63
    ensures
      var read := DecodeWriteRequest(EncodeRequest(SeriesOf(mfs, ts)));
      read.Some? && CarriesAll(read.value, ToSend(mfs), ts)
    ensures SeriesOf(mfs, ts) == [] <==> ToSend(mfs) == []
  {
    AllIsCarried(mfs, ts);
    RequestRoundTrip(SeriesOf(mfs, ts));
  }
}
