/** Budget evaluation: per-metric thresholds merged from "*" and named entries, against one result. */
module Budget {
  import opened Wrappers
  import opened Check
  import opened Sorting

  datatype Entry = Entry(check: string, thresholds: map<string, real>)

  datatype CheckResult = CheckResult(
    check: string, metric: string, threshold: real, actual: real, inherited: bool, violated: bool)

  datatype Violation = Violation(check: string, metric: string, threshold: real, actual: real, inherited: bool)

  function ExtractMetrics(r: Result): map<string, real> {
    var m := map["duration" := Milliseconds(r.duration) as real];
    var m := if r.typ != "http" then m else
      m["ttfb" := Milliseconds(r.detail.ttfb) as real]
       ["dns" := Milliseconds(r.detail.dns) as real]
       ["tls" := Milliseconds(r.detail.tls) as real]
       ["response_bytes" := r.detail.responseBytes as real];
    var m := match r.webVitals
      case None => m
      case Some(v) =>
        var m := m["ttfb" := v.ttfb]["fcp" := v.fcp]["lcp" := v.lcp]["cls" := v.cls];
        (if v.inp > 0.0 then m["inp" := v.inp] else m)["dom_complete" := v.domComplete];
    var m := match r.harTransferBytes
      case None => m
      case Some(n) => m["total_transfer" := n as real];
    m["resource_count" := r.resourceCount as real]
  }

  /** Every measured metric is one of a fixed list of names, none of which holds a colon. */
  lemma MeasuredMetricsAreColonFree(r: Result, metric: string)
    requires metric in ExtractMetrics(r)
    ensures ':' !in metric
  {
    assert metric in ["duration", "ttfb", "dns", "tls", "response_bytes", "fcp", "lcp", "cls", "inp",
                      "dom_complete", "total_transfer", "resource_count"];
  }

  // ----- Reference: which threshold applies -----

  /** The threshold of the last entry for `who` that has one for the metric. */
  function LastThreshold(budgets: seq<Entry>, who: string, metric: string): Option<real> {
    if budgets == [] then None
    else
      var e := budgets[|budgets| - 1];
      if e.check == who && metric in e.thresholds then Some(e.thresholds[metric])
      else LastThreshold(budgets[..|budgets| - 1], who, metric)
  }

  datatype Applied = Applied(threshold: real, inherited: bool)

  /** A named threshold wins over an inherited one. */
  function AppliedThreshold(budgets: seq<Entry>, name: string, metric: string): Option<Applied> {
    match LastThreshold(budgets, name, metric)
    case Some(t) => Some(Applied(t, false))
    case None =>
      match LastThreshold(budgets, "*", metric)
      case Some(t) => Some(Applied(t, true))
      case None => None
  }

  /** The metrics that are both measured and budgeted. */
  ghost function Covered(result: Result, budgets: seq<Entry>): set<string> {
    set m | m in ExtractMetrics(result) && AppliedThreshold(budgets, result.name, m).Some?
  }

  ghost function ResultFor(result: Result, budgets: seq<Entry>, metric: string): CheckResult
    requires metric in Covered(result, budgets)
  {
    var applied := AppliedThreshold(budgets, result.name, metric).value;
    var actual := ExtractMetrics(result)[metric];
    CheckResult(result.name, metric, applied.threshold, actual, applied.inherited, actual > applied.threshold)
  }

  /** One result per covered metric, in metric order. */
  ghost function Evaluation(result: Result, budgets: seq<Entry>): (r: seq<CheckResult>) {
    var metrics := SortedListing(Covered(result, budgets));
    seq(|metrics|, i requires 0 <= i < |metrics| =>
      assert metrics[i] in metrics; ResultFor(result, budgets, metrics[i]))
  }

  // ----- Code -----

  /** The inner loop over one entry's thresholds, in whatever order the map yields them. */
  method MergeEntry(thresholds: map<string, real>, inherited: map<string, bool>, entry: Entry, flag: bool)
    returns (t: map<string, real>, inh: map<string, bool>)
    ensures Overlaid(t, thresholds, entry.thresholds.Keys, m => if m in entry.thresholds then entry.thresholds[m] else 0.0)
    ensures Overlaid(inh, inherited, entry.thresholds.Keys, m => flag)
  {
    t, inh := thresholds, inherited;
    var todo := entry.thresholds.Keys;
    while todo != {}
      invariant todo <= entry.thresholds.Keys
      invariant Overlaid(t, thresholds, entry.thresholds.Keys - todo, m => if m in entry.thresholds then entry.thresholds[m] else 0.0)
      invariant Overlaid(inh, inherited, entry.thresholds.Keys - todo, m => flag)
    {
      var metric :| metric in todo;
      t := t[metric := entry.thresholds[metric]];
      inh := inh[metric := flag];
      todo := todo - {metric};
    }
  }

  /** after is before with the keys in `over` set to f. */
  ghost predicate Overlaid<V>(after: map<string, V>, before: map<string, V>, over: set<string>, f: string -> V) {
    && (forall m :: m in after <==> m in before || m in over)
    && (forall m :: m in after ==> after[m] == if m in over then f(m) else before[m])
  }

  ghost predicate Merged(t: map<string, real>, inh: map<string, bool>, named: seq<Entry>, starred: seq<Entry>, name: string) {
    && t.Keys == inh.Keys
    && forall m ::
         (if m in t then Some(Applied(t[m], inh[m])) else None) ==
         match LastThreshold(named, name, m)
         case Some(v) => Some(Applied(v, false))
         case None =>
           match LastThreshold(starred, "*", m)
           case Some(v) => Some(Applied(v, true))
           case None => None
  }

  lemma StarStep(t: map<string, real>, inh: map<string, bool>, t': map<string, real>, inh': map<string, bool>,
                 starred: seq<Entry>, e: Entry, name: string)
    requires Merged(t, inh, [], starred, name) && e.check == "*"
    requires Overlaid(t', t, e.thresholds.Keys, m => if m in e.thresholds then e.thresholds[m] else 0.0)
    requires Overlaid(inh', inh, e.thresholds.Keys, m => true)
    ensures Merged(t', inh', [], starred + [e], name)
  {
    assert (starred + [e])[..|starred|] == starred;
    assert t'.Keys == inh'.Keys;
  }

  lemma NamedStep(t: map<string, real>, inh: map<string, bool>, t': map<string, real>, inh': map<string, bool>,
                  named: seq<Entry>, starred: seq<Entry>, e: Entry, name: string)
    requires Merged(t, inh, named, starred, name) && e.check == name
    requires Overlaid(t', t, e.thresholds.Keys, m => if m in e.thresholds then e.thresholds[m] else 0.0)
    requires Overlaid(inh', inh, e.thresholds.Keys, m => false)
    ensures Merged(t', inh', named + [e], starred, name)
  {
    assert (named + [e])[..|named|] == named;
    assert t'.Keys == inh'.Keys;
  }

  lemma OtherStep(t: map<string, real>, inh: map<string, bool>, named: seq<Entry>, starred: seq<Entry>, e: Entry, name: string)
    requires Merged(t, inh, named, starred, name)
    ensures e.check != name ==> Merged(t, inh, named + [e], starred, name)
    ensures e.check != "*" ==> Merged(t, inh, named, starred + [e], name)
  {
    assert (starred + [e])[..|starred|] == starred;
    assert (named + [e])[..|named|] == named;
  }

  method MergeThresholds(name: string, budgets: seq<Entry>) returns (t: map<string, real>, inh: map<string, bool>)
    ensures Merged(t, inh, budgets, budgets, name)
  {
    t, inh := map[], map[];
    for i := 0 to |budgets|
      invariant Merged(t, inh, [], budgets[..i], name)
    {
      assert budgets[..i + 1] == budgets[..i] + [budgets[i]];
      if budgets[i].check == "*" {
        ghost var t0, inh0 := t, inh;
        t, inh := MergeEntry(t, inh, budgets[i], true);
        StarStep(t0, inh0, t, inh, budgets[..i], budgets[i], name);
      } else {
        OtherStep(t, inh, [], budgets[..i], budgets[i], name);
      }
    }
    assert budgets[..|budgets|] == budgets;
    assert budgets[..0] == [];
    for i := 0 to |budgets|
      invariant Merged(t, inh, budgets[..i], budgets, name)
    {
      assert budgets[..i + 1] == budgets[..i] + [budgets[i]];
      if budgets[i].check == name {
        ghost var t0, inh0 := t, inh;
        t, inh := MergeEntry(t, inh, budgets[i], false);
        NamedStep(t0, inh0, t, inh, budgets[..i], budgets, budgets[i], name);
      } else {
        OtherStep(t, inh, budgets[..i], budgets, budgets[i], name);
      }
    }
  }

  method EvaluateAll(result: Result, budgets: seq<Entry>) returns (checks: seq<CheckResult>)
    ensures checks == Evaluation(result, budgets)
  {
    var actuals := ExtractMetrics(result);
    var thresholds, inherited := MergeThresholds(result.name, budgets);
    var metrics := SortedElements(thresholds.Keys);
    checks := Report(result.name, metrics, actuals, thresholds, inherited);
    forall m
      ensures m in thresholds <==> AppliedThreshold(budgets, result.name, m).Some?
      ensures m in thresholds ==>
                AppliedThreshold(budgets, result.name, m) == Some(Applied(thresholds[m], inherited[m]))
    {
    }
    assert (set m | m in metrics && m in actuals) == Covered(result, budgets);
    EvaluationIsUnique(checks, result, budgets);
  }

  /** The final loop: one result per sorted metric that was measured. */
  method Report(name: string, metrics: seq<string>, actuals: map<string, real>,
                thresholds: map<string, real>, inherited: map<string, bool>)
    returns (checks: seq<CheckResult>)
    requires StrictlySorted(metrics) && thresholds.Keys == inherited.Keys
    requires forall m :: m in metrics ==> m in thresholds
    ensures Lists(MetricsOf(checks), set m | m in metrics && m in actuals)
    ensures forall c :: c in checks ==>
              && c.metric in thresholds && c.metric in actuals
              && c == CheckResult(name, c.metric, thresholds[c.metric], actuals[c.metric], inherited[c.metric],
                                  actuals[c.metric] > thresholds[c.metric])
  {
    checks := [];
    for i := 0 to |metrics|
      invariant Lists(MetricsOf(checks), set m | m in metrics[..i] && m in actuals)
      invariant forall c :: c in checks ==>
                  && c.metric in thresholds && c.metric in actuals
                  && c == CheckResult(name, c.metric, thresholds[c.metric], actuals[c.metric], inherited[c.metric],
                                      actuals[c.metric] > thresholds[c.metric])
    {
      var metric := metrics[i];
      assert metric in metrics;
      assert metrics[..i + 1] == metrics[..i] + [metric];
      if metric in actuals {
        var c := CheckResult(name, metric, thresholds[metric], actuals[metric], inherited[metric],
                             actuals[metric] > thresholds[metric]);
        AppendLargest(MetricsOf(checks), metrics, i, actuals.Keys);
        assert MetricsOf(checks + [c]) == MetricsOf(checks) + [metric];
        checks := checks + [c];
      }
    }
    assert metrics[..|metrics|] == metrics;
  }

  function MetricsOf(checks: seq<CheckResult>): (ms: seq<string>)
    ensures |ms| == |checks|
    ensures forall i :: 0 <= i < |checks| ==> ms[i] == checks[i].metric
  {
    seq(|checks|, i requires 0 <= i < |checks| => checks[i].metric)
  }

  lemma AppendLargest(ms: seq<string>, sorted: seq<string>, i: nat, measured: set<string>)
    requires StrictlySorted(sorted) && i < |sorted| && sorted[i] in measured
    requires Lists(ms, set m | m in sorted[..i] && m in measured)
    ensures Lists(ms + [sorted[i]], set m | m in sorted[..i + 1] && m in measured)
  {
    forall j | 0 <= j < |ms|
      ensures StringLess(ms[j], sorted[i])
    {
      assert ms[j] in ms;
      var k :| 0 <= k < i && sorted[k] == ms[j];
    }
    assert sorted[..i + 1] == sorted[..i] + [sorted[i]];
  }

  /** The listed properties leave no choice, so map iteration order cannot show. */
  lemma EvaluationIsUnique(checks: seq<CheckResult>, result: Result, budgets: seq<Entry>)
    requires Lists(MetricsOf(checks), Covered(result, budgets))
    requires forall c :: c in checks ==> c.metric in Covered(result, budgets) && c == ResultFor(result, budgets, c.metric)
    ensures checks == Evaluation(result, budgets)
  {
    var ms := SortedListing(Covered(result, budgets));
    StrictlySortedIsUnique(MetricsOf(checks), ms);
    forall i | 0 <= i < |checks|
      ensures checks[i] == Evaluation(result, budgets)[i]
    {
      assert checks[i] in checks && MetricsOf(checks)[i] == ms[i];
    }
  }

  function ToViolation(c: CheckResult): Violation {
    Violation(c.check, c.metric, c.threshold, c.actual, c.inherited)
  }

  function ViolatedOnly(checks: seq<CheckResult>): seq<Violation> {
    if checks == [] then []
    else ViolatedOnly(checks[..|checks| - 1]) +
         (if checks[|checks| - 1].violated then [ToViolation(checks[|checks| - 1])] else [])
  }

  method Evaluate(result: Result, budgets: seq<Entry>) returns (violations: seq<Violation>)
    ensures violations == ViolatedOnly(Evaluation(result, budgets))
  {
    var checks := EvaluateAll(result, budgets);
    violations := [];
    for i := 0 to |checks|
      invariant violations == ViolatedOnly(checks[..i])
    {
      assert checks[..i + 1][..i] == checks[..i];
      if checks[i].violated {
        var c := checks[i];
        violations := violations + [Violation(c.check, c.metric, c.threshold, c.actual, c.inherited)];
      }
    }
    assert checks[..|checks|] == checks;
  }

  // ----- Results -----

  /**
   EvaluateAll reports a metric exactly when it is measured and budgeted, once, in strictly
   ascending order, with the named threshold when there is one and the inherited one otherwise.
   */
  lemma EvaluationMeaning(result: Result, budgets: seq<Entry>, metric: string)
    ensures StrictlySorted(MetricsOf(Evaluation(result, budgets)))
    ensures metric in MetricsOf(Evaluation(result, budgets)) <==>
              metric in ExtractMetrics(result) && AppliedThreshold(budgets, result.name, metric).Some?
    ensures forall i :: 0 <= i < |Evaluation(result, budgets)| ==>
              var c := Evaluation(result, budgets)[i];
              && c.check == result.name
              && c.metric in ExtractMetrics(result)
              && c.actual == ExtractMetrics(result)[c.metric]
              && AppliedThreshold(budgets, result.name, c.metric) == Some(Applied(c.threshold, c.inherited))
              && c.violated == (c.actual > c.threshold)
  {
    var ms := SortedListing(Covered(result, budgets));
    assert MetricsOf(Evaluation(result, budgets)) == ms;
    forall i | 0 <= i < |Evaluation(result, budgets)|
      ensures
        var c := Evaluation(result, budgets)[i];
        c.metric in Covered(result, budgets) && c == ResultFor(result, budgets, c.metric)
    {
      assert ms[i] in ms;
      assert Evaluation(result, budgets)[i] == ResultFor(result, budgets, ms[i]);
    }
  }

  lemma {:induction false} LastThresholdConcat(a: seq<Entry>, b: seq<Entry>, who: string, metric: string)
    ensures LastThreshold(a + b, who, metric) ==
              if LastThreshold(b, who, metric).Some? then LastThreshold(b, who, metric)
              else LastThreshold(a, who, metric)
  {
    if b == [] {
      assert a + b == a;
    } else {
      LastThresholdConcat(a, b[..|b| - 1], who, metric);
      assert (a + b)[..|a + b| - 1] == a + b[..|b| - 1];
    }
  }

  /** Adding an entry anywhere never takes a metric out of the evaluation. */
  lemma AddingEntryKeepsCoverage(a: seq<Entry>, e: Entry, b: seq<Entry>, result: Result)
    ensures Covered(result, a + b) <= Covered(result, a + [e] + b)
  {
    forall m, who | LastThreshold(a + b, who, m).Some?
      ensures LastThreshold(a + [e] + b, who, m).Some?
    {
      LastThresholdConcat(a, b, who, m);
      LastThresholdConcat(a + [e], b, who, m);
      LastThresholdConcat(a, [e], who, m);
    }
  }

  /** A named entry overrides its own metrics and leaves the defaults of all others in force. */
  lemma NamedEntryOverridesPerMetric(budgets: seq<Entry>, e: Entry, metric: string)
    requires e.check != "*"
    ensures
      AppliedThreshold(budgets + [e], e.check, metric) ==
      if metric in e.thresholds then Some(Applied(e.thresholds[metric], false))
      else AppliedThreshold(budgets, e.check, metric)
  {
    assert (budgets + [e])[..|budgets|] == budgets;
  }

  // ----- What is measured, by the fields of a result -----

  /** A duration in whole milliseconds, truncated toward zero. */
  function WholeMillis(d: int): real {
    (if d >= 0 then d / 1_000_000 else -(-d / 1_000_000)) as real
  }

  /** The value of a metric in a result: which field it comes from, and when there is one. */
  predicate Measures(r: Result, metric: string, v: real) {
    || (metric == "duration" && v == WholeMillis(r.duration))
    || (metric == "dns" && r.typ == "http" && v == WholeMillis(r.detail.dns))
    || (metric == "tls" && r.typ == "http" && v == WholeMillis(r.detail.tls))
    || (metric == "response_bytes" && r.typ == "http" && v == r.detail.responseBytes as real)
    || (metric == "ttfb" && r.typ == "http" && r.webVitals.None? && v == WholeMillis(r.detail.ttfb))
    || (metric == "resource_count" && v == r.resourceCount as real)
    || (metric == "total_transfer" && r.harTransferBytes.Some? && v == r.harTransferBytes.value as real)
    || (r.webVitals.Some? && MeasuresPage(r.webVitals.value, metric, v))
  }

  predicate MeasuresPage(page: WebVitals, metric: string, v: real) {
    || (metric == "ttfb" && v == page.ttfb)
    || (metric == "fcp" && v == page.fcp)
    || (metric == "lcp" && v == page.lcp)
    || (metric == "cls" && v == page.cls)
    || (metric == "inp" && page.inp > 0.0 && v == page.inp)
    || (metric == "dom_complete" && v == page.domComplete)
  }

  lemma MeasuresIff(r: Result, metric: string, v: real)
    ensures Measures(r, metric, v) <==> metric in ExtractMetrics(r) && ExtractMetrics(r)[metric] == v
  {
  }

  /**
   EvaluateAll in terms of the result's own fields: it reports a value for a metric exactly when the
   result measures that value and a threshold applies, and the verdict compares the two.
   */
  lemma EvaluationByFields(r: Result, budgets: seq<Entry>, metric: string, v: real)
    ensures
      (exists c :: c in Evaluation(r, budgets) && c.metric == metric && c.actual == v) <==>
      Measures(r, metric, v) && AppliedThreshold(budgets, r.name, metric).Some?
    ensures
      forall c :: c in Evaluation(r, budgets) ==>
        && c.check == r.name && Measures(r, c.metric, c.actual)
        && AppliedThreshold(budgets, r.name, c.metric) == Some(Applied(c.threshold, c.inherited))
        && c.violated == (c.actual > c.threshold)
  {
    var e := Evaluation(r, budgets);
    EvaluationMeaning(r, budgets, metric);
    MeasuresIff(r, metric, v);
    forall c | c in e
      ensures
        && c.check == r.name && Measures(r, c.metric, c.actual)
        && AppliedThreshold(budgets, r.name, c.metric) == Some(Applied(c.threshold, c.inherited))
        && c.violated == (c.actual > c.threshold)
    {
      MeasuresIff(r, c.metric, c.actual);
    }
    if metric in MetricsOf(e) {
      var i :| 0 <= i < |e| && MetricsOf(e)[i] == metric;
      assert e[i] in e && e[i].metric == metric;
    }
    if c :| c in e && c.metric == metric && c.actual == v {
      MeasuresIff(r, c.metric, c.actual);
    }
  }

  /** Results of one name that measure a metric alike are reported alike for it. */
  lemma SameMeasureSameReport(r: Result, other: Result, budgets: seq<Entry>, c: CheckResult)
    requires other.name == r.name
    requires Measures(r, c.metric, c.actual) <==> Measures(other, c.metric, c.actual)
    ensures c in Evaluation(r, budgets) <==> c in Evaluation(other, budgets)
  {
    EvaluationByFields(r, budgets, c.metric, c.actual);
    EvaluationByFields(other, budgets, c.metric, c.actual);
  }

  /** Each measured duration or count moves its own metric and no other. */
  lemma OneFieldOneMetric(r: Result, budgets: seq<Entry>, x: int, c: CheckResult)
    ensures c.metric != "duration" ==>
              (c in Evaluation(r, budgets) <==> c in Evaluation(r.(duration := x), budgets))
    ensures c.metric != "dns" ==>
              (c in Evaluation(r, budgets) <==> c in Evaluation(r.(detail := r.detail.(dns := x)), budgets))
    ensures c.metric != "tls" ==>
              (c in Evaluation(r, budgets) <==> c in Evaluation(r.(detail := r.detail.(tls := x)), budgets))
    ensures c.metric != "ttfb" ==>
              (c in Evaluation(r, budgets) <==> c in Evaluation(r.(detail := r.detail.(ttfb := x)), budgets))
    ensures c.metric != "response_bytes" ==>
              (c in Evaluation(r, budgets) <==> c in Evaluation(r.(detail := r.detail.(responseBytes := x)), budgets))
    ensures c.metric != "resource_count" ==>
              (c in Evaluation(r, budgets) <==> c in Evaluation(r.(resourceCount := x), budgets))
  {
    if c.metric != "duration" {
      SameMeasureSameReport(r, r.(duration := x), budgets, c);
    }
    if c.metric != "dns" {
      SameMeasureSameReport(r, r.(detail := r.detail.(dns := x)), budgets, c);
    }
    if c.metric != "tls" {
      SameMeasureSameReport(r, r.(detail := r.detail.(tls := x)), budgets, c);
    }
    if c.metric != "ttfb" {
      SameMeasureSameReport(r, r.(detail := r.detail.(ttfb := x)), budgets, c);
    }
    if c.metric != "response_bytes" {
      SameMeasureSameReport(r, r.(detail := r.detail.(responseBytes := x)), budgets, c);
    }
    if c.metric != "resource_count" {
      SameMeasureSameReport(r, r.(resourceCount := x), budgets, c);
    }
  }
}
