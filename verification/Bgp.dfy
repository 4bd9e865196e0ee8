/** The BGP check after its response is decoded: novelty baseline, verdict, and what retrying does to it. */
module Bgp {
  import opened Wrappers
  import opened Check
  import opened Retry

  datatype MoreSpecific = MoreSpecific(prefix: string, origin: int)

  /** A decoded routing-status response. */
  datatype Routing = Routing(origins: seq<int>, moreSpecifics: seq<MoreSpecific>)

  datatype Verdict =
    | QueryFailed
    | Rogue(announced: seq<MoreSpecific>)
    | Novel(prefixes: seq<string>)
    | NotVisible
    | OriginMismatch(asns: seq<int>)
    | RpkiInvalid
    | Healthy

  datatype Finding = Finding(verdict: Verdict, prefixVisible: bool, originMatch: bool, originASN: int) {
    predicate Success() { verdict.Healthy? }
    predicate InfraError() { verdict.QueryFailed? }
  }

  type Known = map<string, set<string>>

  function Prefixes(ms: seq<MoreSpecific>): (ps: seq<string>)
    ensures |ps| == |ms|
    ensures forall i :: 0 <= i < |ms| ==> ps[i] == ms[i].prefix
  {
    seq(|ms|, i requires 0 <= i < |ms| => ms[i].prefix)
  }

  function Unknown(current: seq<string>, known: set<string>): (r: seq<string>)
    ensures forall p :: p in r <==> p in current && p !in known
  {
    if current == [] then []
    else
      var n := |current| - 1;
      assert current == current[..n] + [current[n]];
      Unknown(current[..n], known) + (if current[n] in known then [] else [current[n]])
  }

  function NewPrefixes(known: Known, name: string, current: seq<string>): seq<string> {
    if name in known then Unknown(current, known[name]) else []
  }

  function Observed(known: Known, name: string, current: seq<string>): Known {
    known[name := set p | p in current]
  }

  function RogueOnes(ms: seq<MoreSpecific>, expected: int): (r: seq<MoreSpecific>)
    ensures forall m :: m in r <==> m in ms && m.origin != expected
  {
    if ms == [] then []
    else
      var n := |ms| - 1;
      assert ms == ms[..n] + [ms[n]];
      RogueOnes(ms[..n], expected) + (if ms[n].origin != expected then [ms[n]] else [])
  }

  function Unexpected(origins: seq<int>, expected: int): (r: seq<int>)
    ensures forall o :: o in r <==> o in origins && o != expected
  {
    if origins == [] then []
    else
      var n := |origins| - 1;
      assert origins == origins[..n] + [origins[n]];
      Unexpected(origins[..n], expected) + (if origins[n] != expected then [origins[n]] else [])
  }

  predicate Invalid(rpki: string) {
    "invalid" <= rpki
  }

  /** The findings in order of precedence. */
  function Judge(known: Known, name: string, expected: int, routing: Routing, rpki: string): Finding {
    var rogue := RogueOnes(routing.moreSpecifics, expected);
    var novel := NewPrefixes(known, name, Prefixes(routing.moreSpecifics));
    var visible := |routing.origins| > 0 || |routing.moreSpecifics| > 0;
    if rogue != [] then Finding(Rogue(rogue), visible, false, 0)
    else if novel != [] then Finding(Novel(novel), visible, false, 0)
    else if !visible then Finding(NotVisible, visible, false, 0)
    else
      var asn := if |routing.origins| > 0 then routing.origins[0] else 0;
      var unexpected := Unexpected(routing.origins, expected);
      if unexpected != [] then Finding(OriginMismatch(unexpected), visible, false, asn)
      else if Invalid(rpki) then Finding(RpkiInvalid, visible, true, asn)
      else Finding(Healthy, visible, true, asn)
  }

  method ScanMoreSpecifics(ms: seq<MoreSpecific>, expected: int)
    returns (prefixes: seq<string>, rogue: seq<MoreSpecific>)
    ensures prefixes == Prefixes(ms)
    ensures rogue == RogueOnes(ms, expected)
  {
    prefixes, rogue := [], [];
    for i := 0 to |ms|
      invariant |prefixes| == i && forall j :: 0 <= j < i ==> prefixes[j] == ms[j].prefix
      invariant rogue == RogueOnes(ms[..i], expected)
    {
      assert ms[..i + 1][..i] == ms[..i];
      prefixes := prefixes + [ms[i].prefix];
      if ms[i].origin != expected {
        rogue := rogue + [ms[i]];
      }
    }
    assert ms[..|ms|] == ms;
  }

  method ScanOrigins(origins: seq<int>, expected: int) returns (unexpected: seq<int>)
    ensures unexpected == Unexpected(origins, expected)
  {
    unexpected := [];
    for i := 0 to |origins|
      invariant unexpected == Unexpected(origins[..i], expected)
    {
      assert origins[..i + 1][..i] == origins[..i];
      if origins[i] != expected {
        unexpected := unexpected + [origins[i]];
      }
    }
    assert origins[..|origins|] == origins;
  }

  class BGPChecker {
    var known: map<string, set<string>>

    constructor ()
      ensures known == map[]
    {
      known := map[];
    }

    method ObserveMoreSpecifics(name: string, current: seq<string>) returns (newPrefixes: seq<string>)
      modifies this
      ensures newPrefixes == NewPrefixes(old(known), name, current)
      ensures known == Observed(old(known), name, current)
    {
      newPrefixes := [];
      if name in known {
        for i := 0 to |current|
          invariant known == old(known)
          invariant newPrefixes == Unknown(current[..i], known[name])
        {
          assert current[..i + 1][..i] == current[..i];
          if current[i] !in known[name] {
            newPrefixes := newPrefixes + [current[i]];
          }
        }
        assert current[..|current|] == current;
      }
      var next: set<string> := {};
      for i := 0 to |current|
        invariant known == old(known)
        invariant next == set p | p in current[..i]
      {
        assert current[..i + 1] == current[..i] + [current[i]];
        next := next + {current[i]};
      }
      assert current[..|current|] == current;
      known := known[name := next];
    }

    /** `query` is absent when the routing query failed; the baseline is then left alone. */
    method Run(name: string, expected: int, query: Option<Routing>, rpki: string) returns (finding: Finding)
      modifies this
      ensures query.None? ==> known == old(known) && finding == Finding(QueryFailed, false, false, 0)
      ensures query.Some? ==>
                && known == Observed(old(known), name, Prefixes(query.value.moreSpecifics))
                && finding == Judge(old(known), name, expected, query.value, rpki)
      ensures finding.InfraError() <==> query.None?
      ensures finding.verdict.RpkiInvalid? ==> "invalid" <= rpki
    {
      if query.None? {
        return Finding(QueryFailed, false, false, 0);
      }
      var routing := query.value;
      var prefixes, rogue := ScanMoreSpecifics(routing.moreSpecifics, expected);
      var novel := ObserveMoreSpecifics(name, prefixes);
      var visible := |routing.origins| > 0 || |routing.moreSpecifics| > 0;
      if |rogue| > 0 {
        return Finding(Rogue(rogue), visible, false, 0);
      }
      if |novel| > 0 {
        return Finding(Novel(novel), visible, false, 0);
      }
      if !visible {
        return Finding(NotVisible, visible, false, 0);
      }
      var asn := 0;
      if |routing.origins| > 0 {
        asn := routing.origins[0];
      }
      var unexpected := ScanOrigins(routing.origins, expected);
      if |unexpected| > 0 {
        return Finding(OriginMismatch(unexpected), visible, false, asn);
      }
      if Invalid(rpki) {
        return Finding(RpkiInvalid, visible, true, asn);
      }
      return Finding(Healthy, visible, true, asn);
    }
  }

  // ----- Runs of queries -----

  /** One run of the check named `name`; a failed query has no routing. */
  datatype Query = Query(name: string, routing: Option<Routing>)

  function KnownAfter(qs: seq<Query>): Known {
    if qs == [] then map[]
    else
      var known := KnownAfter(qs[..|qs| - 1]);
      var q := qs[|qs| - 1];
      match q.routing
      case None => known
      case Some(routing) => Observed(known, q.name, Prefixes(routing.moreSpecifics))
  }

  /** The last query of the named check that completed. */
  function LastCompleted(qs: seq<Query>, name: string): Option<Routing> {
    if qs == [] then None
    else
      var q := qs[|qs| - 1];
      if q.name == name && q.routing.Some? then q.routing else LastCompleted(qs[..|qs| - 1], name)
  }

  lemma {:induction false} BaselineIsLastCompleted(qs: seq<Query>, name: string)
    ensures name in KnownAfter(qs) <==> LastCompleted(qs, name).Some?
    ensures LastCompleted(qs, name).Some? ==>
              KnownAfter(qs)[name] == set p | p in Prefixes(LastCompleted(qs, name).value.moreSpecifics)
  {
    if qs == [] {
    } else {
      BaselineIsLastCompleted(qs[..|qs| - 1], name);
    }
  }

  /**
   A prefix is reported new exactly when this query has it, an earlier query of the check completed,
   and the latest of those did not have it. Failed queries in between change nothing.
   */
  lemma NewIffAbsentFromPrevious(qs: seq<Query>, name: string, current: seq<string>, prefix: string)
    ensures
      prefix in NewPrefixes(KnownAfter(qs), name, current) <==>
      && prefix in current
      && LastCompleted(qs, name).Some?
      && prefix !in Prefixes(LastCompleted(qs, name).value.moreSpecifics)
  {
    BaselineIsLastCompleted(qs, name);
  }

  ghost predicate SomeRogue(routing: Routing, expected: int) {
    exists m :: m in routing.moreSpecifics && m.origin != expected
  }

  ghost predicate SomeNew(qs: seq<Query>, name: string, routing: Routing) {
    && LastCompleted(qs, name).Some?
    && exists m :: m in routing.moreSpecifics && m.prefix !in Prefixes(LastCompleted(qs, name).value.moreSpecifics)
  }

  ghost predicate SomeUnexpected(routing: Routing, expected: int) {
    exists o :: o in routing.origins && o != expected
  }

  lemma FindingsPresent(qs: seq<Query>, name: string, expected: int, routing: Routing)
    ensures RogueOnes(routing.moreSpecifics, expected) != [] <==> SomeRogue(routing, expected)
    ensures NewPrefixes(KnownAfter(qs), name, Prefixes(routing.moreSpecifics)) != [] <==> SomeNew(qs, name, routing)
    ensures Unexpected(routing.origins, expected) != [] <==> SomeUnexpected(routing, expected)
  {
    EmptyIff(RogueOnes(routing.moreSpecifics, expected));
    EmptyIff(Unexpected(routing.origins, expected));
    BaselineIsLastCompleted(qs, name);
    if name in KnownAfter(qs) {
      EmptyIff(Unknown(Prefixes(routing.moreSpecifics), KnownAfter(qs)[name]));
      PrefixesCover(routing.moreSpecifics, KnownAfter(qs)[name]);
    }
  }

  /**
   The verdict of a completed query, by what the response and the previous completed one hold. A rogue
   announcement outranks a new prefix, which outranks a wrong origin, which outranks RPKI.
   */
  lemma VerdictMeaning(qs: seq<Query>, name: string, expected: int, routing: Routing, rpki: string)
    ensures
      var f := Judge(KnownAfter(qs), name, expected, routing, rpki);
      var alarming := SomeRogue(routing, expected) || SomeNew(qs, name, routing);
      && (f.verdict.Rogue? <==> SomeRogue(routing, expected))
      && (f.verdict.Novel? <==> SomeNew(qs, name, routing) && !SomeRogue(routing, expected))
      && (f.prefixVisible <==> routing.origins != [] || routing.moreSpecifics != [])
      && (f.verdict.NotVisible? <==> !f.prefixVisible)
      && (f.verdict.OriginMismatch? <==> SomeUnexpected(routing, expected) && !alarming)
      && (f.originMatch <==> f.prefixVisible && !alarming && !SomeUnexpected(routing, expected))
      && (f.verdict.RpkiInvalid? <==> f.originMatch && "invalid" <= rpki)
      && (f.verdict.Healthy? <==> f.originMatch && !("invalid" <= rpki))
      && (f.Success() <==> f.verdict.Healthy?)
      && (f.originMatch && routing.origins != [] ==> f.originASN == expected)
      && (f.verdict.Rogue? ==> forall m :: m in f.verdict.announced <==> m in routing.moreSpecifics && m.origin != expected)
      && (f.verdict.Novel? ==>
            forall p :: p in f.verdict.prefixes <==>
              && p in Prefixes(routing.moreSpecifics)
              && LastCompleted(qs, name).Some? && p !in Prefixes(LastCompleted(qs, name).value.moreSpecifics))
      && (f.verdict.OriginMismatch? ==> forall o :: o in f.verdict.asns <==> o in routing.origins && o != expected)
  {
    FindingsPresent(qs, name, expected, routing);
    BaselineIsLastCompleted(qs, name);
    if routing.origins != [] {
      assert routing.origins[0] in routing.origins;
    }
  }

  lemma EmptyIff<T>(s: seq<T>)
    ensures s == [] <==> forall x :: x !in s
  {
    if s == [] {
    } else {
      assert s[0] in s;
    }
  }

  lemma PrefixesCover(ms: seq<MoreSpecific>, known: set<string>)
    ensures (forall p :: p in Prefixes(ms) ==> p in known) <==> (forall m :: m in ms ==> m.prefix in known)
  {
    if forall p :: p in Prefixes(ms) ==> p in known {
      forall m | m in ms
        ensures m.prefix in known
      {
        var i :| 0 <= i < |ms| && ms[i] == m;
        assert Prefixes(ms)[i] in Prefixes(ms);
      }
    }
    if forall m :: m in ms ==> m.prefix in known {
      forall p | p in Prefixes(ms)
        ensures p in known
      {
        var i :| 0 <= i < |ms| && Prefixes(ms)[i] == p;
        assert ms[i] in ms;
      }
    }
  }

  // ----- Novelty under retry -----

  /** The baseline before call k of a check that is retried while the routing table does not change. */
  function BaselineAt(known: Known, name: string, routing: Routing, k: nat): Known {
    if k == 0 then known else Observed(BaselineAt(known, name, routing, k - 1), name, Prefixes(routing.moreSpecifics))
  }

  function OutcomeAt(
    known: Known, name: string, expected: int, routing: Routing, rpki: nat -> string, base: Result, k: nat): Result
  {
    var finding := Judge(BaselineAt(known, name, routing, k), name, expected, routing, rpki(k));
    base.(success := finding.Success(), infraError := finding.InfraError(), retries := 0)
  }

  lemma NothingNewAfterObserving(known: Known, name: string, current: seq<string>)
    ensures NewPrefixes(Observed(known, name, current), name, current) == []
  {
    var again := NewPrefixes(Observed(known, name, current), name, current);
    EmptyIff(again);
  }

  /** Novelty is the only thing wrong with this table. */
  predicate OnlyNovel(known: Known, name: string, expected: int, routing: Routing) {
    && Judge(known, name, expected, routing, "").verdict.Novel?
    && Unexpected(routing.origins, expected) == []
  }

  lemma SecondCallSucceeds(
    known: Known, name: string, expected: int, routing: Routing, rpki: nat -> string, base: Result)
    requires OnlyNovel(known, name, expected, routing)
    ensures !OutcomeAt(known, name, expected, routing, rpki, base, 0).success
    ensures OutcomeAt(known, name, expected, routing, rpki, base, 1).success <==> !Invalid(rpki(1))
  {
    assert BaselineAt(known, name, routing, 1) ==
           Observed(BaselineAt(known, name, routing, 0), name, Prefixes(routing.moreSpecifics));
    NothingNewAfterObserving(known, name, Prefixes(routing.moreSpecifics));
    assert NewPrefixes(known, name, Prefixes(routing.moreSpecifics))[0] in Prefixes(routing.moreSpecifics);
  }

  /**
   A run whose only finding is a new prefix is published as a failure exactly when no retry takes
   place. With a retry the second call has already learnt the prefix, so the published result is a
   success with one retry and the alert is lost.
   */
  lemma NoveltyIsMaskedByRetry(
    known: Known, name: string, expected: int, routing: Routing, rpki: nat -> string, base: Result,
    run: nat -> Result, cancelled: nat -> bool, policy: Option<Policy>, result: Result, calls: nat, waits: seq<int>)
    requires OnlyNovel(known, name, expected, routing)
    requires !Invalid(rpki(1))
    requires forall k: nat :: run(k) == OutcomeAt(known, name, expected, routing, rpki, base, k)
    requires IsRetryRun(run, cancelled, policy, result, calls, waits)
    ensures result.success <==> Allowed(policy) >= 1 && !cancelled(1)
    ensures result.success ==> result.retries == 1 && calls == 2
    ensures !result.success ==> result.retries == 0 && calls == 1
  {
    SecondCallSucceeds(known, name, expected, routing, rpki, base);
    assert !run(0).success && run(1).success;
  }

  /** When novelty is the only finding, in terms of the response and the previous completed one. */
  lemma OnlyNovelIff(qs: seq<Query>, name: string, expected: int, routing: Routing)
    ensures
      OnlyNovel(KnownAfter(qs), name, expected, routing) <==>
      SomeNew(qs, name, routing) && !SomeRogue(routing, expected) && !SomeUnexpected(routing, expected)
  {
    FindingsPresent(qs, name, expected, routing);
    VerdictMeaning(qs, name, expected, routing, "");
  }

  /** A first query saw only the covering prefix, announced by the expected origin. */
  const QUIET := [Query("edge", Some(Routing([1], [])))]

  /** The next response has a more-specific from that origin as well. */
  const DEAGGREGATED := Routing([1], [MoreSpecific("10.0.0.0/25", 1)])

  lemma NewPrefixAppears()
    ensures OnlyNovel(KnownAfter(QUIET), "edge", 1, DEAGGREGATED)
  {
    var before := Routing([1], []);
    assert LastCompleted(QUIET, "edge") == Some(before);
    var m := MoreSpecific("10.0.0.0/25", 1);
    assert m in DEAGGREGATED.moreSpecifics && m.prefix !in Prefixes(before.moreSpecifics);
    OnlyNovelIff(QUIET, "edge", 1, DEAGGREGATED);
  }

  /** Those two responses under a policy with one retry: the first call fails, the published result does not. */
  lemma LostAlert(
    base: Result, run: nat -> Result, cancelled: nat -> bool, delay: int,
    result: Result, calls: nat, waits: seq<int>)
    requires forall k: nat :: run(k) == OutcomeAt(KnownAfter(QUIET), "edge", 1, DEAGGREGATED, k => "valid", base, k)
    requires !cancelled(1)
    requires IsRetryRun(run, cancelled, Some(Policy(1, delay, Constant)), result, calls, waits)
    ensures !run(0).success && result.success && result.retries == 1
  {
    NewPrefixAppears();
    SecondCallSucceeds(KnownAfter(QUIET), "edge", 1, DEAGGREGATED, k => "valid", base);
    NoveltyIsMaskedByRetry(KnownAfter(QUIET), "edge", 1, DEAGGREGATED, k => "valid", base, run, cancelled,
      Some(Policy(1, delay, Constant)), result, calls, waits);
  }
}
