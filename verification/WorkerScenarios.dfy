/**
 Concrete runs of the drain loop for properties that one might expect of it and that fail: a second
 violation streak, checks that share a name, two metrics that cross together, a certificate that
 turns critical soon after its warning, and two outages within one cooldown.
 */
module WorkerScenarios {
  import opened Wrappers
  import opened Check
  import opened Streaks
  import opened StoreModel
  import opened Notify
  import opened Worker
  import opened WebhookRuns
  import Budget
  import Keys

  // ----- A second streak goes unannounced -----

  function Timed(typ: string, milliseconds: int): Result {
    Result("api", typ, "", "", true, false, milliseconds * NANOS_PER_MILLI, 1,
           Detail("", 200, 0, 0, 0, 0), None, None, 0, Cert(0, false, 0, 0), 0)
  }

  const LIMIT_100: seq<Budget.Entry> := [Budget.Entry("*", map["duration" := 100.0])]

  lemma TimedFlag(typ: string, milliseconds: nat)
    ensures PairFlags(Flagged(Timed(typ, milliseconds), LIMIT_100), "api", "duration") == [milliseconds > 100]
  {
    var r := Timed(typ, milliseconds);
    FlagMeaning(r, LIMIT_100, "api", "duration");
    assert LIMIT_100[..0] == [];
    assert Budget.LastThreshold(LIMIT_100, "api", "duration") == None;
    assert Budget.LastThreshold(LIMIT_100, "*", "duration") == Some(100.0);
    assert Budget.ExtractMetrics(r)["duration"] == milliseconds as real;
  }

  ghost function ApiFlags(inputs: seq<Input>): seq<bool> {
    RecordedFlags(inputs, LIMIT_100, "api", "duration")
  }

  function Measured(typ: string, milliseconds: int): Input {
    Input(Timed(typ, milliseconds), 0)
  }

  ghost function ApiFlagsOf(inputs: seq<Input>, typ: string): seq<bool> {
    FlagsOfType(inputs, LIMIT_100, typ, "api", "duration")
  }

  /** The budget events for "api" of a process that starts without stored budgets. */
  ghost function ApiEvents(inputs: seq<Input>): nat {
    CountAbout(Lifetime(map[], inputs, LIMIT_100).events, "api", "duration")
  }

  lemma ApiEventsAre(inputs: seq<Input>)
    ensures ApiEvents(inputs) == if Crossings(0, ApiFlags(inputs)) > 0 then 1 else 0
  {
    OneBudgetEventPerProcess(map[], inputs, LIMIT_100, "api", "duration");
  }

  lemma RecordOne(inputs: seq<Input>, typ: string, milliseconds: nat)
    ensures ApiFlags(inputs + [Measured(typ, milliseconds)]) == ApiFlags(inputs) + [milliseconds > 100]
  {
    TimedFlag(typ, milliseconds);
    assert (inputs + [Measured(typ, milliseconds)])[..|inputs|] == inputs;
  }

  lemma RecordOneOf(inputs: seq<Input>, typ: string, milliseconds: nat, t: string)
    ensures
      ApiFlagsOf(inputs + [Measured(typ, milliseconds)], t) ==
      ApiFlagsOf(inputs, t) + if t == typ then [milliseconds > 100] else []
  {
    TimedFlag(typ, milliseconds);
    assert (inputs + [Measured(typ, milliseconds)])[..|inputs|] == inputs;
  }

  function Slow(durations: seq<nat>): (r: seq<bool>)
    ensures |r| == |durations| && forall i :: 0 <= i < |r| ==> r[i] == (durations[i] > 100)
  {
    if durations == [] then [] else Slow(durations[..|durations| - 1]) + [durations[|durations| - 1] > 100]
  }

  lemma {:induction false} RecordAll(durations: seq<nat>) returns (inputs: seq<Input>)
    ensures ApiFlags(inputs) == Slow(durations)
  {
    if durations == [] {
      inputs := [];
    } else {
      var n := |durations| - 1;
      var init := RecordAll(durations[..n]);
      RecordOne(init, "http", durations[n]);
      inputs := init + [Measured("http", durations[n])];
    }
  }

  lemma TwoStreaksCrossTwice()
    ensures Crossings(0, [true, true, true] + [false] + [true, true, true]) == 2
  {
    ThreeInARow();
    StreaksConcat(0, [true, true, true] + [false], [true, true, true]);
    StreaksConcat(0, [true, true, true], [false]);
    StreakOne(3, false);
  }

  /**
   Three slow runs, a fast one and three slow ones again: the metric becomes newly violated twice, and
   the threshold is crossed twice, but only the first crossing is announced.
   */
  lemma SecondStreakIsSilent() returns (inputs: seq<Input>)
    ensures
      var flags := ApiFlags(inputs);
      && flags == [true, true, true] + [false] + [true, true, true]
      && Crossings(0, flags) == 2
      && ApiEvents(inputs) == 1
  {
    inputs := RecordAll([200, 200, 200, 50, 200, 200, 200]);
    assert ApiFlags(inputs) == [true, true, true] + [false] + [true, true, true];
    TwoStreaksCrossTwice();
    ApiEventsAre(inputs);
  }

  lemma ThreeInARow()
    ensures StreakFrom(0, [true, true, true]) == 3 && Crossings(0, [true, true, true]) == 1
  {
    StreakOne(0, true);
    StreaksConcat(0, [true], [true]);
    StreakOne(1, true);
    StreaksConcat(0, [true] + [true], [true]);
    StreakOne(2, true);
    assert [true] + [true] + [true] == [true, true, true];
  }

  // ----- Two checks of one name -----

  /** A slow http check and a fast traceroute check, both named "api", taking turns. */
  function TakingTurns(n: nat): seq<Input> {
    if n == 0 then [] else TakingTurns(n - 1) + [Measured("http", 200)] + [Measured("traceroute", 50)]
  }

  ghost predicate AllTrue(flags: seq<bool>) {
    forall i :: 0 <= i < |flags| ==> flags[i]
  }

  function TurnFlags(n: nat): seq<bool> {
    if n == 0 then [] else TurnFlags(n - 1) + [true] + [false]
  }

  /** n turns have been recorded: the store has seen them all, the http check only violations. */
  ghost predicate TurnsSeen(inputs: seq<Input>, n: nat) {
    && ApiFlags(inputs) == TurnFlags(n)
    && |ApiFlagsOf(inputs, "http")| == n
    && AllTrue(ApiFlagsOf(inputs, "http"))
  }

  lemma OneMoreTurn(before: seq<Input>, n: nat)
    requires TurnsSeen(before, n)
    ensures TurnsSeen(before + [Measured("http", 200)] + [Measured("traceroute", 50)], n + 1)
  {
    RecordOne(before, "http", 200);
    RecordOne(before + [Measured("http", 200)], "traceroute", 50);
    RecordOneOf(before, "http", 200, "http");
    RecordOneOf(before + [Measured("http", 200)], "traceroute", 50, "http");
  }

  lemma {:induction false} TurnsRecord(n: nat)
    ensures TurnsSeen(TakingTurns(n), n)
  {
    if n == 0 {
    } else {
      TurnsRecord(n - 1);
      OneMoreTurn(TakingTurns(n - 1), n - 1);
    }
  }

  lemma {:induction false} TurnsNeverCross(n: nat)
    ensures StreakFrom(0, TurnFlags(n)) == 0 && Crossings(0, TurnFlags(n)) == 0
  {
    if n == 0 {
    } else {
      TurnsNeverCross(n - 1);
      StreaksConcat(0, TurnFlags(n - 1), [true]);
      StreakOne(0, true);
      StreaksConcat(0, TurnFlags(n - 1) + [true], [false]);
      StreakOne(1, false);
    }
  }

  /** A check that violates its budget in every single run, however long, is never announced. */
  lemma SharedNameHidesViolations(n: nat)
    ensures
      var inputs := TakingTurns(n);
      && |ApiFlagsOf(inputs, "http")| == n
      && AllTrue(ApiFlagsOf(inputs, "http"))
      && Crossings(0, ApiFlags(inputs)) == 0
      && ApiEvents(inputs) == 0
  {
    TurnsRecord(n);
    TurnsNeverCross(n);
    ApiEventsAre(TakingTurns(n));
  }

  lemma JointFlags(one: seq<Input>, two: seq<Input>)
    requires one == [] + [Measured("http", 200)] && two == one + [Measured("traceroute", 200)]
    ensures ApiFlagsOf(two + [Measured("http", 200)], "http") == [true, true]
    ensures ApiFlagsOf(two + [Measured("http", 200)], "traceroute") == [true]
  {
    RecordOneOf([], "http", 200, "http");
    RecordOneOf(one, "traceroute", 200, "http");
    RecordOneOf(two, "http", 200, "http");
    RecordOneOf([], "http", 200, "traceroute");
    RecordOneOf(one, "traceroute", 200, "traceroute");
    RecordOneOf(two, "http", 200, "traceroute");
  }

  /** Two checks cross the threshold together although neither violated three times in a row. */
  lemma SharedNameCrossesJointly() returns (inputs: seq<Input>)
    ensures ApiFlagsOf(inputs, "http") == [true, true] && ApiFlagsOf(inputs, "traceroute") == [true]
    ensures Crossings(0, ApiFlags(inputs)) == 1
    ensures ApiEvents(inputs) == 1
  {
    var one := [] + [Measured("http", 200)];
    var two := one + [Measured("traceroute", 200)];
    inputs := two + [Measured("http", 200)];
    RecordOne([], "http", 200);
    RecordOne(one, "traceroute", 200);
    RecordOne(two, "http", 200);
    JointFlags(one, two);
    assert ApiFlags(inputs) == [true, true, true];
    ThreeInARow();
    ApiEventsAre(inputs);
  }

  // ----- Two metrics that cross together -----

  /** An "api" result that is slow and loads many resources. */
  const HEAVY := Timed("playwright", 200).(resourceCount := 20)

  const TWO_LIMITS: seq<Budget.Entry> := [Budget.Entry("*", map["duration" := 100.0, "resource_count" := 10.0])]

  lemma HeavyViolates(metric: string)
    requires metric == "duration" || metric == "resource_count"
    ensures PairFlags(Flagged(HEAVY, TWO_LIMITS), "api", metric) == [true]
  {
    FlagMeaning(HEAVY, TWO_LIMITS, "api", metric);
    assert TWO_LIMITS[..0] == [];
    assert Budget.LastThreshold(TWO_LIMITS, "api", metric) == None;
    assert Budget.LastThreshold(TWO_LIMITS, "*", metric) == Some(if metric == "duration" then 100.0 else 10.0);
    assert Budget.ExtractMetrics(HEAVY)["duration"] == 200.0;
    assert Budget.ExtractMetrics(HEAVY)["resource_count"] == 20.0;
  }

  lemma RecordedSnoc(inputs: seq<Input>, input: Input, entries: seq<Budget.Entry>, check: string, metric: string)
    ensures RecordedFlags(inputs + [input], entries, check, metric) ==
              RecordedFlags(inputs, entries, check, metric) + PairFlags(Flagged(input.r, entries), check, metric)
  {
    assert (inputs + [input])[..|inputs|] == inputs;
  }

  lemma {:induction false} CountFinds(es: seq<Event>, check: string, metric: string) returns (k: nat)
    requires CountAbout(es, check, metric) > 0
    ensures k < |es| && About(es[k], check, metric)
  {
    var n := |es| - 1;
    if About(es[n], check, metric) {
      k := n;
    } else {
      k := CountFinds(es[..n], check, metric);
    }
  }

  /** The same result three times. */
  function Thrice(r: Result): seq<Input> {
    [] + [Input(r, 0)] + [Input(r, 0)] + [Input(r, 0)]
  }

  lemma ThriceAtZero(r: Result)
    ensures InputsInOrder(Thrice(r)) && forall i :: 0 <= i < |Thrice(r)| ==> Thrice(r)[i].now == 0
  {
  }

  lemma ThriceRecorded(r: Result, entries: seq<Budget.Entry>, check: string, metric: string)
    requires PairFlags(Flagged(r, entries), check, metric) == [true]
    ensures RecordedFlags(Thrice(r), entries, check, metric) == [true, true, true]
  {
    var x := Input(r, 0);
    RecordedSnoc([], x, entries, check, metric);
    RecordedSnoc([] + [x], x, entries, check, metric);
    RecordedSnoc([] + [x] + [x], x, entries, check, metric);
  }

  /** A violation in three results in a row is announced. */
  lemma ThirdIsAnnounced(r: Result, entries: seq<Budget.Entry>, check: string, metric: string) returns (k: nat)
    requires PairFlags(Flagged(r, entries), check, metric) == [true] && ':' !in metric
    ensures
      var log := DispatchLog(map[], Thrice(r), entries);
      k < |log| && About(log[k].e, check, metric)
  {
    ThriceRecorded(r, entries, check, metric);
    ThreeInARow();
    OneBudgetEventPerProcess(map[], Thrice(r), entries, check, metric);
    k := CountFinds(Lifetime(map[], Thrice(r), entries).events, check, metric);
    LogListsEvents(map[], Thrice(r), entries);
  }

  lemma {:induction false} LogInstants(b: Budgets, inputs: seq<Input>, entries: seq<Budget.Entry>, now: int, k: nat)
    requires forall i :: 0 <= i < |inputs| ==> inputs[i].now == now
    requires k < |DispatchLog(b, inputs, entries)|
    ensures DispatchLog(b, inputs, entries)[k].now == now
  {
    var n := |inputs| - 1;
    if k < |DispatchLog(b, inputs[..n], entries)| {
      LogInstants(b, inputs[..n], entries, now, k);
    }
  }

  /**
   Three heavy results announce both metrics, in one result. A webhook with any cooldown is sent at
   most one of the two in the whole lifetime of the process.
   */
  lemma OneOfTwoMetricsIsLost(webhooks: seq<Webhook>, i: nat) returns (a: nat, k: nat)
    requires i < |webhooks| && webhooks[i].cooldown > 0
    ensures
      var log := DispatchLog(map[], Thrice(HEAVY), TWO_LIMITS);
      && a < |log| && About(log[a].e, "api", "duration")
      && k < |log| && About(log[k].e, "api", "resource_count")
      && !(EverSent(webhooks, log, i, "api", "duration") && EverSent(webhooks, log, i, "api", "resource_count"))
  {
    HeavyViolates("duration");
    HeavyViolates("resource_count");
    a, k := TogetherOneIsLost(webhooks, i, HEAVY, TWO_LIMITS, "api", "duration", "resource_count");
  }

  lemma TogetherOneIsLost(
    webhooks: seq<Webhook>, i: nat, r: Result, entries: seq<Budget.Entry>, check: string, m1: string, m2: string)
    returns (a: nat, k: nat)
    requires i < |webhooks| && webhooks[i].cooldown > 0
    requires ':' !in m1 && ':' !in m2 && m1 != m2
    requires PairFlags(Flagged(r, entries), check, m1) == PairFlags(Flagged(r, entries), check, m2) == [true]
    ensures
      var log := DispatchLog(map[], Thrice(r), entries);
      && a < |log| && About(log[a].e, check, m1)
      && k < |log| && About(log[k].e, check, m2)
      && !(EverSent(webhooks, log, i, check, m1) && EverSent(webhooks, log, i, check, m2))
  {
    a := ThirdIsAnnounced(r, entries, check, m1);
    k := ThirdIsAnnounced(r, entries, check, m2);
    ThriceAtZero(r);
    LogInstants(map[], Thrice(r), entries, 0, a);
    LogInstants(map[], Thrice(r), entries, 0, k);
    NotBothSent(webhooks, map[], Thrice(r), entries, i, check, m1, m2, a, k);
  }

  // ----- A certificate that turns critical soon after its warning -----

  function Expiring(days: int): Result {
    Timed("tls", 10).(name := "site", cert := Cert(days, true, 0, 0))
  }

  /** A warning, a critical result a nanosecond later, and whatever follows. */
  function Escalation(more: seq<Input>): seq<Input> {
    [Input(Expiring(20), 0), Input(Expiring(3), 1)] + more
  }

  ghost predicate RemainsCritical(more: seq<Input>) {
    && InputsInOrder(Escalation(more))
    && forall j :: 0 <= j < |more| && HasCertData(more[j].r) && more[j].r.name == "site" ==> ShowsCritical(more[j].r, "site")
  }

  lemma EscalationIsCritical(more: seq<Input>)
    requires RemainsCritical(more)
    ensures CriticalFrom(Results(Escalation(more)), "site", 1)
    ensures ExpiryEvent(Results(Escalation(more)), 0) == Some(CertEvent(Expiring(20)))
  {
    var rs := Results(Escalation(more));
    assert rs[..1] == [Expiring(20)] && rs[..1][..0] == [] && rs[..0] == [];
    CertEventsOnTransition([], Expiring(20));
    forall j | 1 < j < |rs| && HasCertData(rs[j]) && rs[j].name == "site"
      ensures ShowsCritical(rs[j], "site")
    {
      assert rs[j] == more[j - 2].r;
    }
  }

  /**
   A webhook that accepts certificate events of any severity and has a cooldown of more than a
   nanosecond is sent the warning, and never anything about the certificate being critical, for as long
   as it stays so.
   */
  lemma EscalationIsLost(webhooks: seq<Webhook>, i: nat, more: seq<Input>) returns (a: nat)
    requires i < |webhooks| && CertExpiring in webhooks[i].events && webhooks[i].severities.None?
    requires webhooks[i].cooldown > 1 && RemainsCritical(more)
    ensures
      var inputs := Escalation(more);
      var log := DispatchLog(map[], inputs, []);
      && a < |log| && log[a] == Dispatch(CertEvent(Expiring(20)), 0) && SentIn(webhooks, log, a, i)
      && !CertSentSince(webhooks, log, i, "site", LogStart(map[], inputs, [], 1))
  {
    var inputs := Escalation(more);
    EscalationIsCritical(more);
    a := ExpirySentFirst(webhooks, i, map[], inputs, [], CertEvent(Expiring(20)));
    CriticalIsLost(webhooks, map[], inputs, [], "site", 1, i, a);
  }

  // ----- Two outages within one cooldown -----

  function Probe(typ: string, success: bool): Result {
    Timed(typ, 10).(success := success)
  }

  /** An http and a traceroute check named "api": both succeed once, then both fail n times, taking turns. */
  function BothFail(n: nat): seq<Result> {
    if n == 0 then [Probe("http", true)] + [Probe("traceroute", true)]
    else BothFail(n - 1) + [Probe("http", false)] + [Probe("traceroute", false)]
  }

  function Trues(n: nat): seq<bool> {
    if n == 0 then [] else Trues(n - 1) + [true]
  }

  lemma {:induction false} TruesTrail(n: nat)
    ensures TrailingTrue(Trues(n)) == n && |Trues(n)| == n
  {
    if n == 0 {
    } else {
      TruesTrail(n - 1);
      TrailingTrueSnoc(Trues(n - 1), true);
    }
  }

  predicate OneOfTwo(typ: string) {
    typ == "http" || typ == "traceroute"
  }

  lemma KeysDiffer()
    ensures Keys.CheckKey("http", "api") != Keys.CheckKey("traceroute", "api")
  {
    assert Keys.CheckKey("http", "api")[0] == 'h' && Keys.CheckKey("traceroute", "api")[0] == 't';
  }

  lemma ProbeIsRelevant(typ: string, success: bool, other: string)
    requires OneOfTwo(typ) && OneOfTwo(other)
    ensures Relevant(Probe(typ, success), Keys.CheckKey(other, "api")) <==> typ == other
  {
    KeysDiffer();
  }

  lemma TurnAddsFlags(rs: seq<Result>, h: Result, t: Result, key: string)
    ensures
      FailureFlags(rs + [h] + [t], key) ==
      FailureFlags(rs, key) + (if Relevant(h, key) then [!h.success] else []) + (if Relevant(t, key) then [!t.success] else [])
  {
    CountedFlagsSnoc(rs, h, key);
    CountedFlagsSnoc(rs + [h], t, key);
  }

  /** Of the two probes of a turn exactly one belongs to the check. */
  lemma TurnAddsOne(rs: seq<Result>, success: bool, typ: string)
    requires OneOfTwo(typ)
    ensures
      FailureFlags(rs + [Probe("http", success)] + [Probe("traceroute", success)], Keys.CheckKey(typ, "api")) ==
      FailureFlags(rs, Keys.CheckKey(typ, "api")) + [!success]
  {
    ProbeIsRelevant("http", success, typ);
    ProbeIsRelevant("traceroute", success, typ);
    TurnAddsFlags(rs, Probe("http", success), Probe("traceroute", success), Keys.CheckKey(typ, "api"));
  }

  lemma {:induction false} BothFailFlags(n: nat, typ: string)
    requires OneOfTwo(typ)
    ensures FailureFlags(BothFail(n), Keys.CheckKey(typ, "api")) == [false] + Trues(n)
  {
    if n == 0 {
      TurnAddsOne([], true, typ);
      assert [] + [Probe("http", true)] == [Probe("http", true)];
    } else {
      BothFailFlags(n - 1, typ);
      TurnAddsOne(BothFail(n - 1), false, typ);
    }
  }

  function AtZero(rs: seq<Result>): (inputs: seq<Input>)
    ensures |inputs| == |rs| && forall j :: 0 <= j < |rs| ==> inputs[j] == Input(rs[j], 0)
  {
    seq(|rs|, j requires 0 <= j < |rs| => Input(rs[j], 0))
  }

  /** After a baseline and two failures of both, the next failure of either begins an outage. */
  lemma ThirdFailureBeginsOutage(rs: seq<Result>, k: nat, typ: string)
    requires OneOfTwo(typ) && k < |rs| && rs[k] == Probe(typ, false)
    requires FailureFlags(rs[..k], Keys.CheckKey(typ, "api")) == [false] + Trues(2)
    requires forall j :: k < j < |rs| ==> !rs[j].success
    ensures OutageFrom(rs, k)
  {
    var key := Keys.CheckKey(typ, "api");
    assert CountedFlags(rs[..k], key) == Trues(2);
    TruesTrail(2);
    TrailingTrueSnoc(Trues(2), true);
  }

  lemma BothOutages()
    ensures |BothFail(3)| == 8 && OutageFrom(BothFail(3), 6) && OutageFrom(BothFail(3), 7)
    ensures BothFail(3)[6] == Probe("http", false) && BothFail(3)[7] == Probe("traceroute", false)
  {
    var rs, before := BothFail(3), BothFail(2);
    BothFailFlags(2, "http");
    BothFailFlags(2, "traceroute");
    BothFailLength(2);
    assert rs[..6] == before && rs[..7] == before + [Probe("http", false)];
    ProbeIsRelevant("http", false, "traceroute");
    CountedFlagsSnoc(before, Probe("http", false), Keys.CheckKey("traceroute", "api"));
    ThirdFailureBeginsOutage(rs, 6, "http");
    ThirdFailureBeginsOutage(rs, 7, "traceroute");
  }

  lemma {:induction false} BothFailLength(n: nat)
    ensures |BothFail(n)| == 2 * n + 2
  {
    if n == 0 {
    } else {
      BothFailLength(n - 1);
    }
  }

  /**
   Two checks of one name go down: both outages are announced, and a webhook with any cooldown is sent
   at most one of them.
   */
  lemma OneOfTwoOutagesIsLost(webhooks: seq<Webhook>, i: nat)
    requires i < |webhooks| && webhooks[i].cooldown > 0
    ensures
      var inputs := AtZero(BothFail(3));
      var log := DispatchLog(map[], inputs, []);
      && |inputs| == 8
      && OutageFrom(Results(inputs), 6) && OutageFrom(Results(inputs), 7)
      && !(OutageSent(webhooks, log, i, inputs[6].r, LogStart(map[], inputs, [], 6)) &&
           OutageSent(webhooks, log, i, inputs[7].r, LogStart(map[], inputs, [], 7)))
  {
    var inputs := AtZero(BothFail(3));
    BothOutages();
    assert Results(inputs) == BothFail(3);
    NotBothOutages(webhooks, map[], inputs, [], 6, 7, i);
  }
}
