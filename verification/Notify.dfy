/**
 The notification manager: debounced down/up events, budget events, certificate-severity
 events, and the per-webhook filter and cooldown that decide which of them are sent.
 An event is "dispatched" when a state machine emits it; sending is decided per webhook.
 */
module Notify {
  import opened Wrappers
  import opened Check
  import opened Streaks
  import Keys

  const CONSECUTIVE_FAIL_THRESHOLD := 3

  datatype EventType = CheckDown | CheckUp | BudgetViolation | CertExpiring {
    function Name(): (s: string)
      ensures ':' !in s
    {
      match this
      case CheckDown => "check_down"
      case CheckUp => "check_up"
      case BudgetViolation => "budget_violation"
      case CertExpiring => "cert_expiring"
    }
  }

  datatype Severity = NoSeverity | Warning | Critical {
    function Name(): string {
      match this
      case NoSeverity => ""
      case Warning => "warning"
      case Critical => "critical"
    }
  }

  datatype Event = Event(
    typ: EventType, severity: Severity, check: string, checkType: string, metric: string, timestamp: int)

  // ----- Check results -----

  datatype CheckTracker = CheckTracker(
    states: map<string, bool>, failCounts: map<string, int>, notifiedDown: set<string>)

  const NO_CHECKS := CheckTracker(map[], map[], {})

  function FailCount(t: CheckTracker, key: string): int {
    if key in t.failCounts then t.failCounts[key] else 0
  }

  function DownEvent(r: Result): Event {
    Event(CheckDown, Critical, r.name, r.typ, "", r.timestamp)
  }

  function UpEvent(r: Result): Event {
    Event(CheckUp, NoSeverity, r.name, r.typ, "", r.timestamp)
  }

  function OnResult(t: CheckTracker, r: Result): (CheckTracker, Option<Event>) {
    if r.infraError then (t, None)
    else
      var key := Keys.CheckKey(r.typ, r.name);
      var seen := key in t.states;
      var t1 := t.(states := t.states[key := r.success]);
      if !seen then (t1, None)
      else if r.success then
        (t1.(failCounts := t.failCounts[key := 0], notifiedDown := t.notifiedDown - {key}),
         if key in t.notifiedDown then Some(UpEvent(r)) else None)
      else
        var count := FailCount(t, key) + 1;
        var t2 := t1.(failCounts := t.failCounts[key := count]);
        if count == CONSECUTIVE_FAIL_THRESHOLD && key !in t.notifiedDown
        then (t2.(notifiedDown := t.notifiedDown + {key}), Some(DownEvent(r)))
        else (t2, None)
  }

  function RunResults(rs: seq<Result>): CheckTracker {
    if rs == [] then NO_CHECKS else OnResult(RunResults(rs[..|rs| - 1]), rs[|rs| - 1]).0
  }

  /** What the manager dispatches for the last result of rs. */
  function DispatchedLast(rs: seq<Result>): Option<Event>
    requires rs != []
  {
    OnResult(RunResults(rs[..|rs| - 1]), rs[|rs| - 1]).1
  }

  // ----- Reference: the failure flags of one check -----

  predicate Relevant(r: Result, key: string) {
    !r.infraError && Keys.CheckKey(r.typ, r.name) == key
  }

  /** Failure flags of the relevant results of a check, oldest first. */
  function FailureFlags(rs: seq<Result>, key: string): seq<bool> {
    if rs == [] then []
    else
      var r := rs[|rs| - 1];
      FailureFlags(rs[..|rs| - 1], key) + (if Relevant(r, key) then [!r.success] else [])
  }

  /** The same without the first result, which only sets the baseline. */
  function CountedFlags(rs: seq<Result>, key: string): seq<bool> {
    var flags := FailureFlags(rs, key);
    if flags == [] then [] else flags[1..]
  }

  ghost predicate TracksKey(t: CheckTracker, rs: seq<Result>, key: string) {
    && (key in t.states <==> FailureFlags(rs, key) != [])
    && FailCount(t, key) == TrailingTrue(CountedFlags(rs, key))
    && (key in t.notifiedDown <==> TrailingTrue(CountedFlags(rs, key)) >= CONSECUTIVE_FAIL_THRESHOLD)
  }

  lemma CountedFlagsSnoc(rs: seq<Result>, r: Result, key: string)
    ensures
      CountedFlags(rs + [r], key) ==
      if Relevant(r, key) && FailureFlags(rs, key) != [] then CountedFlags(rs, key) + [!r.success]
      else CountedFlags(rs, key)
    ensures FailureFlags(rs + [r], key) == FailureFlags(rs, key) + (if Relevant(r, key) then [!r.success] else [])
  {
    assert (rs + [r])[..|rs|] == rs;
  }

  lemma OnResultTracks(t: CheckTracker, rs: seq<Result>, r: Result, key: string)
    requires TracksKey(t, rs, key)
    ensures TracksKey(OnResult(t, r).0, rs + [r], key)
  {
    CountedFlagsSnoc(rs, r, key);
    TrailingTrueSnoc(CountedFlags(rs, key), !r.success);
  }

  lemma {:induction false} RunTracks(rs: seq<Result>, key: string)
    ensures TracksKey(RunResults(rs), rs, key)
  {
    if rs == [] {
    } else {
      var n := |rs| - 1;
      RunTracks(rs[..n], key);
      OnResultTracks(RunResults(rs[..n]), rs[..n], rs[n], key);
      assert rs == rs[..n] + [rs[n]];
    }
  }

  /** A check is marked down exactly while its trailing failure run is 3 or longer. */
  lemma NotifiedDownIffThree(rs: seq<Result>, key: string)
    ensures key in RunResults(rs).notifiedDown <==> FailCount(RunResults(rs), key) >= 3
    ensures FailCount(RunResults(rs), key) == TrailingTrue(CountedFlags(rs, key))
  {
    RunTracks(rs, key);
  }

  /**
   For every stream of results of any checks: the last result dispatches check_down exactly when
   it makes its own check's counted failure run reach 3, check_up exactly when it is a success
   that ends a counted run of 3 or more, and nothing otherwise.
   */
  lemma DispatchIsDebounced(rs: seq<Result>, r: Result)
    ensures
      var flags := CountedFlags(rs, Keys.CheckKey(r.typ, r.name));
      var counted := !r.infraError && FailureFlags(rs, Keys.CheckKey(r.typ, r.name)) != [];
      DispatchedLast(rs + [r]) ==
      if counted && !r.success && TrailingTrue(flags + [true]) == 3
      then Some(Event(CheckDown, Critical, r.name, r.typ, "", r.timestamp))
      else if counted && r.success && TrailingTrue(flags) >= 3
      then Some(Event(CheckUp, NoSeverity, r.name, r.typ, "", r.timestamp))
      else None
  {
    var key := Keys.CheckKey(r.typ, r.name);
    assert (rs + [r])[..|rs|] == rs;
    RunTracks(rs, key);
    TrailingTrueSnoc(CountedFlags(rs, key), true);
  }

  /** The event types dispatched for one check, oldest first. */
  function EventTypes(rs: seq<Result>, key: string): seq<EventType> {
    if rs == [] then []
    else
      var r := rs[|rs| - 1];
      EventTypes(rs[..|rs| - 1], key) +
      (if Keys.CheckKey(r.typ, r.name) == key && DispatchedLast(rs).Some? then [DispatchedLast(rs).value.typ] else [])
  }

  /** An event flips the down mark of its check, down setting it and up clearing it; nothing else touches a mark. */
  lemma EventFlipsMark(t: CheckTracker, r: Result, key: string)
    ensures
      var (t', event) := OnResult(t, r);
      if Keys.CheckKey(r.typ, r.name) == key && event.Some?
      then event.value.typ == (if key in t.notifiedDown then CheckUp else CheckDown) &&
           (key in t'.notifiedDown <==> key !in t.notifiedDown)
      else key in t'.notifiedDown <==> key in t.notifiedDown
  {
  }

  ghost predicate Alternating(types: seq<EventType>) {
    forall i :: 0 <= i < |types| ==> types[i] == if i % 2 == 0 then CheckDown else CheckUp
  }

  lemma AlternatingSnoc(types: seq<EventType>)
    requires Alternating(types)
    ensures Alternating(types + [if |types| % 2 == 0 then CheckDown else CheckUp])
  {
  }

  /** Down and up events of a check alternate, beginning with down, and the last one tells its state. */
  lemma {:induction false} EventsAlternate(rs: seq<Result>, key: string)
    ensures Alternating(EventTypes(rs, key))
    ensures |EventTypes(rs, key)| % 2 == 1 <==> key in RunResults(rs).notifiedDown
  {
    if rs == [] {
    } else {
      var n := |rs| - 1;
      EventsAlternate(rs[..n], key);
      AlternatingSnoc(EventTypes(rs[..n], key));
      EventFlipsMark(RunResults(rs[..n]), rs[n], key);
    }
  }

  // ----- Certificates -----

  type CertTracker = map<string, Severity>

  predicate HasCertData(r: Result) {
    r.typ == "tls" && !(r.cert.daysRemaining == 0 && !r.cert.valid)
  }

  function CertSeverity(r: Result): Severity {
    if r.cert.daysRemaining <= r.cert.CriticalDays() then Critical
    else if r.cert.daysRemaining <= r.cert.WarnDays() then Warning
    else NoSeverity
  }

  function CertKey(name: string): string {
    "cert:" + name
  }

  function CertAt(c: CertTracker, key: string): Severity {
    if key in c then c[key] else NoSeverity
  }

  function OnCert(c: CertTracker, r: Result): (CertTracker, Option<Event>) {
    if !HasCertData(r) then (c, None)
    else
      var key := CertKey(r.name);
      var severity := CertSeverity(r);
      if severity == NoSeverity then (c - {key}, None)
      else if CertAt(c, key) == severity then (c, None)
      else (c[key := severity], Some(Event(CertExpiring, severity, r.name, r.typ, "", r.timestamp)))
  }

  function RunCerts(rs: seq<Result>): CertTracker {
    if rs == [] then map[] else OnCert(RunCerts(rs[..|rs| - 1]), rs[|rs| - 1]).0
  }

  /** Severity of the latest result of the named check that carried certificate data. */
  function LatestCertSeverity(rs: seq<Result>, name: string): Severity {
    if rs == [] then NoSeverity
    else
      var r := rs[|rs| - 1];
      if HasCertData(r) && r.name == name then CertSeverity(r) else LatestCertSeverity(rs[..|rs| - 1], name)
  }

  lemma {:induction false} CertStateIsLatest(rs: seq<Result>, name: string)
    ensures CertAt(RunCerts(rs), CertKey(name)) == LatestCertSeverity(rs, name)
  {
    if rs == [] {
    } else {
      var n := |rs| - 1;
      CertStateIsLatest(rs[..n], name);
      CertKeyInjective(rs[n].name, name);
    }
  }

  lemma CertKeyInjective(a: string, b: string)
    ensures CertKey(a) == CertKey(b) ==> a == b
  {
    assert CertKey(a)[5..] == a && CertKey(b)[5..] == b;
  }

  /**
   A certificate event fires exactly on a change of severity into warning or critical, measured
   against the previous result that carried certificate data, so leaving the window re-arms it.
   */
  lemma CertEventsOnTransition(rs: seq<Result>, r: Result)
    ensures
      OnCert(RunCerts(rs), r).1 ==
      if HasCertData(r) && CertSeverity(r) != NoSeverity && CertSeverity(r) != LatestCertSeverity(rs, r.name)
      then Some(Event(CertExpiring, CertSeverity(r), r.name, r.typ, "", r.timestamp))
      else None
  {
    CertStateIsLatest(rs, r.name);
  }

  /**
   The severity by the result's own fields: critical from the configured number of days on, 7 unless
   that is positive, warning likewise from 30, and there is certificate data for a TLS result unless it
   shows an invalid certificate with no days left.
   */
  lemma CertSeverityByFields(r: Result)
    ensures
      var days, cert := r.cert.daysRemaining, r.cert;
      var critical := days <= if cert.critDaysVal > 0 then cert.critDaysVal else 7;
      var warning := days <= if cert.warnDaysVal > 0 then cert.warnDaysVal else 30;
      && (CertSeverity(r) == Critical <==> critical)
      && (CertSeverity(r) == Warning <==> warning && !critical)
      && (HasCertData(r) <==> r.typ == "tls" && (days != 0 || cert.valid))
  {
  }

  // ----- Budgets -----

  type BudgetTracker = map<string, bool>

  function BudgetFlag(b: BudgetTracker, key: string): bool {
    if key in b then b[key] else false
  }

  function OnBudget(b: BudgetTracker, check: string, metric: string, violated: bool, now: int)
    : (BudgetTracker, Option<Event>)
  {
    var key := Keys.BudgetKey(check, metric);
    (b[key := violated],
     if violated && !BudgetFlag(b, key)
     then Some(Event(BudgetViolation, Warning, check, "", metric, now))
     else None)
  }

  datatype BudgetCall = BudgetCall(check: string, metric: string, violated: bool, now: int) {
    function Key(): string {
      Keys.BudgetKey(check, metric)
    }
  }

  function RunBudgets(calls: seq<BudgetCall>): BudgetTracker {
    if calls == [] then map[]
    else
      var c := calls[|calls| - 1];
      OnBudget(RunBudgets(calls[..|calls| - 1]), c.check, c.metric, c.violated, c.now).0
  }

  /** The latest call about the key, if any, said violated. */
  ghost predicate LastSaidViolated(calls: seq<BudgetCall>, key: string) {
    exists i ::
      && 0 <= i < |calls| && calls[i].Key() == key && calls[i].violated
      && forall j :: i < j < |calls| ==> calls[j].Key() != key
  }

  lemma {:induction false} BudgetFlagIsLatest(calls: seq<BudgetCall>, key: string)
    ensures BudgetFlag(RunBudgets(calls), key) <==> LastSaidViolated(calls, key)
  {
    if calls == [] {
    } else {
      var n := |calls| - 1;
      BudgetFlagIsLatest(calls[..n], key);
      if calls[n].Key() == key {
        assert LastSaidViolated(calls, key) <==> calls[n].violated;
      } else {
        assert LastSaidViolated(calls, key) <==> LastSaidViolated(calls[..n], key);
      }
    }
  }

  /**
   Over any calls: a budget event is dispatched exactly when the call says violated and the previous
   call about the same check and metric, if there is one, did not.
   */
  lemma BudgetEventsOnTransition(calls: seq<BudgetCall>, c: BudgetCall)
    ensures
      OnBudget(RunBudgets(calls), c.check, c.metric, c.violated, c.now).1 ==
      if c.violated && !LastSaidViolated(calls, c.Key())
      then Some(Event(BudgetViolation, Warning, c.check, "", c.metric, c.now))
      else None
  {
    BudgetFlagIsLatest(calls, c.Key());
  }

  // ----- Per-webhook filter and cooldown -----

  /** `severities` absent means all severities. */
  datatype Webhook = Webhook(events: set<EventType>, severities: Option<set<Severity>>, cooldown: int)

  /** A webhook as configured: no events or no severities means all, and no positive cooldown five minutes. */
  datatype WebhookConfig = WebhookConfig(events: seq<string>, severities: seq<string>, cooldown: int)

  const DEFAULT_COOLDOWN := 5 * 60 * 1_000_000_000

  const ALL_EVENTS := {CheckDown, CheckUp, BudgetViolation, CertExpiring}

  /** Names that are no event type or severity are kept by the source and never match. */
  function Configured(wc: WebhookConfig): Webhook {
    Webhook(
      if wc.events == [] then ALL_EVENTS else set t | t in ALL_EVENTS && t.Name() in wc.events,
      if wc.severities == [] then None else Some(set s | s in {Warning, Critical} && s.Name() in wc.severities),
      if wc.cooldown > 0 then wc.cooldown else DEFAULT_COOLDOWN)
  }

  /** A configured webhook accepts an event by the names in its configuration; an event without severity passes that filter. */
  lemma ConfiguredAccepts(wc: WebhookConfig, e: Event)
    ensures
      Accepts(Configured(wc), e) <==>
      && (wc.events == [] || e.typ.Name() in wc.events)
      && (wc.severities == [] || e.severity == NoSeverity || e.severity.Name() in wc.severities)
    ensures Configured(wc).cooldown == if wc.cooldown > 0 then wc.cooldown else 300_000_000_000
  {
    assert e.typ.CheckDown? || e.typ.CheckUp? || e.typ.BudgetViolation? || e.typ.CertExpiring?;
    assert e.severity.NoSeverity? || e.severity.Warning? || e.severity.Critical?;
  }

  /** The names a configuration uses. */
  lemma ConfiguredNames()
    ensures CheckDown.Name() == "check_down" && CheckUp.Name() == "check_up"
    ensures BudgetViolation.Name() == "budget_violation" && CertExpiring.Name() == "cert_expiring"
    ensures Warning.Name() == "warning" && Critical.Name() == "critical"
  {
  }

  method ConfigureAll(configs: seq<WebhookConfig>) returns (webhooks: seq<Webhook>)
    ensures |webhooks| == |configs| && forall i :: 0 <= i < |configs| ==> webhooks[i] == Configured(configs[i])
  {
    webhooks := [];
    for i := 0 to |configs|
      invariant |webhooks| == i && forall j :: 0 <= j < i ==> webhooks[j] == Configured(configs[j])
    {
      var wc := configs[i];
      var events: set<EventType> := {};
      if |wc.events| == 0 {
        events := ALL_EVENTS;
      } else {
        events := Recognised(wc.events);
      }
      var cooldown := DEFAULT_COOLDOWN;
      if wc.cooldown > 0 {
        cooldown := wc.cooldown;
      }
      var severities: Option<set<Severity>> := None;
      if |wc.severities| > 0 {
        severities := Some(set s | s in {Warning, Critical} && s.Name() in wc.severities);
      }
      webhooks := webhooks + [Webhook(events, severities, cooldown)];
    }
  }

  /** The event types named in a list. */
  method Recognised(names: seq<string>) returns (events: set<EventType>)
    ensures events == set t | t in ALL_EVENTS && t.Name() in names
  {
    events := {};
    for i := 0 to |names|
      invariant events == set t | t in ALL_EVENTS && t.Name() in names[..i]
    {
      assert names[..i + 1] == names[..i] + [names[i]];
      var all := ALL_EVENTS;
      events := events + set t | t in all && t.Name() == names[i];
    }
    assert names[..|names|] == names;
  }

  predicate Accepts(wh: Webhook, e: Event) {
    && e.typ in wh.events
    && !(wh.severities.Some? && e.severity != NoSeverity && e.severity !in wh.severities.value)
  }

  function Digit(d: nat): char
    requires d < 10
  {
    "0123456789"[d]
  }

  function Decimal(n: nat): string {
    if n < 10 then [Digit(n)] else Decimal(n / 10) + [Digit(n % 10)]
  }

  /** fmt.Sprintf("%d:%s:%s", i, check, type). */
  function CooldownKey(i: nat, check: string, typ: EventType): string {
    Decimal(i) + ":" + Keys.BudgetKey(check, typ.Name())
  }

  lemma {:induction false} DecimalIsColonFree(n: nat)
    ensures ':' !in Decimal(n) && |Decimal(n)| >= 1
  {
    if n < 10 {
    } else {
      DecimalIsColonFree(n / 10);
    }
  }

  lemma {:induction false} DecimalInjective(m: nat, n: nat)
    requires Decimal(m) == Decimal(n)
    ensures m == n
  {
    DecimalIsColonFree(m / 10);
    DecimalIsColonFree(n / 10);
    if m >= 10 && n >= 10 {
      var s := Decimal(m);
      assert s[..|s| - 1] == Decimal(m / 10) && s[..|s| - 1] == Decimal(n / 10);
      DecimalInjective(m / 10, n / 10);
      assert s[|s| - 1] == Digit(m % 10) && s[|s| - 1] == Digit(n % 10);
    }
  }

  /** Different webhooks, checks or event types never share a cooldown. */
  lemma CooldownKeyInjective(i: nat, c: string, t: EventType, j: nat, d: string, u: EventType)
    requires CooldownKey(i, c, t) == CooldownKey(j, d, u)
    ensures i == j && c == d && t == u
  {
    DecimalIsColonFree(i);
    DecimalIsColonFree(j);
    Keys.SameKeySameCheck({Decimal(i), Decimal(j)},
      Decimal(i), Keys.BudgetKey(c, t.Name()), Decimal(j), Keys.BudgetKey(d, u.Name())) by {
      NoExtension(Decimal(i), Decimal(j));
      NoExtension(Decimal(j), Decimal(i));
      NoExtension(Decimal(i), Decimal(i));
      NoExtension(Decimal(j), Decimal(j));
    }
    assert Keys.CheckKey(Decimal(i), Keys.BudgetKey(c, t.Name())) == CooldownKey(i, c, t);
    DecimalInjective(i, j);
    Keys.BudgetKeyInjective(c, t.Name(), d, u.Name());
  }

  lemma NoExtension(a: string, b: string)
    requires ':' !in a
    ensures !(b + ":" <= a)
  {
    if b + ":" <= a {
      Keys.ExtensionCollides(a, b);
    }
  }

  predicate Sends(webhooks: seq<Webhook>, i: nat, lastSent: map<string, int>, e: Event, now: int)
    requires i < |webhooks|
  {
    var key := CooldownKey(i, e.check, e.typ);
    && Accepts(webhooks[i], e)
    && !(key in lastSent && now - lastSent[key] < webhooks[i].cooldown)
  }

  function At(m: map<string, int>, key: string): Option<int> {
    if key in m then Some(m[key]) else None
  }

  lemma SendsByLookup(webhooks: seq<Webhook>, i: nat, lastSent: map<string, int>, e: Event, now: int)
    requires i < |webhooks|
    ensures
      Sends(webhooks, i, lastSent, e, now) <==>
      && Accepts(webhooks[i], e)
      && match At(lastSent, CooldownKey(i, e.check, e.typ))
         case Some(t) => now - t >= webhooks[i].cooldown
         case None => true
  {
  }

  /** The send times after the first n webhooks have been offered the event: all offers look at the old times. */
  function Stamped(webhooks: seq<Webhook>, n: nat, lastSent: map<string, int>, e: Event, now: int): map<string, int>
    requires n <= |webhooks|
  {
    if n == 0 then lastSent
    else
      var before := Stamped(webhooks, n - 1, lastSent, e, now);
      if Sends(webhooks, n - 1, lastSent, e, now) then before[CooldownKey(n - 1, e.check, e.typ) := now] else before
  }

  function AfterDispatch(webhooks: seq<Webhook>, lastSent: map<string, int>, e: Event, now: int): map<string, int> {
    Stamped(webhooks, |webhooks|, lastSent, e, now)
  }

  /** The numbers below n that are selected, in order. */
  function Selected(n: nat, select: int -> bool): seq<int> {
    if n == 0 then [] else Selected(n - 1, select) + if select(n - 1) then [n - 1] else []
  }

  /** Those of the first n webhooks that get the event, in order. */
  function SentTo(webhooks: seq<Webhook>, n: nat, lastSent: map<string, int>, e: Event, now: int): seq<int>
    requires n <= |webhooks|
  {
    Selected(n, i => 0 <= i < |webhooks| && Sends(webhooks, i, lastSent, e, now))
  }

  predicate SameSubject(a: Event, b: Event) {
    a.check == b.check && a.typ == b.typ
  }

  lemma SameKeyIff(n: nat, e: Event, i: nat, f: Event)
    ensures CooldownKey(n, e.check, e.typ) == CooldownKey(i, f.check, f.typ) <==> n == i && SameSubject(e, f)
  {
    if CooldownKey(n, e.check, e.typ) == CooldownKey(i, f.check, f.typ) {
      CooldownKeyInjective(n, e.check, e.typ, i, f.check, f.typ);
    }
  }

  lemma AtUpdated(m: map<string, int>, key: string, now: int, other: string)
    ensures At(m[key := now], other) == if other == key then Some(now) else At(m, other)
  {
  }

  /** Exactly the webhooks that got the event have a new send time, and only for its check and type. */
  lemma {:induction false} StampedAt(
    webhooks: seq<Webhook>, n: nat, lastSent: map<string, int>, e: Event, now: int, i: nat, f: Event)
    requires n <= |webhooks| && i < |webhooks|
    ensures
      At(Stamped(webhooks, n, lastSent, e, now), CooldownKey(i, f.check, f.typ)) ==
      if i < n && SameSubject(e, f) && Sends(webhooks, i, lastSent, e, now) then Some(now)
      else At(lastSent, CooldownKey(i, f.check, f.typ))
  {
    if n == 0 {
    } else {
      var before := Stamped(webhooks, n - 1, lastSent, e, now);
      StampedAt(webhooks, n - 1, lastSent, e, now, i, f);
      SameKeyIff(n - 1, e, i, f);
      AtUpdated(before, CooldownKey(n - 1, e.check, e.typ), now, CooldownKey(i, f.check, f.typ));
    }
  }

  ghost predicate AscendingBelow(s: seq<int>, n: nat) {
    && (forall k :: 0 <= k < |s| ==> 0 <= s[k] < n)
    && (forall j, k :: 0 <= j < k < |s| ==> s[j] < s[k])
  }

  lemma {:induction false} SelectedIsExact(n: nat, select: int -> bool)
    ensures AscendingBelow(Selected(n, select), n)
    ensures forall i :: 0 <= i < n ==> (i in Selected(n, select) <==> select(i))
  {
    if n == 0 {
    } else {
      SelectedIsExact(n - 1, select);
      var before := Selected(n - 1, select);
      assert n - 1 !in before && forall i :: i in before + [n - 1] <==> i in before || i == n - 1;
    }
  }

  /** The event goes to exactly the webhooks that accept it and are not cooling down, in their order. */
  lemma SentToIsExact(webhooks: seq<Webhook>, n: nat, lastSent: map<string, int>, e: Event, now: int)
    requires n <= |webhooks|
    ensures AscendingBelow(SentTo(webhooks, n, lastSent, e, now), n)
    ensures forall i :: 0 <= i < n ==> (i in SentTo(webhooks, n, lastSent, e, now) <==> Sends(webhooks, i, lastSent, e, now))
  {
    SelectedIsExact(n, i => 0 <= i < |webhooks| && Sends(webhooks, i, lastSent, e, now));
  }

  /** Offers already made do not influence the next one. */
  lemma OffersAreIndependent(webhooks: seq<Webhook>, n: nat, lastSent: map<string, int>, e: Event, now: int)
    requires n < |webhooks|
    ensures Sends(webhooks, n, Stamped(webhooks, n, lastSent, e, now), e, now) == Sends(webhooks, n, lastSent, e, now)
  {
    StampedAt(webhooks, n, lastSent, e, now, n, e);
    SendsByLookup(webhooks, n, Stamped(webhooks, n, lastSent, e, now), e, now);
    SendsByLookup(webhooks, n, lastSent, e, now);
  }

  // ----- Runs of dispatches -----

  datatype Dispatch = Dispatch(e: Event, now: int)

  function RunDispatches(webhooks: seq<Webhook>, log: seq<Dispatch>): map<string, int> {
    if log == [] then map[]
    else
      var d := log[|log| - 1];
      AfterDispatch(webhooks, RunDispatches(webhooks, log[..|log| - 1]), d.e, d.now)
  }

  /** Dispatch k of the log is sent to webhook i. */
  ghost predicate SentIn(webhooks: seq<Webhook>, log: seq<Dispatch>, k: nat, i: nat)
    requires k < |log| && i < |webhooks|
  {
    Sends(webhooks, i, RunDispatches(webhooks, log[..k]), log[k].e, log[k].now)
  }

  ghost predicate ClockNonDecreasing(log: seq<Dispatch>) {
    forall i, j :: 0 <= i <= j < |log| ==> log[i].now <= log[j].now
  }

  /** The index of the latest of the first n dispatches about e's check and type that webhook i got. */
  ghost function LastSend(webhooks: seq<Webhook>, log: seq<Dispatch>, n: nat, i: nat, e: Event): (r: Option<nat>)
    requires n <= |log| && i < |webhooks|
    ensures r.Some? ==> r.value < n && Reached(webhooks, log, r.value, i, e)
    ensures forall b: nat :: (if r.Some? then r.value + 1 else 0) <= b < n ==> !Reached(webhooks, log, b, i, e)
  {
    if n == 0 then None
    else if Reached(webhooks, log, n - 1, i, e) then Some(n - 1)
    else LastSend(webhooks, log, n - 1, i, e)
  }

  /** Dispatch k was about e's check and type and was sent to webhook i. */
  ghost predicate Reached(webhooks: seq<Webhook>, log: seq<Dispatch>, k: nat, i: nat, e: Event)
    requires k < |log| && i < |webhooks|
  {
    SentIn(webhooks, log, k, i) && SameSubject(log[k].e, e)
  }

  lemma {:induction false} LastSentIsLastSend(webhooks: seq<Webhook>, log: seq<Dispatch>, n: nat, i: nat, e: Event)
    requires n <= |log| && i < |webhooks|
    ensures
      At(RunDispatches(webhooks, log[..n]), CooldownKey(i, e.check, e.typ)) ==
      match LastSend(webhooks, log, n, i, e)
      case Some(a) => Some(log[a].now)
      case None => None
  {
    if n == 0 {
    } else {
      LastSentIsLastSend(webhooks, log, n - 1, i, e);
      assert log[..n][..n - 1] == log[..n - 1];
      StampedAt(webhooks, |webhooks|, RunDispatches(webhooks, log[..n - 1]), log[n - 1].e, log[n - 1].now, i, e);
    }
  }

  /**
   Over any log with a clock that never runs backwards: a dispatch reaches a webhook exactly when
   the webhook accepts it and got nothing about the same check and event type within its cooldown.
   */
  lemma CooldownIsExact(webhooks: seq<Webhook>, log: seq<Dispatch>, k: nat, i: nat)
    requires k < |log| && i < |webhooks| && ClockNonDecreasing(log)
    ensures
      SentIn(webhooks, log, k, i) <==>
      && Accepts(webhooks[i], log[k].e)
      && forall a :: 0 <= a < k && SentIn(webhooks, log, a, i) && SameSubject(log[a].e, log[k].e) ==>
           log[k].now - log[a].now >= webhooks[i].cooldown
  {
    LastSentIsLastSend(webhooks, log, k, i, log[k].e);
    var last := LastSend(webhooks, log, k, i, log[k].e);
    forall a: nat | a < k
      ensures Reached(webhooks, log, a, i, log[k].e) <==>
              SentIn(webhooks, log, a, i) && SameSubject(log[a].e, log[k].e)
    {
    }
    SendsByLookup(webhooks, i, RunDispatches(webhooks, log[..k]), log[k].e, log[k].now);
  }

  // ----- The manager -----

  class Manager {
    const webhooks: seq<Webhook>
    var checkStates: map<string, bool>
    var failCounts: map<string, int>
    var notifiedDown: set<string>
    var budgetStates: map<string, bool>
    var certStates: map<string, Severity>
    var lastSent: map<string, int>

    constructor (configs: seq<WebhookConfig>)
      ensures |webhooks| == |configs| && forall i :: 0 <= i < |configs| ==> webhooks[i] == Configured(configs[i])
      ensures Checks() == NO_CHECKS && budgetStates == map[] && certStates == map[] && lastSent == map[]
    {
      var ws := ConfigureAll(configs);
      webhooks := ws;
      checkStates, failCounts, notifiedDown := map[], map[], {};
      budgetStates, certStates, lastSent := map[], map[], map[];
    }

    ghost function Checks(): CheckTracker
      reads this
    {
      CheckTracker(checkStates, failCounts, notifiedDown)
    }

    /** Offers the event to one webhook. */
    method Offer(i: nat, e: Event, now: int) returns (sends: bool)
      requires i < |webhooks|
      modifies this`lastSent
      ensures sends == Sends(webhooks, i, old(lastSent), e, now)
      ensures lastSent == if sends then old(lastSent)[CooldownKey(i, e.check, e.typ) := now] else old(lastSent)
    {
      var wh := webhooks[i];
      if e.typ !in wh.events {
        return false;
      }
      if wh.severities.Some? && e.severity != NoSeverity && e.severity !in wh.severities.value {
        return false;
      }
      var cooldownKey := CooldownKey(i, e.check, e.typ);
      if cooldownKey in lastSent && now - lastSent[cooldownKey] < wh.cooldown {
        return false;
      }
      lastSent := lastSent[cooldownKey := now];
      return true;
    }

    /** Indices of the webhooks that get the event, in order; their send times become now. */
    method Dispatch(e: Event, now: int) returns (sent: seq<int>)
      modifies this`lastSent
      ensures lastSent == AfterDispatch(webhooks, old(lastSent), e, now)
      ensures sent == SentTo(webhooks, |webhooks|, old(lastSent), e, now)
    {
      sent := [];
      for i := 0 to |webhooks|
        invariant lastSent == Stamped(webhooks, i, old(lastSent), e, now)
        invariant sent == SentTo(webhooks, i, old(lastSent), e, now)
      {
        OffersAreIndependent(webhooks, i, old(lastSent), e, now);
        var sends := Offer(i, e, now);
        sent := sent + if sends then [i] else [];
      }
    }

    method HandleResult(r: Result, now: int) returns (event: Option<Event>, sent: seq<int>)
      modifies this`checkStates, this`failCounts, this`notifiedDown, this`lastSent
      ensures (Checks(), event) == OnResult(old(Checks()), r)
      ensures event.None? ==> lastSent == old(lastSent) && sent == []
      ensures event.Some? ==> lastSent == AfterDispatch(webhooks, old(lastSent), event.value, now)
      ensures event.Some? ==> sent == SentTo(webhooks, |webhooks|, old(lastSent), event.value, now)
    {
      event, sent := None, [];
      if r.infraError {
        return;
      }
      var key := Keys.CheckKey(r.typ, r.name);
      var seen := key in checkStates;
      checkStates := checkStates[key := r.success];
      if !seen {
        return;
      }
      if r.success {
        var wasDown := key in notifiedDown;
        failCounts := failCounts[key := 0];
        notifiedDown := notifiedDown - {key};
        if wasDown {
          event := Some(Event(CheckUp, NoSeverity, r.name, r.typ, "", r.timestamp));
        }
      } else {
        var count := (if key in failCounts then failCounts[key] else 0) + 1;
        failCounts := failCounts[key := count];
        if count == CONSECUTIVE_FAIL_THRESHOLD && key !in notifiedDown {
          notifiedDown := notifiedDown + {key};
          event := Some(Event(CheckDown, Critical, r.name, r.typ, "", r.timestamp));
        }
      }
      if event.Some? {
        sent := Dispatch(event.value, now);
      }
    }

    method HandleBudgetViolation(check: string, metric: string, violated: bool, now: int)
      returns (event: Option<Event>, sent: seq<int>)
      modifies this`budgetStates, this`lastSent
      ensures (budgetStates, event) == OnBudget(old(budgetStates), check, metric, violated, now)
      ensures event.None? ==> lastSent == old(lastSent) && sent == []
      ensures event.Some? ==> lastSent == AfterDispatch(webhooks, old(lastSent), event.value, now)
      ensures event.Some? ==> sent == SentTo(webhooks, |webhooks|, old(lastSent), event.value, now)
    {
      event, sent := None, [];
      var key := Keys.BudgetKey(check, metric);
      var prevViolated := if key in budgetStates then budgetStates[key] else false;
      budgetStates := budgetStates[key := violated];
      if violated && !prevViolated {
        event := Some(Event(BudgetViolation, Warning, check, "", metric, now));
        sent := Dispatch(event.value, now);
      }
    }

    method HandleCertResult(r: Result, now: int) returns (event: Option<Event>, sent: seq<int>)
      modifies this`certStates, this`lastSent
      ensures (certStates, event) == OnCert(old(certStates), r)
      ensures event.None? ==> lastSent == old(lastSent) && sent == []
      ensures event.Some? ==> lastSent == AfterDispatch(webhooks, old(lastSent), event.value, now)
      ensures event.Some? ==> sent == SentTo(webhooks, |webhooks|, old(lastSent), event.value, now)
    {
      event, sent := None, [];
      if r.typ != "tls" || (r.cert.daysRemaining == 0 && !r.cert.valid) {
        return;
      }
      var key := CertKey(r.name);
      var severity;
      if r.cert.daysRemaining <= r.cert.CriticalDays() {
        severity := Critical;
      } else if r.cert.daysRemaining <= r.cert.WarnDays() {
        severity := Warning;
      } else {
        certStates := certStates - {key};
        return;
      }
      var prev := if key in certStates then certStates[key] else NoSeverity;
      if prev == severity {
        return;
      }
      certStates := certStates[key := severity];
      event := Some(Event(CertExpiring, severity, r.name, r.typ, "", r.timestamp));
      sent := Dispatch(event.value, now);
    }
  }
}
