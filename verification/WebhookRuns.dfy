/**
 What a webhook hears in the lifetime of a process. Every state machine announces a condition once, and
 a webhook that is cooling down at that moment never hears of it: budget metrics, certificates that
 turn critical, and outages.
 */
module WebhookRuns {
  import opened Wrappers
  import opened Check
  import opened Streaks
  import opened StoreModel
  import opened Notify
  import opened Worker
  import Budget
  import Keys

  // ----- The log of a lifetime -----

  function Timestamped(events: seq<Event>, now: int): (r: seq<Dispatch>)
    ensures |r| == |events|
    ensures forall k :: 0 <= k < |r| ==> r[k] == Dispatch(events[k], now)
  {
    seq(|events|, k requires 0 <= k < |events| => Dispatch(events[k], now))
  }

  /** Every event of a lifetime with the instant of its dispatch. */
  ghost function DispatchLog(b: Budgets, inputs: seq<Input>, entries: seq<Budget.Entry>): seq<Dispatch> {
    if inputs == [] then []
    else
      var o := Lifetime(b, inputs[..|inputs| - 1], entries);
      var last := inputs[|inputs| - 1];
      DispatchLog(b, inputs[..|inputs| - 1], entries) +
      Timestamped(AfterResult(o.memory, o.budgets, last.r, entries, last.now).events, last.now)
  }

  lemma {:induction false} LogListsEvents(b: Budgets, inputs: seq<Input>, entries: seq<Budget.Entry>)
    ensures
      var log, events := DispatchLog(b, inputs, entries), Lifetime(b, inputs, entries).events;
      |log| == |events| && forall k :: 0 <= k < |log| ==> log[k].e == events[k]
  {
    if inputs == [] {
    } else {
      LogListsEvents(b, inputs[..|inputs| - 1], entries);
    }
  }

  lemma TimestampedSnoc(log: seq<Dispatch>, events: seq<Event>, now: int)
    requires events != []
    ensures
      var n := |events| - 1;
      log + Timestamped(events, now) == log + Timestamped(events[..n], now) + [Dispatch(events[n], now)]
  {
  }

  lemma RunDispatchesSnoc(webhooks: seq<Webhook>, log: seq<Dispatch>, d: Dispatch)
    ensures RunDispatches(webhooks, log + [d]) == AfterDispatch(webhooks, RunDispatches(webhooks, log), d.e, d.now)
  {
    assert (log + [d])[..|log|] == log;
  }

  lemma {:induction false} SendAllIsRun(
    webhooks: seq<Webhook>, log: seq<Dispatch>, events: seq<Event>, now: int)
    ensures
      RunDispatches(webhooks, log + Timestamped(events, now)) ==
      SendAll(webhooks, RunDispatches(webhooks, log), events, now)
  {
    if events == [] {
      assert log + Timestamped(events, now) == log;
    } else {
      var n := |events| - 1;
      SendAllIsRun(webhooks, log, events[..n], now);
      RunDispatchesSnoc(webhooks, log + Timestamped(events[..n], now), Dispatch(events[n], now));
      TimestampedSnoc(log, events, now);
    }
  }

  /** The send times that Drain leaves in the notifier are those of the log. */
  lemma LogGivesSendTimes(
    webhooks: seq<Webhook>, b: Budgets, inputs: seq<Input>, entries: seq<Budget.Entry>, input: Input)
    ensures
      var o := Lifetime(b, inputs, entries);
      RunDispatches(webhooks, DispatchLog(b, inputs + [input], entries)) ==
      SendAll(webhooks, RunDispatches(webhooks, DispatchLog(b, inputs, entries)),
              AfterResult(o.memory, o.budgets, input.r, entries, input.now).events, input.now)
  {
    var o := Lifetime(b, inputs, entries);
    assert (inputs + [input])[..|inputs|] == inputs;
    SendAllIsRun(webhooks, DispatchLog(b, inputs, entries),
                 AfterResult(o.memory, o.budgets, input.r, entries, input.now).events, input.now);
  }

  ghost predicate InputsInOrder(inputs: seq<Input>) {
    forall i, j :: 0 <= i <= j < |inputs| ==> inputs[i].now <= inputs[j].now
  }

  ghost predicate NotAfter(log: seq<Dispatch>, now: int) {
    forall k :: 0 <= k < |log| ==> log[k].now <= now
  }

  lemma AppendInOrder(log: seq<Dispatch>, events: seq<Event>, now: int)
    requires ClockNonDecreasing(log) && NotAfter(log, now)
    ensures ClockNonDecreasing(log + Timestamped(events, now)) && NotAfter(log + Timestamped(events, now), now)
  {
  }

  lemma {:induction false} LogIsInOrder(b: Budgets, inputs: seq<Input>, entries: seq<Budget.Entry>)
    requires InputsInOrder(inputs)
    ensures ClockNonDecreasing(DispatchLog(b, inputs, entries))
    ensures inputs != [] ==> NotAfter(DispatchLog(b, inputs, entries), inputs[|inputs| - 1].now)
  {
    if inputs == [] {
    } else {
      var n := |inputs| - 1;
      var o := Lifetime(b, inputs[..n], entries);
      var init := DispatchLog(b, inputs[..n], entries);
      LogIsInOrder(b, inputs[..n], entries);
      assert NotAfter(init, inputs[n].now) by {
        assert n > 0 ==> inputs[n - 1].now <= inputs[n].now;
      }
      AppendInOrder(init, AfterResult(o.memory, o.budgets, inputs[n].r, entries, inputs[n].now).events, inputs[n].now);
    }
  }

  // ----- Which result an entry of the log comes from -----

  function Results(inputs: seq<Input>): (rs: seq<Result>)
    ensures |rs| == |inputs| && forall i :: 0 <= i < |rs| ==> rs[i] == inputs[i].r
  {
    seq(|inputs|, i requires 0 <= i < |inputs| => inputs[i].r)
  }

  lemma {:induction false} MemoryIsRun(b: Budgets, inputs: seq<Input>, entries: seq<Budget.Entry>)
    ensures Lifetime(b, inputs, entries).memory.checks == RunResults(Results(inputs))
    ensures Lifetime(b, inputs, entries).memory.certs == RunCerts(Results(inputs))
  {
    if inputs == [] {
    } else {
      var n := |inputs| - 1;
      MemoryIsRun(b, inputs[..n], entries);
      assert Results(inputs)[..n] == Results(inputs[..n]);
    }
  }

  /** The events dispatched for input j. */
  ghost function EventsAt(b: Budgets, inputs: seq<Input>, entries: seq<Budget.Entry>, j: nat): seq<Event>
    requires j < |inputs|
  {
    var o := Lifetime(b, inputs[..j], entries);
    AfterResult(o.memory, o.budgets, inputs[j].r, entries, inputs[j].now).events
  }

  function Concat(parts: seq<seq<Dispatch>>): seq<Dispatch> {
    if parts == [] then [] else Concat(parts[..|parts| - 1]) + parts[|parts| - 1]
  }

  /** Where part j starts. */
  function Start(parts: seq<seq<Dispatch>>, j: nat): nat
    requires j <= |parts|
  {
    |Concat(parts[..j])|
  }

  lemma ConcatStep(parts: seq<seq<Dispatch>>, j: nat)
    requires j < |parts|
    ensures Concat(parts[..j + 1]) == Concat(parts[..j]) + parts[j]
  {
    assert parts[..j + 1][..j] == parts[..j];
  }

  lemma {:induction false} ConcatPrefix(parts: seq<seq<Dispatch>>, j: nat, n: nat)
    requires j <= n <= |parts|
    ensures Concat(parts[..j]) <= Concat(parts[..n])
    decreases n
  {
    if j == n {
    } else {
      ConcatPrefix(parts, j, n - 1);
      ConcatStep(parts, n - 1);
    }
  }

  lemma ConcatPlace(parts: seq<seq<Dispatch>>, j: nat, x: nat)
    requires j < |parts| && x < |parts[j]|
    ensures Start(parts, j) + x < Start(parts, j + 1) <= |Concat(parts)|
    ensures Concat(parts)[Start(parts, j) + x] == parts[j][x]
  {
    ConcatStep(parts, j);
    ConcatPrefix(parts, j + 1, |parts|);
    assert parts[..|parts|] == parts;
  }

  lemma {:induction false} ConcatSource(parts: seq<seq<Dispatch>>, n: nat, d: nat) returns (j: nat)
    requires n <= |parts| && d < Start(parts, n)
    ensures j < n && Start(parts, j) <= d < Start(parts, j + 1) == Start(parts, j) + |parts[j]|
    ensures Concat(parts[..n])[d] == parts[j][d - Start(parts, j)]
    decreases n
  {
    if n == 0 {
    } else {
      ConcatStep(parts, n - 1);
      if d < Start(parts, n - 1) {
        j := ConcatSource(parts, n - 1, d);
      } else {
        j := n - 1;
      }
    }
  }

  /** The log, input by input. */
  ghost function Parts(b: Budgets, inputs: seq<Input>, entries: seq<Budget.Entry>): (parts: seq<seq<Dispatch>>)
    ensures |parts| == |inputs|
    ensures forall j :: 0 <= j < |parts| ==> parts[j] == Timestamped(EventsAt(b, inputs, entries, j), inputs[j].now)
  {
    seq(|inputs|, j requires 0 <= j < |inputs| => Timestamped(EventsAt(b, inputs, entries, j), inputs[j].now))
  }

  lemma {:induction false} LogIsParts(b: Budgets, inputs: seq<Input>, entries: seq<Budget.Entry>)
    ensures DispatchLog(b, inputs, entries) == Concat(Parts(b, inputs, entries))
  {
    if inputs == [] {
    } else {
      var n := |inputs| - 1;
      LogIsParts(b, inputs[..n], entries);
      PartsPrefix(b, inputs, entries);
      LastPart(b, inputs, entries);
    }
  }

  lemma PartsPrefix(b: Budgets, inputs: seq<Input>, entries: seq<Budget.Entry>)
    requires inputs != []
    ensures Parts(b, inputs, entries)[..|inputs| - 1] == Parts(b, inputs[..|inputs| - 1], entries)
  {
    var n := |inputs| - 1;
    forall j | 0 <= j < n
      ensures Parts(b, inputs, entries)[j] == Parts(b, inputs[..n], entries)[j]
    {
      EventsAtPrefix(b, inputs, entries, n, j);
    }
  }

  lemma EventsAtPrefix(b: Budgets, inputs: seq<Input>, entries: seq<Budget.Entry>, n: nat, j: nat)
    requires j < n <= |inputs|
    ensures EventsAt(b, inputs[..n], entries, j) == EventsAt(b, inputs, entries, j)
  {
    assert inputs[..n][..j] == inputs[..j];
  }

  lemma LastPart(b: Budgets, inputs: seq<Input>, entries: seq<Budget.Entry>)
    requires inputs != []
    ensures
      var n := |inputs| - 1;
      DispatchLog(b, inputs, entries) == DispatchLog(b, inputs[..n], entries) + Parts(b, inputs, entries)[n]
  {
  }

  // ----- What each input contributes -----

  lemma {:induction false} BudgetEventsOnly(s: Side, cs: seq<Budget.CheckResult>, now: int, e: Event)
    requires e in FlagRun(s, cs, now).events
    ensures e in s.events || e.typ == BudgetViolation
  {
    if cs == [] {
    } else {
      var before := FlagRun(s, cs[..|cs| - 1], now);
      if e in before.events {
        BudgetEventsOnly(s, cs[..|cs| - 1], now, e);
      }
    }
  }

  /** The down or up event of the check machine for result j. */
  function StateEvent(rs: seq<Result>, j: nat): Option<Event>
    requires j < |rs|
  {
    OnResult(RunResults(rs[..j]), rs[j]).1
  }

  /** The event of the certificate machine for result j. */
  function ExpiryEvent(rs: seq<Result>, j: nat): Option<Event>
    requires j < |rs|
  {
    OnCert(RunCerts(rs[..j]), rs[j]).1
  }

  /** An input's events are those two, if any, and budget events. */
  lemma EventsSplit(b: Budgets, inputs: seq<Input>, entries: seq<Budget.Entry>, j: nat) returns (bs: seq<Event>)
    requires j < |inputs|
    ensures EventsAt(b, inputs, entries, j) == Listed(StateEvent(Results(inputs), j)) + Listed(ExpiryEvent(Results(inputs), j)) + bs
    ensures forall e :: e in bs ==> e.typ == BudgetViolation
  {
    var o := Lifetime(b, inputs[..j], entries);
    var side := Side(o.budgets, o.memory.budgets, []);
    MemoryIsRun(b, inputs[..j], entries);
    assert Results(inputs)[..j] == Results(inputs[..j]);
    bs := FlagRun(side, Flagged(inputs[j].r, entries), inputs[j].now).events;
    forall e | e in bs
      ensures e.typ == BudgetViolation
    {
      BudgetEventsOnly(side, Flagged(inputs[j].r, entries), inputs[j].now, e);
    }
  }

  predicate StateType(e: Event) {
    e.typ == CheckDown || e.typ == CheckUp
  }

  lemma StateEventType(rs: seq<Result>, j: nat)
    requires j < |rs|
    ensures StateEvent(rs, j).Some? ==> StateType(StateEvent(rs, j).value)
    ensures ExpiryEvent(rs, j).Some? ==> ExpiryEvent(rs, j).value.typ == CertExpiring
  {
  }

  /** The entries of one input: all at its instant, with the state and expiry events of its result and no others. */
  ghost predicate PartOf(part: seq<Dispatch>, inputs: seq<Input>, j: nat)
    requires j < |inputs|
  {
    var state, expiry := StateEvent(Results(inputs), j), ExpiryEvent(Results(inputs), j);
    && (forall d :: d in part ==> d.now == inputs[j].now)
    && (forall d :: d in part && StateType(d.e) ==> state == Some(d.e))
    && (forall d :: d in part && d.e.typ == CertExpiring ==> expiry == Some(d.e))
    && (forall x, y :: 0 <= x < y < |part| && StateType(part[x].e) ==> !StateType(part[y].e))
    && (forall x, y :: 0 <= x < y < |part| && part[x].e.typ == CertExpiring ==> part[y].e.typ != CertExpiring)
    && (state.Some? ==> Dispatch(state.value, inputs[j].now) in part)
    && (expiry.Some? ==> Dispatch(expiry.value, inputs[j].now) in part)
  }

  lemma ListedPart(a: Option<Event>, c: Option<Event>, bs: seq<Event>, now: int)
    requires a.Some? ==> StateType(a.value)
    requires c.Some? ==> c.value.typ == CertExpiring
    requires forall e :: e in bs ==> e.typ == BudgetViolation
    ensures
      var part := Timestamped(Listed(a) + Listed(c) + bs, now);
      && (forall d :: d in part ==> d.now == now)
      && (forall d :: d in part && StateType(d.e) ==> a == Some(d.e))
      && (forall d :: d in part && d.e.typ == CertExpiring ==> c == Some(d.e))
      && (forall x, y :: 0 <= x < y < |part| && StateType(part[x].e) ==> !StateType(part[y].e))
      && (forall x, y :: 0 <= x < y < |part| && part[x].e.typ == CertExpiring ==> part[y].e.typ != CertExpiring)
      && (a.Some? ==> Dispatch(a.value, now) in part)
      && (c.Some? ==> Dispatch(c.value, now) in part)
  {
    var events := Listed(a) + Listed(c) + bs;
    var part := Timestamped(events, now);
    forall d | d in part
      ensures d.now == now && d.e in events
    {
      var k :| 0 <= k < |part| && part[k] == d;
      assert d.e == events[k];
    }
    forall x | |Listed(a)| + |Listed(c)| <= x < |part|
      ensures part[x].e.typ == BudgetViolation
    {
      assert part[x].e in bs;
    }
    if a.Some? {
      assert part[0] == Dispatch(a.value, now);
    }
    if c.Some? {
      assert part[|Listed(a)|] == Dispatch(c.value, now);
    }
  }

  /** The log is a concatenation of such parts. */
  ghost predicate LogOf(parts: seq<seq<Dispatch>>, inputs: seq<Input>) {
    |parts| == |inputs| && forall j :: 0 <= j < |inputs| ==> PartOf(parts[j], inputs, j)
  }

  lemma PartsMakeLog(b: Budgets, inputs: seq<Input>, entries: seq<Budget.Entry>)
    ensures LogOf(Parts(b, inputs, entries), inputs)
  {
    forall j | 0 <= j < |inputs|
      ensures PartOf(Parts(b, inputs, entries)[j], inputs, j)
    {
      var bs := EventsSplit(b, inputs, entries, j);
      StateEventType(Results(inputs), j);
      ListedPart(StateEvent(Results(inputs), j), ExpiryEvent(Results(inputs), j), bs, inputs[j].now);
    }
  }

  /** Where the entries of input j start in the log of the lifetime. */
  ghost function LogStart(b: Budgets, inputs: seq<Input>, entries: seq<Budget.Entry>, j: nat): nat
    requires j <= |inputs|
  {
    Start(Parts(b, inputs, entries), j)
  }

  lemma PlaceOf(parts: seq<seq<Dispatch>>, j: nat, d: Dispatch) returns (x: nat)
    requires j < |parts| && d in parts[j]
    ensures Start(parts, j) <= x < Start(parts, j + 1) <= |Concat(parts)| && Concat(parts)[x] == d
  {
    var y :| 0 <= y < |parts[j]| && parts[j][y] == d;
    ConcatPlace(parts, j, y);
    x := Start(parts, j) + y;
  }

  lemma EntryInPart(parts: seq<seq<Dispatch>>, k: nat, d: nat)
    requires k < |parts| && Start(parts, k) <= d < Start(parts, k + 1)
    ensures Start(parts, k + 1) == Start(parts, k) + |parts[k]| && Start(parts, k + 1) <= |Concat(parts)|
    ensures Concat(parts)[d] == parts[k][d - Start(parts, k)]
  {
    ConcatStep(parts, k);
    ConcatPrefix(parts, k + 1, |parts|);
    assert parts[..|parts|] == parts;
  }

  lemma SourceOf(parts: seq<seq<Dispatch>>, x: nat) returns (j: nat)
    requires x < |Concat(parts)|
    ensures j < |parts| && Start(parts, j) <= x < Start(parts, j + 1) == Start(parts, j) + |parts[j]|
    ensures Concat(parts)[x] == parts[j][x - Start(parts, j)]
  {
    assert parts[..|parts|] == parts;
    j := ConcatSource(parts, |parts|, x);
  }

  // ----- Conditions that are announced once -----

  /** Webhook i got an event about the same check name and type less than its cooldown before entry d. */
  ghost predicate Cooling(webhooks: seq<Webhook>, log: seq<Dispatch>, i: nat, d: nat)
    requires i < |webhooks| && d < |log|
  {
    exists a ::
      0 <= a < d && SentIn(webhooks, log, a, i) && SameSubject(log[a].e, log[d].e) &&
      log[d].now - log[a].now < webhooks[i].cooldown
  }

  lemma StillCooling(webhooks: seq<Webhook>, log: seq<Dispatch>, i: nat, a: nat, d: nat)
    requires i < |webhooks| && a < d < |log| && SentIn(webhooks, log, a, i) && SameSubject(log[a].e, log[d].e)
    requires log[d].now - log[a].now < webhooks[i].cooldown
    ensures Cooling(webhooks, log, i, d)
  {
  }

  lemma EntrySentIff(webhooks: seq<Webhook>, log: seq<Dispatch>, i: nat, d: nat)
    requires i < |webhooks| && d < |log| && ClockNonDecreasing(log)
    ensures SentIn(webhooks, log, d, i) <==> Accepts(webhooks[i], log[d].e) && !Cooling(webhooks, log, i, d)
  {
    CooldownIsExact(webhooks, log, d, i);
  }

  // ----- Certificates that turn critical -----

  predicate AboutCert(e: Event, name: string) {
    e.typ == CertExpiring && e.check == name
  }

  predicate ShowsCritical(r: Result, name: string) {
    HasCertData(r) && r.name == name && CertSeverity(r) == Critical
  }

  /** The certificate turns critical with result k and is critical in every later result that shows it. */
  ghost predicate CriticalFrom(rs: seq<Result>, name: string, k: nat) {
    && k < |rs| && ShowsCritical(rs[k], name)
    && LatestCertSeverity(rs[..k], name) != Critical
    && forall j :: k < j < |rs| && HasCertData(rs[j]) && rs[j].name == name ==> ShowsCritical(rs[j], name)
  }

  lemma {:induction false} StaysCritical(rs: seq<Result>, name: string, k: nat, j: nat)
    requires CriticalFrom(rs, name, k) && k < j <= |rs|
    ensures LatestCertSeverity(rs[..j], name) == Critical
    decreases j
  {
    assert rs[..j][..j - 1] == rs[..j - 1];
    if j == k + 1 {
    } else {
      StaysCritical(rs, name, k, j - 1);
    }
  }

  function CertEvent(r: Result): Event {
    Event(CertExpiring, CertSeverity(r), r.name, r.typ, "", r.timestamp)
  }

  /** The machine reports the change with result k, and nothing about the certificate after it. */
  lemma ExpiryWhileCritical(rs: seq<Result>, name: string, k: nat, j: nat)
    requires CriticalFrom(rs, name, k) && k <= j < |rs|
    ensures j == k ==> ExpiryEvent(rs, j) == Some(CertEvent(rs[k]))
    ensures j > k ==> ExpiryEvent(rs, j).None? || !AboutCert(ExpiryEvent(rs, j).value, name)
  {
    CertEventsOnTransition(rs[..j], rs[j]);
    if j > k {
      StaysCritical(rs, name, k, j);
    }
  }

  /** So from there on the log has a single entry about the certificate, the one for the change. */
  lemma OneEventPerCriticalPhase(parts: seq<seq<Dispatch>>, inputs: seq<Input>, name: string, k: nat) returns (d: nat)
    requires LogOf(parts, inputs) && CriticalFrom(Results(inputs), name, k)
    ensures Start(parts, k) <= d < |Concat(parts)|
    ensures Concat(parts)[d] == Dispatch(CertEvent(inputs[k].r), inputs[k].now)
    ensures forall x :: Start(parts, k) <= x < |Concat(parts)| && AboutCert(Concat(parts)[x].e, name) ==> x == d
  {
    assert PartOf(parts[k], inputs, k);
    ExpiryWhileCritical(Results(inputs), name, k, k);
    d := PlaceOf(parts, k, Dispatch(CertEvent(inputs[k].r), inputs[k].now));
    forall x | Start(parts, k) <= x < |Concat(parts)| && AboutCert(Concat(parts)[x].e, name)
      ensures x == d
    {
      SameCertEntry(parts, inputs, name, k, d, x);
    }
  }

  lemma SameCertEntry(parts: seq<seq<Dispatch>>, inputs: seq<Input>, name: string, k: nat, d: nat, x: nat)
    requires LogOf(parts, inputs) && CriticalFrom(Results(inputs), name, k)
    requires Start(parts, k) <= d < Start(parts, k + 1) <= |Concat(parts)| && AboutCert(Concat(parts)[d].e, name)
    requires Start(parts, k) <= x < |Concat(parts)| && AboutCert(Concat(parts)[x].e, name)
    ensures x == d
  {
    var j := SourceOf(parts, x);
    if j < k {
      ConcatPrefix(parts, j + 1, k);
    } else if j > k {
      assert PartOf(parts[j], inputs, j);
      ExpiryWhileCritical(Results(inputs), name, k, j);
    } else {
      assert PartOf(parts[k], inputs, k);
      EntryInPart(parts, k, d);
    }
  }

  /** Some event about the certificate is sent to webhook i from entry `start` on. */
  ghost predicate CertSentSince(webhooks: seq<Webhook>, log: seq<Dispatch>, i: nat, name: string, start: nat)
    requires i < |webhooks|
  {
    exists x :: start <= x < |log| && AboutCert(log[x].e, name) && SentIn(webhooks, log, x, i)
  }

  lemma OnlyCertEntrySent(webhooks: seq<Webhook>, log: seq<Dispatch>, i: nat, name: string, start: nat, d: nat)
    requires i < |webhooks| && ClockNonDecreasing(log) && start <= d < |log| && AboutCert(log[d].e, name)
    requires forall x :: start <= x < |log| && AboutCert(log[x].e, name) ==> x == d
    ensures
      CertSentSince(webhooks, log, i, name, start) <==>
      Accepts(webhooks[i], log[d].e) && !Cooling(webhooks, log, i, d)
  {
    EntrySentIff(webhooks, log, i, d);
  }

  /**
   A certificate turns critical with input k and stays so. From then on a webhook is ever sent an event
   about it if and only if it accepts the one for the change and got no certificate event of that name
   within its cooldown before.
   */
  lemma CriticalSentIff(
    webhooks: seq<Webhook>, b: Budgets, inputs: seq<Input>, entries: seq<Budget.Entry>, name: string, k: nat, i: nat)
    returns (d: nat)
    requires InputsInOrder(inputs) && CriticalFrom(Results(inputs), name, k) && i < |webhooks|
    ensures
      var log := DispatchLog(b, inputs, entries);
      && LogStart(b, inputs, entries, k) <= d < |log|
      && log[d] == Dispatch(CertEvent(inputs[k].r), inputs[k].now)
      && (CertSentSince(webhooks, log, i, name, LogStart(b, inputs, entries, k)) <==>
          Accepts(webhooks[i], log[d].e) && !Cooling(webhooks, log, i, d))
  {
    var parts := Parts(b, inputs, entries);
    LogIsParts(b, inputs, entries);
    PartsMakeLog(b, inputs, entries);
    LogIsInOrder(b, inputs, entries);
    d := OneEventPerCriticalPhase(parts, inputs, name, k);
    OnlyCertEntrySent(webhooks, DispatchLog(b, inputs, entries), i, name, Start(parts, k), d);
  }

  /** A webhook that got a certificate event of the name less than a cooldown before never hears of the change. */
  lemma CriticalIsLost(
    webhooks: seq<Webhook>, b: Budgets, inputs: seq<Input>, entries: seq<Budget.Entry>, name: string, k: nat, i: nat, a: nat)
    requires InputsInOrder(inputs) && CriticalFrom(Results(inputs), name, k) && i < |webhooks|
    requires a < LogStart(b, inputs, entries, k) && a < |DispatchLog(b, inputs, entries)|
    requires AboutCert(DispatchLog(b, inputs, entries)[a].e, name) && SentIn(webhooks, DispatchLog(b, inputs, entries), a, i)
    requires inputs[k].now - DispatchLog(b, inputs, entries)[a].now < webhooks[i].cooldown
    ensures !CertSentSince(webhooks, DispatchLog(b, inputs, entries), i, name, LogStart(b, inputs, entries, k))
  {
    var d := CriticalSentIff(webhooks, b, inputs, entries, name, k, i);
    StillCooling(webhooks, DispatchLog(b, inputs, entries), i, a, d);
  }

  /** The first entry about a certificate goes to every webhook that accepts it. */
  lemma FirstExpiryIsSent(webhooks: seq<Webhook>, i: nat, parts: seq<seq<Dispatch>>, inputs: seq<Input>, a: nat)
    requires i < |webhooks| && inputs != [] && LogOf(parts, inputs) && ClockNonDecreasing(Concat(parts))
    requires a < Start(parts, 1) <= |Concat(parts)| && Concat(parts)[a].e.typ == CertExpiring
    requires Accepts(webhooks[i], Concat(parts)[a].e)
    ensures SentIn(webhooks, Concat(parts), a, i)
  {
    var log := Concat(parts);
    assert PartOf(parts[0], inputs, 0);
    assert parts[..0] == [];
    forall x | 0 <= x < a
      ensures log[x].e.typ != CertExpiring
    {
      EntryInPart(parts, 0, x);
      EntryInPart(parts, 0, a);
    }
    EntrySentIff(webhooks, log, i, a);
  }

  lemma ExpirySentFirst(
    webhooks: seq<Webhook>, i: nat, b: Budgets, inputs: seq<Input>, entries: seq<Budget.Entry>, e: Event) returns (a: nat)
    requires i < |webhooks| && inputs != [] && InputsInOrder(inputs)
    requires ExpiryEvent(Results(inputs), 0) == Some(e) && e.typ == CertExpiring && Accepts(webhooks[i], e)
    ensures a < LogStart(b, inputs, entries, 1) <= |DispatchLog(b, inputs, entries)|
    ensures DispatchLog(b, inputs, entries)[a] == Dispatch(e, inputs[0].now)
    ensures SentIn(webhooks, DispatchLog(b, inputs, entries), a, i)
  {
    var parts := Parts(b, inputs, entries);
    PartsMakeLog(b, inputs, entries);
    LogIsParts(b, inputs, entries);
    LogIsInOrder(b, inputs, entries);
    a := FirstExpiryPlaced(webhooks, i, parts, inputs, e);
  }

  lemma FirstExpiryPlaced(webhooks: seq<Webhook>, i: nat, parts: seq<seq<Dispatch>>, inputs: seq<Input>, e: Event)
    returns (a: nat)
    requires i < |webhooks| && inputs != [] && LogOf(parts, inputs) && ClockNonDecreasing(Concat(parts))
    requires ExpiryEvent(Results(inputs), 0) == Some(e) && e.typ == CertExpiring && Accepts(webhooks[i], e)
    ensures a < Start(parts, 1) <= |Concat(parts)| && Concat(parts)[a] == Dispatch(e, inputs[0].now)
    ensures SentIn(webhooks, Concat(parts), a, i)
  {
    assert PartOf(parts[0], inputs, 0);
    a := PlaceOf(parts, 0, Dispatch(e, inputs[0].now));
    FirstExpiryIsSent(webhooks, i, parts, inputs, a);
  }

  // ----- Outages -----

  /** Entry announces that the check of this type and name is down. */
  predicate AnnouncesDown(e: Event, typ: string, name: string) {
    e.typ == CheckDown && e.checkType == typ && e.check == name
  }

  /**
   Result k is the third counted failure in a row of its check, so the outage is announced with it, and
   the check does not succeed after it.
   */
  ghost predicate OutageFrom(rs: seq<Result>, k: nat) {
    && k < |rs|
    && var key := Keys.CheckKey(rs[k].typ, rs[k].name);
    && Relevant(rs[k], key) && !rs[k].success
    && FailureFlags(rs[..k], key) != []
    && TrailingTrue(CountedFlags(rs[..k], key) + [true]) == CONSECUTIVE_FAIL_THRESHOLD
    && forall j :: k < j < |rs| && Relevant(rs[j], key) ==> !rs[j].success
  }

  lemma OutageIsAnnounced(rs: seq<Result>, k: nat)
    requires OutageFrom(rs, k)
    ensures StateEvent(rs, k) == Some(DownEvent(rs[k]))
    ensures Keys.CheckKey(rs[k].typ, rs[k].name) in RunResults(rs[..k + 1]).notifiedDown
  {
    var key := Keys.CheckKey(rs[k].typ, rs[k].name);
    DispatchIsDebounced(rs[..k], rs[k]);
    assert (rs[..k] + [rs[k]])[..k] == rs[..k];
    assert rs[..k + 1][..k] == rs[..k];
    EventFlipsMark(RunResults(rs[..k]), rs[k], key);
    RunTracks(rs[..k], key);
    TrailingTrueSnoc(CountedFlags(rs[..k], key), true);
  }

  lemma FailureKeepsMark(t: CheckTracker, r: Result, key: string)
    requires key in t.notifiedDown && (Relevant(r, key) ==> !r.success)
    ensures key in OnResult(t, r).0.notifiedDown
    ensures Keys.CheckKey(r.typ, r.name) == key ==> OnResult(t, r).1.None?
  {
  }

  lemma {:induction false} StaysDown(rs: seq<Result>, k: nat, j: nat)
    requires OutageFrom(rs, k) && k < j <= |rs|
    ensures Keys.CheckKey(rs[k].typ, rs[k].name) in RunResults(rs[..j]).notifiedDown
    decreases j
  {
    if j == k + 1 {
      OutageIsAnnounced(rs, k);
    } else {
      StaysDown(rs, k, j - 1);
      assert rs[..j][..j - 1] == rs[..j - 1];
      FailureKeepsMark(RunResults(rs[..j - 1]), rs[j - 1], Keys.CheckKey(rs[k].typ, rs[k].name));
    }
  }

  lemma QuietWhileDown(rs: seq<Result>, k: nat, j: nat)
    requires OutageFrom(rs, k) && k < j < |rs|
    ensures StateEvent(rs, j).None? || !AnnouncesDown(StateEvent(rs, j).value, rs[k].typ, rs[k].name)
  {
    StaysDown(rs, k, j);
    FailureKeepsMark(RunResults(rs[..j]), rs[j], Keys.CheckKey(rs[k].typ, rs[k].name));
    StateEventNames(rs, j);
  }

  lemma StateEventNames(rs: seq<Result>, j: nat)
    requires j < |rs|
    ensures StateEvent(rs, j).Some? ==>
              StateEvent(rs, j).value.checkType == rs[j].typ && StateEvent(rs, j).value.check == rs[j].name
  {
  }

  lemma NoneAfterOutage(parts: seq<seq<Dispatch>>, inputs: seq<Input>, k: nat, j: nat, y: nat)
    requires LogOf(parts, inputs) && OutageFrom(Results(inputs), k) && k < j < |parts| && y < |parts[j]|
    ensures !AnnouncesDown(parts[j][y].e, inputs[k].r.typ, inputs[k].r.name)
  {
    assert PartOf(parts[j], inputs, j) && parts[j][y] in parts[j];
    QuietWhileDown(Results(inputs), k, j);
  }

  lemma OneStateEntry(parts: seq<seq<Dispatch>>, inputs: seq<Input>, k: nat, x: nat, y: nat)
    requires LogOf(parts, inputs) && k < |parts| && x < |parts[k]| && y < |parts[k]|
    requires StateType(parts[k][x].e) && StateType(parts[k][y].e)
    ensures x == y
  {
    assert PartOf(parts[k], inputs, k);
  }

  ghost predicate QuietAfter(parts: seq<seq<Dispatch>>, k: nat, typ: string, name: string) {
    forall j, y :: k < j < |parts| && 0 <= y < |parts[j]| ==> !AnnouncesDown(parts[j][y].e, typ, name)
  }

  lemma SameDownEntry(parts: seq<seq<Dispatch>>, inputs: seq<Input>, k: nat, d: nat, x: nat, typ: string, name: string)
    requires LogOf(parts, inputs) && k < |parts| && QuietAfter(parts, k, typ, name)
    requires Start(parts, k) <= d < Start(parts, k + 1) <= |Concat(parts)|
    requires Start(parts, k) <= x < |Concat(parts)|
    requires AnnouncesDown(Concat(parts)[d].e, typ, name) && AnnouncesDown(Concat(parts)[x].e, typ, name)
    ensures x == d
  {
    var j := SourceOf(parts, x);
    if j < k {
      ConcatPrefix(parts, j + 1, k);
    } else if j == k {
      EntryInPart(parts, k, d);
      OneStateEntry(parts, inputs, k, d - Start(parts, k), x - Start(parts, k));
    }
  }

  /** From `start` on, entry d is the only one that announces the check down. */
  ghost predicate OnlyDownEntry(log: seq<Dispatch>, start: nat, d: nat, r: Result) {
    && start <= d < |log| && AnnouncesDown(log[d].e, r.typ, r.name)
    && forall x :: start <= x < |log| && AnnouncesDown(log[x].e, r.typ, r.name) ==> x == d
  }

  lemma OneEventPerOutage(parts: seq<seq<Dispatch>>, inputs: seq<Input>, k: nat) returns (d: nat)
    requires LogOf(parts, inputs) && OutageFrom(Results(inputs), k)
    ensures OnlyDownEntry(Concat(parts), Start(parts, k), d, inputs[k].r)
    ensures Concat(parts)[d] == Dispatch(DownEvent(inputs[k].r), inputs[k].now)
  {
    assert PartOf(parts[k], inputs, k);
    OutageIsAnnounced(Results(inputs), k);
    d := PlaceOf(parts, k, Dispatch(DownEvent(inputs[k].r), inputs[k].now));
    var log, start, r := Concat(parts), Start(parts, k), inputs[k].r;
    forall j, y | k < j < |parts| && 0 <= y < |parts[j]|
      ensures !AnnouncesDown(parts[j][y].e, r.typ, r.name)
    {
      NoneAfterOutage(parts, inputs, k, j, y);
    }
    forall x | start <= x < |log| && AnnouncesDown(log[x].e, r.typ, r.name)
      ensures x == d
    {
      SameDownEntry(parts, inputs, k, d, x, r.typ, r.name);
    }
  }

  /** The outage of the check is sent to webhook i by some entry from `start` on. */
  ghost predicate OutageSent(webhooks: seq<Webhook>, log: seq<Dispatch>, i: nat, r: Result, start: nat)
    requires i < |webhooks|
  {
    exists x :: start <= x < |log| && AnnouncesDown(log[x].e, r.typ, r.name) && SentIn(webhooks, log, x, i)
  }

  lemma OnlyDownEntrySent(webhooks: seq<Webhook>, log: seq<Dispatch>, i: nat, r: Result, start: nat, d: nat)
    requires i < |webhooks| && ClockNonDecreasing(log) && OnlyDownEntry(log, start, d, r)
    ensures OutageSent(webhooks, log, i, r, start) <==> Accepts(webhooks[i], log[d].e) && !Cooling(webhooks, log, i, d)
  {
    EntrySentIff(webhooks, log, i, d);
  }

  /**
   An outage that begins with input k and lasts is ever sent to a webhook if and only if the webhook
   accepts its one event and got no check_down of that name within its cooldown before, be it of an
   earlier outage of the same check or of a check of another type with the same name.
   */
  lemma OutageSentIff(
    webhooks: seq<Webhook>, b: Budgets, inputs: seq<Input>, entries: seq<Budget.Entry>, k: nat, i: nat)
    returns (d: nat)
    requires InputsInOrder(inputs) && OutageFrom(Results(inputs), k) && i < |webhooks|
    ensures
      var log := DispatchLog(b, inputs, entries);
      && LogStart(b, inputs, entries, k) <= d < |log|
      && log[d] == Dispatch(DownEvent(inputs[k].r), inputs[k].now)
      && (OutageSent(webhooks, log, i, inputs[k].r, LogStart(b, inputs, entries, k)) <==>
          Accepts(webhooks[i], log[d].e) && !Cooling(webhooks, log, i, d))
  {
    var parts := Parts(b, inputs, entries);
    LogIsParts(b, inputs, entries);
    PartsMakeLog(b, inputs, entries);
    LogIsInOrder(b, inputs, entries);
    d := OneEventPerOutage(parts, inputs, k);
    OnlyDownEntrySent(webhooks, DispatchLog(b, inputs, entries), i, inputs[k].r, Start(parts, k), d);
  }

  /** A webhook that got a check_down of the name less than a cooldown before never hears of the outage. */
  lemma OutageIsLost(
    webhooks: seq<Webhook>, b: Budgets, inputs: seq<Input>, entries: seq<Budget.Entry>, k: nat, i: nat, a: nat)
    requires InputsInOrder(inputs) && OutageFrom(Results(inputs), k) && i < |webhooks|
    requires a < LogStart(b, inputs, entries, k) && a < |DispatchLog(b, inputs, entries)|
    requires SameSubject(DispatchLog(b, inputs, entries)[a].e, DownEvent(inputs[k].r))
    requires SentIn(webhooks, DispatchLog(b, inputs, entries), a, i)
    requires inputs[k].now - DispatchLog(b, inputs, entries)[a].now < webhooks[i].cooldown
    ensures !OutageSent(webhooks, DispatchLog(b, inputs, entries), i, inputs[k].r, LogStart(b, inputs, entries, k))
  {
    var d := OutageSentIff(webhooks, b, inputs, entries, k, i);
    StillCooling(webhooks, DispatchLog(b, inputs, entries), i, a, d);
  }

  /** Of two outages under one name that begin at the same instant, a webhook with a cooldown hears of at most one. */
  lemma NotBothOutages(
    webhooks: seq<Webhook>, b: Budgets, inputs: seq<Input>, entries: seq<Budget.Entry>, k: nat, l: nat, i: nat)
    requires InputsInOrder(inputs) && OutageFrom(Results(inputs), k) && OutageFrom(Results(inputs), l)
    requires inputs[k].r.name == inputs[l].r.name && inputs[k].r.typ != inputs[l].r.typ
    requires i < |webhooks| && inputs[k].now == inputs[l].now && webhooks[i].cooldown > 0
    ensures
      var log := DispatchLog(b, inputs, entries);
      !(OutageSent(webhooks, log, i, inputs[k].r, LogStart(b, inputs, entries, k)) &&
        OutageSent(webhooks, log, i, inputs[l].r, LogStart(b, inputs, entries, l)))
  {
    var log := DispatchLog(b, inputs, entries);
    LogIsInOrder(b, inputs, entries);
    var d := OutageSentIff(webhooks, b, inputs, entries, k, i);
    var e := OutageSentIff(webhooks, b, inputs, entries, l, i);
    TwoEntries(webhooks, log, i, d, e);
  }

  lemma TwoEntries(webhooks: seq<Webhook>, log: seq<Dispatch>, i: nat, d: nat, e: nat)
    requires i < |webhooks| && webhooks[i].cooldown > 0 && ClockNonDecreasing(log)
    requires d < |log| && e < |log| && d != e && log[d].now == log[e].now && SameSubject(log[d].e, log[e].e)
    ensures
      !(Accepts(webhooks[i], log[d].e) && !Cooling(webhooks, log, i, d) &&
        Accepts(webhooks[i], log[e].e) && !Cooling(webhooks, log, i, e))
  {
    EntrySentIff(webhooks, log, i, d);
    EntrySentIff(webhooks, log, i, e);
  }

  // ----- Budget metrics -----

  lemma {:induction false} CountedTwice(es: seq<Event>, check: string, metric: string, a: nat, c: nat)
    requires a < c < |es| && About(es[a], check, metric) && About(es[c], check, metric)
    ensures CountAbout(es, check, metric) >= 2
  {
    var n := |es| - 1;
    if c == n {
      CountedOnce(es[..n], check, metric, a);
    } else {
      CountedTwice(es[..n], check, metric, a, c);
    }
  }

  lemma {:induction false} CountedOnce(es: seq<Event>, check: string, metric: string, a: nat)
    requires a < |es| && About(es[a], check, metric)
    ensures CountAbout(es, check, metric) >= 1
  {
    if a == |es| - 1 {
    } else {
      CountedOnce(es[..|es| - 1], check, metric, a);
    }
  }

  /** Webhook i is sent, at some time in the lifetime, the budget event of the pair. */
  ghost predicate EverSent(webhooks: seq<Webhook>, log: seq<Dispatch>, i: nat, check: string, metric: string)
    requires i < |webhooks|
  {
    exists k :: 0 <= k < |log| && About(log[k].e, check, metric) && SentIn(webhooks, log, k, i)
  }

  /** Webhook i got a budget event of the check, whatever the metric, less than its cooldown before entry k. */
  ghost predicate CoolingDown(webhooks: seq<Webhook>, log: seq<Dispatch>, i: nat, check: string, k: nat)
    requires i < |webhooks| && k < |log|
  {
    exists a ::
      && 0 <= a < k && SentIn(webhooks, log, a, i)
      && log[a].e.typ == BudgetViolation && log[a].e.check == check
      && log[k].now - log[a].now < webhooks[i].cooldown
  }

  /** A pair has at most one entry in the log. */
  lemma OnlyEntry(
    b: Budgets, inputs: seq<Input>, entries: seq<Budget.Entry>, check: string, metric: string, k: nat)
    requires ':' !in metric
    requires k < |DispatchLog(b, inputs, entries)| && About(DispatchLog(b, inputs, entries)[k].e, check, metric)
    ensures
      var log := DispatchLog(b, inputs, entries);
      forall j :: 0 <= j < |log| && About(log[j].e, check, metric) ==> j == k
  {
    var log := DispatchLog(b, inputs, entries);
    var events := Lifetime(b, inputs, entries).events;
    LogListsEvents(b, inputs, entries);
    OneBudgetEventPerProcess(b, inputs, entries, check, metric);
    forall j | 0 <= j < |log| && About(log[j].e, check, metric)
      ensures j == k
    {
      if j < k {
        CountedTwice(events, check, metric, j, k);
      } else if k < j {
        CountedTwice(events, check, metric, k, j);
      }
    }
  }

  /**
   So a webhook is ever sent the pair if and only if it accepts that entry and is not cooling down from
   another metric of the same check at that moment.
   */
  lemma PairSentIff(
    webhooks: seq<Webhook>, b: Budgets, inputs: seq<Input>, entries: seq<Budget.Entry>,
    i: nat, check: string, metric: string, k: nat)
    requires InputsInOrder(inputs) && i < |webhooks| && ':' !in metric
    requires k < |DispatchLog(b, inputs, entries)| && About(DispatchLog(b, inputs, entries)[k].e, check, metric)
    ensures
      var log := DispatchLog(b, inputs, entries);
      EverSent(webhooks, log, i, check, metric) <==>
      Accepts(webhooks[i], log[k].e) && !CoolingDown(webhooks, log, i, check, k)
  {
    LogIsInOrder(b, inputs, entries);
    OnlyEntry(b, inputs, entries, check, metric, k);
    CooldownIsExact(webhooks, DispatchLog(b, inputs, entries), k, i);
  }

  /**
   Two metrics of a check announced less than a cooldown apart, for instance by the same result: once
   the first has been sent to a webhook, the second is never sent to it.
   */
  lemma SecondMetricIsLost(
    webhooks: seq<Webhook>, b: Budgets, inputs: seq<Input>, entries: seq<Budget.Entry>,
    i: nat, check: string, first: string, second: string, a: nat, k: nat)
    requires InputsInOrder(inputs) && i < |webhooks| && ':' !in second
    requires a < k < |DispatchLog(b, inputs, entries)|
    requires About(DispatchLog(b, inputs, entries)[a].e, check, first)
    requires About(DispatchLog(b, inputs, entries)[k].e, check, second)
    requires SentIn(webhooks, DispatchLog(b, inputs, entries), a, i)
    requires DispatchLog(b, inputs, entries)[k].now - DispatchLog(b, inputs, entries)[a].now < webhooks[i].cooldown
    ensures !EverSent(webhooks, DispatchLog(b, inputs, entries), i, check, second)
  {
    PairSentIff(webhooks, b, inputs, entries, i, check, second, k);
    assert CoolingDown(webhooks, DispatchLog(b, inputs, entries), i, check, k);
  }

  /** Two metrics of a check announced at the same instant: a webhook with a cooldown is sent at most one of them. */
  lemma NotBothSent(
    webhooks: seq<Webhook>, b: Budgets, inputs: seq<Input>, entries: seq<Budget.Entry>,
    i: nat, check: string, m1: string, m2: string, a: nat, k: nat)
    requires InputsInOrder(inputs) && i < |webhooks| && webhooks[i].cooldown > 0
    requires ':' !in m1 && ':' !in m2 && m1 != m2
    requires a < |DispatchLog(b, inputs, entries)| && About(DispatchLog(b, inputs, entries)[a].e, check, m1)
    requires k < |DispatchLog(b, inputs, entries)| && About(DispatchLog(b, inputs, entries)[k].e, check, m2)
    requires DispatchLog(b, inputs, entries)[a].now == DispatchLog(b, inputs, entries)[k].now
    ensures
      var log := DispatchLog(b, inputs, entries);
      !(EverSent(webhooks, log, i, check, m1) && EverSent(webhooks, log, i, check, m2))
  {
    var log := DispatchLog(b, inputs, entries);
    OnlyEntry(b, inputs, entries, check, m1, a);
    OnlyEntry(b, inputs, entries, check, m2, k);
    if a < k && SentIn(webhooks, log, a, i) {
      SecondMetricIsLost(webhooks, b, inputs, entries, i, check, m1, m2, a, k);
    } else if k < a && SentIn(webhooks, log, k, i) {
      SecondMetricIsLost(webhooks, b, inputs, entries, i, check, m2, m1, k, a);
    }
  }
}
