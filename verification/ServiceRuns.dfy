/** What the service guarantees: enabling is a fail-fast program, and every reachable configuration is sound. */
module ServiceRuns {
  import opened Wrappers
  import opened AccessPointControl
  import opened ServicePlans
  import opened RemoteService
  import Ciphers = CipherSuites
  import Radius = RadiusConfiguration

  // ---------- Enable ----------

  /** The setting that an item of a configuration asks for; none for 802.1X data that cannot be converted. */
  function IntendedItem(g: Configuration, i: Item): seq<Call> {
    if !IsPresent(g, i) then []
    else
      match i
      case PhyItem => [SetPhyType(FromPhyType(g.phyType))]
      case Dot1xItem =>
        var d := g.authenticationDot1x.value;
        if d.Some? && d.value.authenticationServer.Some? then [SetRadiusConfiguration(FromRadius(d.value))] else []
      case AlgorithmsItem => [SetAuthenticationAlgorithms(FromAlgorithms(g.algorithms))]
      case DataItem => [SetAuthenticationData(g.authenticationData)]
      case AkmItem => [SetAkmSuites(FromAkmSuites(g.akmSuites))]
      case CiphersItem => [SetPairwiseCipherSuites(CipherTableOf(g.pairwiseCipherSuites))]
      case SsidItem => [SetSsid(SsidText(g.ssid.value))]
      case BandsItem => [SetFrequencyBands(FromFrequencyBands(g.frequencyBands))]
  }

  /** The settings of the first k items, in order. */
  function IntendedItems(g: Configuration, k: nat): seq<Call>
    requires k <= |ORDER|
  {
    if k == 0 then [] else IntendedItems(g, k - 1) + IntendedItem(g, ORDER[k - 1])
  }

  predicate IsValidItem(c: Capabilities, g: Configuration, i: Item) {
    IsPresent(g, i) ==>
      match i
      case PhyItem => IsValidPhyType(c, g.phyType)
      case Dot1xItem => IsValidDot1x(g.authenticationDot1x.value)
      case AlgorithmsItem => AreValidAlgorithms(g.algorithms)
      case DataItem => IsValidData(g.authenticationData)
      case AkmItem => AreValidAkmSuites(g.akmSuites)
      case CiphersItem => AreValidCiphers(g.pairwiseCipherSuites)
      case SsidItem => g.ssid != Some(NoSsid)
      case BandsItem => AreValidBands(c, g.frequencyBands)
  }

  predicate AreValidItems(c: Capabilities, g: Configuration, k: nat)
    requires k <= |ORDER|
  {
    forall j :: 0 <= j < k ==> IsValidItem(c, g, ORDER[j])
  }

  /** The plan makes exactly these settings when all is valid; otherwise it stops before completing them. */
  predicate Implements(plan: seq<Step>, calls: seq<Call>, isValid: bool) {
    && (HasRefusal(plan) <==> !isValid)
    && (isValid ==> Setters(CallsOf(plan)) == calls)
    && Setters(CallsOf(plan)) <= calls
  }

  lemma {:induction false} CallsOfAppend(a: seq<Step>, b: seq<Step>)
    ensures CallsOf(a + b) == if HasRefusal(a) then CallsOf(a) else CallsOf(a) + CallsOf(b)
  {
    if a == [] {
      assert a + b == b;
    } else {
      assert (a + b)[0] == a[0] && (a + b)[1..] == a[1..] + b;
      assert forall step :: step in a <==> step == a[0] || step in a[1..];
      CallsOfAppend(a[1..], b);
    }
  }

  lemma ImplementsAppend(a: seq<Step>, ca: seq<Call>, va: bool, b: seq<Step>, cb: seq<Call>, vb: bool)
    requires Implements(a, ca, va) && Implements(b, cb, vb)
    ensures Implements(a + b, ca + cb, va && vb)
  {
    CallsOfAppend(a, b);
    SettersAppend(CallsOf(a), CallsOf(b));
    assert forall step :: step in a + b <==> step in a || step in b;
  }

  lemma OneSetter(call: Call)
    requires IsSetter(call)
    ensures Implements([Ask(call)], [call], true)
  {
  }

  lemma OneRefusal(code: Code, calls: seq<Call>)
    ensures Implements([Refuse(code)], calls, false)
  {
  }

  lemma AfterGetter(rest: seq<Step>, calls: seq<Call>, isValid: bool)
    requires Implements(rest, calls, isValid)
    ensures Implements(Resolve(Succeeded) + [Ask(GetCapabilities)] + rest, calls, isValid)
  {
  }

  lemma ItemImplements(c: Capabilities, g: Configuration, i: Item)
    ensures Implements(ItemPlan(c, g, i), IntendedItem(g, i), IsValidItem(c, g, i))
  {
    var calls := IntendedItem(g, i);
    if calls != [] {
      OneSetter(calls[0]);
    }
    OneRefusal(InvalidParameter, calls);
    OneRefusal(OperationNotSupported, calls);
    if IsPresent(g, i) {
      match i
      case PhyItem =>
        var last := if FromPhyType(g.phyType) in c.phyTypes then [Ask(calls[0])]
                    else [Refuse(OperationNotSupported)];
        AfterGetter(last, calls, IsValidItem(c, g, i));
      case BandsItem =>
        var last := if AreValidBands(c, g.frequencyBands) then [Ask(calls[0])] else [Refuse(OperationNotSupported)];
        AfterGetter(last, calls, IsValidItem(c, g, i));
      case CiphersItem =>
        if Ciphers.Names(g.pairwiseCipherSuites, 0) {
          Ciphers.EntryOfName(g.pairwiseCipherSuites, 0);
        }
      case _ =>
    }
  }

  lemma {:induction false} ItemsImplement(c: Capabilities, g: Configuration, k: nat)
    requires k <= |ORDER|
    ensures Implements(ItemsPlan(c, g, k), IntendedItems(g, k), AreValidItems(c, g, k))
  {
    if k > 0 {
      ItemsImplement(c, g, k - 1);
      ItemImplements(c, g, ORDER[k - 1]);
      ImplementsAppend(ItemsPlan(c, g, k - 1), IntendedItems(g, k - 1), AreValidItems(c, g, k - 1),
                       ItemPlan(c, g, ORDER[k - 1]), IntendedItem(g, ORDER[k - 1]), IsValidItem(c, g, ORDER[k - 1]));
    }
  }

  /** All settings that a configuration asks for, in the order PHY type, 802.1X, authentication algorithms,
      authentication data, AKM suites, cipher suites, SSID, bands. */
  function Intended(g: Option<Configuration>): seq<Call> {
    if g.Some? then IntendedItems(g.value, |ORDER|) else []
  }

  predicate IsValid(c: Capabilities, g: Option<Configuration>) { g.Some? ==> AreValidItems(c, g.value, |ORDER|) }

  function SwitchOn(isEnabled: bool): seq<Call> { if isEnabled then [] else [SetOperationalState(true)] }

  lemma StatePlanImplements(isEnabled: bool)
    ensures Implements(StatePlan(isEnabled, true), SwitchOn(isEnabled), true)
  {
    assert Implements([Ask(GetOperationalState)], [], true);
    if isEnabled {
      assert StatePlan(isEnabled, true) == [Ask(GetOperationalState)];
    } else {
      OneSetter(SetOperationalState(true));
      ImplementsAppend([Ask(GetOperationalState)], [], true,
                       [Ask(SetOperationalState(true))], [SetOperationalState(true)], true);
      assert [] + [SetOperationalState(true)] == [SetOperationalState(true)];
    }
  }

  lemma EnableImplements(c: Capabilities, g: Option<Configuration>, isEnabled: bool, access: Code)
    ensures Implements(EnablePlan(c, g, isEnabled, access), Intended(g) + SwitchOn(isEnabled),
                       access == Succeeded && IsValid(c, g))
    ensures Refusals(EnablePlan(c, g, isEnabled, access))
  {
    if access != Succeeded {
      OneRefusal(access, Intended(g) + SwitchOn(isEnabled));
    } else {
      StatePlanImplements(isEnabled);
      if g.Some? {
        ItemsImplement(c, g.value, |ORDER|);
        ItemsRefusals(c, g.value, |ORDER|);
        ImplementsAppend(ItemsPlan(c, g.value, |ORDER|), Intended(g), IsValid(c, g),
                         StatePlan(isEnabled, true), SwitchOn(isEnabled), true);
      } else {
        assert [] + SwitchOn(isEnabled) == SwitchOn(isEnabled);
        assert [] + StatePlan(isEnabled, true) == StatePlan(isEnabled, true);
      }
    }
  }

  /** Enabling with any configuration, whatever fails: the settings made are a prefix of those asked for, in order,
      and then the switch to enabled; it succeeds exactly when the access point was found, all items are valid and
      every call succeeded, and then all the settings and the switch are stored. */
  lemma EnableIsFailFast(answers: Answers, c: Capabilities, s: State, g: Option<Configuration>, access: Code)
    ensures var (after, code) := Perform(answers, s, EnablePlan(c, g, s.record.isEnabled, access));
            && s.calls <= after.calls
            && Setters(Made(s, after)) <= Intended(g) + SwitchOn(s.record.isEnabled)
            && (code == Succeeded <==> access == Succeeded && IsValid(c, g) && AllAnswered(answers, s, after))
            && (code == Succeeded ==>
                  && Setters(Made(s, after)) == Intended(g) + SwitchOn(s.record.isEnabled)
                  && after.record == StoredAll(s.record, Intended(g) + SwitchOn(s.record.isEnabled)))
  {
    var plan := EnablePlan(c, g, s.record.isEnabled, access);
    var (after, code) := Perform(answers, s, plan);
    EnableImplements(c, g, s.record.isEnabled, access);
    CallsArePrefix(answers, s, plan);
    CallsStopAtFailure(answers, s, plan);
    CallsAreStored(answers, s, plan);
    SettersPrefix(Made(s, after), CallsOf(plan));
    GettersStoreNothing(s.record, Made(s, after));
  }

  /** An access point that was off is on afterwards exactly when the operation succeeded, and so after all of its
      items were set. */
  lemma EnabledExactlyOnSuccess(answers: Answers, c: Capabilities, s: State, g: Option<Configuration>, access: Code)
    requires !s.record.isEnabled
    ensures var (after, code) := Perform(answers, s, EnablePlan(c, g, false, access));
            after.record.isEnabled <==> code == Succeeded
  {
    if access != Succeeded {
      PerformRefuse(answers, s, access);
    } else {
      var items := if g.Some? then ItemsPlan(c, g.value, |ORDER|) else [];
      if g.Some? {
        ItemsRefusals(c, g.value, |ORDER|);
        ItemsKeepOperationalState(c, g.value, |ORDER|);
      }
      PerformAppend(answers, s, items, StatePlan(false, true));
      OperationalStateKept(answers, s, items);
      SwitchedOn(answers, Perform(answers, s, items).0);
    }
  }

  lemma SwitchedOn(answers: Answers, now: State)
    requires !now.record.isEnabled
    ensures var (after, code) := Perform(answers, now, StatePlan(false, true));
            after.record.isEnabled <==> code == Succeeded
  {
    AskFirst(answers, now, GetOperationalState, [Ask(SetOperationalState(true))]);
    PerformAsk(answers, Execute(answers, now, GetOperationalState), SetOperationalState(true));
  }

  // ---------- Any sequence of operations ----------

  datatype Request =
    | Enable(configuration: Option<Configuration>)
    | Disable
    | PhyType(phyType: int)
    | FrequencyBands(frequencyBands: seq<int>)
    | NetworkBridge(networkBridge: string)
    | Algorithms(algorithms: seq<int>)
    | AuthenticationDataRequest(data: AuthenticationData)
    | AkmSuites(akmSuites: seq<int>)
    | CipherSuitesRequest(request: Ciphers.Request)
    | Ssid(ssid: Dot11Ssid)
    | AuthenticationDot1x(dot1x: Option<Dot1xRadius>)

  function RequestPlan(c: Capabilities, isEnabled: bool, r: Request, access: Code): seq<Step> {
    match r
    case Enable(g) => EnablePlan(c, g, isEnabled, access)
    case Disable => DisablePlan(isEnabled, access)
    case PhyType(p) => PhyTypePlan(c, p, access)
    case FrequencyBands(bs) => FrequencyBandsPlan(c, bs, access)
    case NetworkBridge(b) => NetworkBridgePlan(b, access)
    case Algorithms(xs) => AlgorithmsPlan(xs, access)
    case AuthenticationDataRequest(d) => AuthenticationDataPlan(d, access)
    case AkmSuites(xs) => AkmSuitesPlan(xs, access)
    case CipherSuitesRequest(q) => CiphersPlan(q, access)
    case Ssid(x) => SsidPlan(x, access)
    case AuthenticationDot1x(d) => Dot1xPlan(d, access)
  }

  /** The state after some requests, each with the outcome of finding the access point for it. */
  function Run(answers: Answers, c: Capabilities, requests: seq<(Request, Code)>): State {
    if requests == [] then State(NEW_RECORD, [])
    else
      var n := |requests| - 1;
      var s := Run(answers, c, requests[..n]);
      Perform(answers, s, RequestPlan(c, s.record.isEnabled, requests[n].0, requests[n].1)).0
  }

  lemma AlgorithmsAreKnown(xs: seq<int>)
    requires AreValidAlgorithms(xs)
    ensures FromAlgorithms(xs) != [] && UnknownAlgorithm !in FromAlgorithms(xs)
  {
    ValidListConverted(xs);
  }

  lemma AkmSuitesAreKnown(xs: seq<int>)
    requires AreValidAkmSuites(xs)
    ensures FromAkmSuites(xs) != [] && UnknownAkm !in FromAkmSuites(xs)
  {
    ValidListConverted(xs);
  }

  lemma CiphersAreKnown(request: Ciphers.Request)
    requires AreValidCiphers(request)
    ensures CipherTableOf(request) != map[] && Ciphers.UnknownSecurity !in CipherTableOf(request)
  {
    Ciphers.NamesOfEntry(request, request[0]);
    assert Ciphers.FromDot11SecurityProtocol(request[0].0) in CipherTableOf(request);
  }

  lemma ServersAreComplete(r: Dot1xRadius)
    requires IsValidRadius(r)
    ensures forall s :: s in Radius.Servers(FromRadius(r)) ==> IsCompleteServer(s)
  {
    forall i | 0 <= i < |r.fallbackServers|
      ensures IsCompleteServer(FromServers(r.fallbackServers)[i])
    {
      assert r.fallbackServers[i] in r.fallbackServers;
    }
  }

  lemma AllSoundAppend(c: Capabilities, a: seq<Step>, b: seq<Step>)
    requires AllSound(c, a) && AllSound(c, b)
    ensures AllSound(c, a + b)
  {
  }

  lemma ChoiceIsSound(c: Capabilities, first: seq<Step>, isValid: bool, call: Call, code: Code)
    requires AllSound(c, first) && (isValid ==> IsSound(c, call))
    ensures AllSound(c, first + if isValid then [Ask(call)] else [Refuse(code)])
  {
  }

  lemma ListRequestIsSound(c: Capabilities, r: Request, access: Code)
    requires r.Algorithms? || r.AkmSuites?
    ensures AllSound(c, RequestPlan(c, false, r, access))
  {
    match r
    case Algorithms(xs) =>
      if AreValidAlgorithms(xs) { AlgorithmsAreKnown(xs); }
      ChoiceIsSound(c, Resolve(access), AreValidAlgorithms(xs), SetAuthenticationAlgorithms(FromAlgorithms(xs)),
                    InvalidParameter);
    case AkmSuites(xs) =>
      if AreValidAkmSuites(xs) { AkmSuitesAreKnown(xs); }
      ChoiceIsSound(c, Resolve(access), AreValidAkmSuites(xs), SetAkmSuites(FromAkmSuites(xs)), InvalidParameter);
  }

  lemma CiphersRequestIsSound(c: Capabilities, request: Ciphers.Request, access: Code)
    ensures AllSound(c, CiphersPlan(request, access))
  {
    if AreValidCiphers(request) {
      CiphersAreKnown(request);
    }
    ChoiceIsSound(c, Resolve(access), AreValidCiphers(request), SetPairwiseCipherSuites(CipherTableOf(request)),
                  InvalidParameter);
  }

  lemma BandsRequestIsSound(c: Capabilities, bs: seq<int>, access: Code)
    ensures AllSound(c, FrequencyBandsPlan(c, bs, access))
  {
  }

  lemma Dot1xRequestIsSound(c: Capabilities, d: Option<Dot1xRadius>, access: Code)
    ensures AllSound(c, Dot1xPlan(d, access))
  {
    if IsValidDot1x(d) {
      ServersAreComplete(d.value);
    }
  }

  lemma PhyTypeRequestIsSound(c: Capabilities, p: int, access: Code)
    ensures AllSound(c, PhyTypePlan(c, p, access))
  {
    ChoiceIsSound(c, Resolve(access) + [Ask(GetCapabilities)], FromPhyType(p) in c.phyTypes, SetPhyType(FromPhyType(p)),
                  OperationNotSupported);
  }

  lemma PlainRequestIsSound(c: Capabilities, isEnabled: bool, r: Request, access: Code)
    requires r.AuthenticationDataRequest? || r.Ssid? || r.NetworkBridge? || r.Disable?
    ensures AllSound(c, RequestPlan(c, isEnabled, r, access))
  {
  }

  lemma SingleRequestIsSound(c: Capabilities, isEnabled: bool, r: Request, access: Code)
    requires !r.Enable?
    ensures AllSound(c, RequestPlan(c, isEnabled, r, access))
  {
    match r
    case Algorithms(_) => ListRequestIsSound(c, r, access);
    case AkmSuites(_) => ListRequestIsSound(c, r, access);
    case CipherSuitesRequest(q) => CiphersRequestIsSound(c, q, access);
    case AuthenticationDot1x(d) => Dot1xRequestIsSound(c, d, access);
    case FrequencyBands(bs) => BandsRequestIsSound(c, bs, access);
    case PhyType(p) => PhyTypeRequestIsSound(c, p, access);
    case _ => PlainRequestIsSound(c, isEnabled, r, access);
  }

  /** An item of a configuration as a request of its own. */
  function RequestFor(g: Configuration, i: Item): Request
    requires IsPresent(g, i)
  {
    match i
    case PhyItem => PhyType(g.phyType)
    case Dot1xItem => AuthenticationDot1x(g.authenticationDot1x.value)
    case AlgorithmsItem => Algorithms(g.algorithms)
    case DataItem => AuthenticationDataRequest(g.authenticationData)
    case AkmItem => AkmSuites(g.akmSuites)
    case CiphersItem => CipherSuitesRequest(g.pairwiseCipherSuites)
    case SsidItem => Ssid(g.ssid.value)
    case BandsItem => FrequencyBands(g.frequencyBands)
  }

  lemma ItemIsSound(c: Capabilities, g: Configuration, i: Item)
    ensures AllSound(c, ItemPlan(c, g, i))
  {
    if IsPresent(g, i) {
      SingleRequestIsSound(c, false, RequestFor(g, i), Succeeded);
      assert ItemPlan(c, g, i) == RequestPlan(c, false, RequestFor(g, i), Succeeded);
    }
  }

  lemma {:induction false} ItemsAreSound(c: Capabilities, g: Configuration, k: nat)
    requires k <= |ORDER|
    ensures AllSound(c, ItemsPlan(c, g, k))
  {
    if k > 0 {
      ItemsAreSound(c, g, k - 1);
      ItemIsSound(c, g, ORDER[k - 1]);
      AllSoundAppend(c, ItemsPlan(c, g, k - 1), ItemPlan(c, g, ORDER[k - 1]));
    }
  }

  lemma RequestIsSound(c: Capabilities, isEnabled: bool, r: Request, access: Code)
    ensures AllSound(c, RequestPlan(c, isEnabled, r, access))
  {
    if r.Enable? {
      if r.configuration.Some? {
        ItemsAreSound(c, r.configuration.value, |ORDER|);
      }
    } else {
      SingleRequestIsSound(c, isEnabled, r, access);
    }
  }

  /** After any sequence of requests, with any failures: a PHY type and bands that were set are among the
      capabilities, lists of algorithms and AKM suites are not empty and hold nothing unknown, no cipher table has
      an unknown protocol, RADIUS servers have an address and a secret, and authentication data has the required
      lengths. */
  lemma {:induction false} ReachableConfigurationsAreSound(
    answers: Answers, c: Capabilities, requests: seq<(Request, Code)>)
    ensures IsSoundRecord(c, Run(answers, c, requests).record)
  {
    if requests != [] {
      var n := |requests| - 1;
      var s := Run(answers, c, requests[..n]);
      ReachableConfigurationsAreSound(answers, c, requests[..n]);
      RequestIsSound(c, s.record.isEnabled, requests[n].0, requests[n].1);
      SoundPlansKeepRecordsSound(c, answers, s, RequestPlan(c, s.record.isEnabled, requests[n].0, requests[n].1));
    }
  }
}
