/** What each operation of the service leaves in the record of an access point, told from the fields of the request. */
module ServiceEffects {
  import opened Wrappers
  import opened AccessPointControl
  import opened ServicePlans
  import opened ServiceRuns
  import Remote = RemoteService
  import Ciphers = CipherSuites
  import Radius = RadiusConfiguration

  // ---------- What the enumerators of a request stand for ----------

  predicate PhyTypeMeans(t: PhyType, p: int) {
    match t
    case B => p == 1
    case G => p == 2
    case N => p == 3
    case A => p == 4
    case Ac => p == 5
    case Ad => p == 6
    case Ax => p == 7
    case Be => p == 8
    case UnknownPhy => p < 1 || p > 8
  }

  predicate BandMeans(b: FrequencyBand, n: int) {
    match b
    case TwoPointFourGHz => n == 1
    case FiveGHz => n == 2
    case SixGHz => n == 3
    case UnknownBand => n < 1 || n > 3
  }

  predicate AlgorithmMeans(a: AuthenticationAlgorithm, n: int) {
    match a
    case SharedKey => n == 1
    case OpenSystem => n == 2
    case FastBssTransition => n == 3
    case Sae => n == 4
    case Fils => n == 5
    case FilsPfs => n == 6
    case FilsPublicKey => n == 7
    case VendorSpecific => n == 8
    case UnknownAlgorithm => n < 1 || n > 8
  }

  /** The API counts from 1 what the standard counts from 0. */
  predicate AkmSuiteMeans(a: AkmSuite, n: int) {
    match a
    case Akm(suiteType) => 1 <= n <= 22 && suiteType + 1 == n
    case UnknownAkm => n < 1 || n > 22
  }

  predicate CipherMeans(c: Ciphers.Ieee80211CipherSuite, n: int) {
    match c
    case BipCmac128Suite => n == 1
    case BipCmac256Suite => n == 2
    case BipGmac128Suite => n == 3
    case BipGmac256Suite => n == 4
    case Ccmp128Suite => n == 5
    case Ccmp256Suite => n == 6
    case Gcmp128Suite => n == 7
    case Gcmp256Suite => n == 8
    case GroupAddressesTrafficNotAllowedSuite => n == 9
    case TkipSuite => n == 10
    case UseGroupSuite => n == 11
    case Wep104Suite => n == 12
    case Wep40Suite => n == 13
    case UnknownSuite => n < 1 || n > 13
  }

  predicate BandsMean(r: seq<FrequencyBand>, bs: seq<int>) {
    |r| == |bs| && forall i :: 0 <= i < |bs| ==> BandMeans(r[i], bs[i])
  }

  predicate AlgorithmsMean(r: seq<AuthenticationAlgorithm>, xs: seq<int>) {
    |r| == |xs| && forall i :: 0 <= i < |xs| ==> AlgorithmMeans(r[i], xs[i])
  }

  predicate AkmSuitesMean(r: seq<AkmSuite>, xs: seq<int>) {
    |r| == |xs| && forall i :: 0 <= i < |xs| ==> AkmSuiteMeans(r[i], xs[i])
  }

  predicate SuitesMean(r: seq<Ciphers.Ieee80211CipherSuite>, cs: seq<int>) {
    |r| == |cs| && forall i :: 0 <= i < |cs| ==> CipherMeans(r[i], cs[i])
  }

  /** An entry of the table: there exactly when the request names the protocol, with the ciphers of its first entry. */
  predicate EntryMeans(table: CipherTable, q: Ciphers.Ieee80211SecurityProtocol, request: Ciphers.Request, p: int) {
    && (q in table <==> Ciphers.Names(request, p))
    && (q in table ==> SuitesMean(table[q], Ciphers.Requested(request, p)))
  }

  predicate CipherTableMeans(table: CipherTable, request: Ciphers.Request) {
    && EntryMeans(table, Ciphers.WpaSecurity, request, 1)
    && EntryMeans(table, Ciphers.Wpa2Security, request, 2)
    && EntryMeans(table, Ciphers.Wpa3Security, request, 3)
    && Ciphers.UnknownSecurity !in table
  }

  predicate ServerMeans(t: Radius.Server, s: Dot1xServer) {
    && t.address == s.address && t.sharedSecret == s.sharedSecret
    && (match t.serverType
        case AuthenticationServer => s.endpoint == 1
        case AccountingServer => s.endpoint == 2
        case UnknownServer => s.endpoint != 1 && s.endpoint != 2)
    && (if t.port.Some? then s.port != 0 && t.port.value == s.port % 0x1_0000 else s.port == 0)
  }

  predicate RadiusMeans(t: Radius.Configuration, r: Dot1xRadius) {
    && r.authenticationServer.Some? && ServerMeans(t.authenticationServer, r.authenticationServer.value)
    && (t.accountingServer.Some? <==> r.accountingServer.Some?)
    && (t.accountingServer.Some? ==> ServerMeans(t.accountingServer.value, r.accountingServer.value))
    && |t.fallbackServers| == |r.fallbackServers|
    && forall i :: 0 <= i < |r.fallbackServers| ==> ServerMeans(t.fallbackServers[i], r.fallbackServers[i])
  }

  predicate SsidMeans(text: string, x: Dot11Ssid) {
    match x
    case NoSsid => false
    case Name(name) => text == name
    case HexSsid(hex) => text == hex
    case Data(data) => text == data
  }

  // ---------- Which requests can be met ----------

  predicate CanSetPhyType(c: Capabilities, p: int) { p != 0 && exists t :: t in c.phyTypes && PhyTypeMeans(t, p) }

  predicate HasBand(c: Capabilities, n: int) { exists b :: b in c.frequencyBands && BandMeans(b, n) }

  predicate CanSetBands(c: Capabilities, bs: seq<int>) { bs != [] && forall n :: n in bs ==> n != 0 && HasBand(c, n) }

  predicate CanSetAlgorithms(xs: seq<int>) { xs != [] && forall x :: x in xs ==> 1 <= x <= 8 }

  predicate CanSetAkmSuites(xs: seq<int>) { xs != [] && forall x :: x in xs ==> 1 <= x <= 22 }

  predicate CanSetCiphers(q: Ciphers.Request) { q != [] && forall e :: e in q ==> 1 <= e.0 <= 3 }

  predicate CanSetServer(s: Dot1xServer) { s.address != "" && s.sharedSecret != "" }

  predicate CanSetDot1x(d: Option<Dot1xRadius>) {
    && d.Some? && d.value.authenticationServer.Some? && CanSetServer(d.value.authenticationServer.value)
    && (d.value.accountingServer.Some? ==> CanSetServer(d.value.accountingServer.value))
    && forall s :: s in d.value.fallbackServers ==> CanSetServer(s)
  }

  // ---------- The conversions ----------

  lemma PhyTypeConverted(t: PhyType, p: int)
    ensures PhyTypeMeans(t, p) <==> t == FromPhyType(p)
  {
  }

  lemma BandConverted(b: FrequencyBand, n: int)
    ensures BandMeans(b, n) <==> b == FromFrequencyBand(n)
  {
  }

  lemma ListsConverted(xs: seq<int>)
    ensures BandsMean(FromFrequencyBands(xs), xs)
    ensures AlgorithmsMean(FromAlgorithms(xs), xs)
    ensures AkmSuitesMean(FromAkmSuites(xs), xs)
    ensures SuitesMean(Ciphers.FromSuites(xs), xs)
  {
  }

  lemma BandsSupported(c: Capabilities, bs: seq<int>)
    ensures CanSetBands(c, bs) <==> AreValidBands(c, bs)
  {
    forall b, n
      ensures BandMeans(b, n) <==> b == FromFrequencyBand(n)
    {
      BandConverted(b, n);
    }
    forall i | 0 <= i < |bs|
      ensures bs[i] in bs && FromFrequencyBands(bs)[i] in FromFrequencyBands(bs)
    {
    }
  }

  lemma CiphersSupported(q: Ciphers.Request)
    ensures CanSetCiphers(q) <==> AreValidCiphers(q)
    ensures Ciphers.Names(q, 0) ==> !CanSetCiphers(q)
  {
    if Ciphers.Names(q, 0) {
      Ciphers.EntryOfName(q, 0);
    }
  }

  lemma TableConverted(q: Ciphers.Request)
    ensures CipherTableMeans(CipherTableOf(q), q)
  {
    assert 1 in Ciphers.PROTOCOLS && 2 in Ciphers.PROTOCOLS && 3 in Ciphers.PROTOCOLS;
    EntryConverted(q, Ciphers.WpaSecurity, 1);
    EntryConverted(q, Ciphers.Wpa2Security, 2);
    EntryConverted(q, Ciphers.Wpa3Security, 3);
  }

  lemma EntryConverted(request: Ciphers.Request, q: Ciphers.Ieee80211SecurityProtocol, p: int)
    requires p in Ciphers.PROTOCOLS && Ciphers.FromDot11SecurityProtocol(p) == q
    ensures EntryMeans(CipherTableOf(request), q, request, p)
  {
    if q in CipherTableOf(request) {
      ListsConverted(Ciphers.Requested(request, p));
    }
  }

  lemma RadiusConverted(r: Dot1xRadius)
    requires r.authenticationServer.Some?
    ensures RadiusMeans(FromRadius(r), r)
  {
  }

  // ---------- One call at the end ----------

  /** An operation succeeds exactly when the request can be met and all calls made are answered; without success the
      record is what it was. */
  ghost predicate ChangesOnSuccess(answers: Answers, s: State, result: (State, Code), canBeMet: bool) {
    && (result.1 == Succeeded <==> canBeMet && AllAnswered(answers, s, result.0))
    && (result.1 != Succeeded ==> result.0.record == s.record)
  }

  /** The calls made are some of these, in this order, and all of them on success. */
  predicate MakesCalls(s: State, result: (State, Code), calls: seq<Call>) {
    && s.calls <= result.0.calls <= s.calls + calls
    && (result.1 == Succeeded ==> result.0.calls == s.calls + calls)
  }

  /** If any call is made, the capabilities are read first. */
  predicate CapabilitiesFirst(s: State, after: State) {
    after.calls == s.calls || s.calls + [GetCapabilities] <= after.calls
  }

  lemma BareRefusal(answers: Answers, s: State, code: Code)
    requires code != Succeeded
    ensures ChangesOnSuccess(answers, s, Perform(answers, s, [Refuse(code)]), false)
    ensures CapabilitiesFirst(s, Perform(answers, s, [Refuse(code)]).0)
  {
    PerformRefuse(answers, s, code);
  }

  lemma RefusedOutcome(answers: Answers, s: State, access: Code, code: Code)
    requires code != Succeeded
    ensures ChangesOnSuccess(answers, s, Perform(answers, s, Resolve(access) + [Refuse(code)]), false)
  {
    if access != Succeeded {
      Remote.RefuseFirst(answers, s, access, [Refuse(code)]);
    } else {
      Remote.NothingFirst([Refuse(code)]);
      PerformRefuse(answers, s, code);
    }
  }

  lemma CallOutcome(answers: Answers, s: State, access: Code, call: Call)
    ensures var result := Perform(answers, s, Resolve(access) + [Ask(call)]);
            && ChangesOnSuccess(answers, s, result, access == Succeeded)
            && MakesCalls(s, result, [call])
            && (result.1 == Succeeded ==> result.0.record == Stored(s.record, call))
  {
    if access != Succeeded {
      Remote.RefuseFirst(answers, s, access, [Ask(call)]);
    } else {
      Remote.NothingFirst([Ask(call)]);
      PerformAsk(answers, s, call);
    }
  }

  /** The capabilities are read first where the request depends on them. */
  lemma AfterCapabilities(answers: Answers, s: State, access: Code, last: Step)
    requires last.Refuse? ==> last.code != Succeeded
    ensures var result := Perform(answers, s, Resolve(access) + [Ask(GetCapabilities)] + [last]);
            && ChangesOnSuccess(answers, s, result, access == Succeeded && last.Ask?)
            && CapabilitiesFirst(s, result.0)
            && (result.1 == Succeeded ==> last.Ask? && result.0.record == Stored(s.record, last.call))
  {
    var rest := [Ask(GetCapabilities)] + [last];
    assert Resolve(access) + [Ask(GetCapabilities)] + [last] == Resolve(access) + rest;
    if access != Succeeded {
      Remote.RefuseFirst(answers, s, access, rest);
    } else {
      Remote.NothingFirst(rest);
      AskFirst(answers, s, GetCapabilities, [last]);
      LastStep(answers, s, Execute(answers, s, GetCapabilities), last);
    }
  }

  lemma LastStep(answers: Answers, s: State, now: State, last: Step)
    requires now == Execute(answers, s, GetCapabilities) && (last.Refuse? ==> last.code != Succeeded)
    ensures answers(|s.calls|) == Succeeded ==>
              && ChangesOnSuccess(answers, s, Perform(answers, now, [last]), last.Ask?)
              && (Perform(answers, now, [last]).1 == Succeeded ==>
                    last.Ask? && Perform(answers, now, [last]).0.record == Stored(s.record, last.call))
  {
    match last
    case Ask(call) => PerformAsk(answers, now, call);
    case Refuse(code) => PerformRefuse(answers, now, code);
  }

  // ---------- The operations ----------

  lemma PhyTypeStored(answers: Answers, c: Capabilities, s: State, p: int, access: Code)
    ensures var (after, code) := Perform(answers, s, PhyTypePlan(c, p, access));
            && ChangesOnSuccess(answers, s, (after, code), access == Succeeded && CanSetPhyType(c, p))
            && CapabilitiesFirst(s, after)
            && (code == Succeeded ==>
                  && after.record == s.record.(phyType := after.record.phyType)
                  && after.record.phyType.Some? && PhyTypeMeans(after.record.phyType.value, p))
  {
    forall t: PhyType
      ensures PhyTypeMeans(t, p) <==> t == FromPhyType(p)
    {
      PhyTypeConverted(t, p);
    }
    BareRefusal(answers, s, InvalidParameter);
    AfterCapabilities(answers, s, access, Refuse(OperationNotSupported));
    AfterCapabilities(answers, s, access, Ask(SetPhyType(FromPhyType(p))));
  }

  lemma BandsStored(answers: Answers, c: Capabilities, s: State, bs: seq<int>, access: Code)
    ensures var (after, code) := Perform(answers, s, FrequencyBandsPlan(c, bs, access));
            && ChangesOnSuccess(answers, s, (after, code), access == Succeeded && CanSetBands(c, bs))
            && CapabilitiesFirst(s, after)
            && (code == Succeeded ==>
                  && after.record == s.record.(frequencyBands := after.record.frequencyBands)
                  && after.record.frequencyBands.Some? && BandsMean(after.record.frequencyBands.value, bs))
  {
    BandsSupported(c, bs);
    if bs == [] || 0 in bs {
      BareRefusal(answers, s, InvalidParameter);
    } else if AreValidBands(c, bs) {
      ListsConverted(bs);
      AfterCapabilities(answers, s, access, Ask(SetFrequencyBands(FromFrequencyBands(bs))));
    } else {
      AfterCapabilities(answers, s, access, Refuse(OperationNotSupported));
    }
  }

  lemma BridgeStored(answers: Answers, s: State, bridge: string, access: Code)
    ensures var (after, code) := Perform(answers, s, NetworkBridgePlan(bridge, access));
            && ChangesOnSuccess(answers, s, (after, code), access == Succeeded)
            && (code == Succeeded ==> after.record == s.record.(networkBridge := Some(bridge)))
  {
    CallOutcome(answers, s, access, SetNetworkBridge(bridge));
  }

  lemma AlgorithmsStored(answers: Answers, s: State, xs: seq<int>, access: Code)
    ensures var (after, code) := Perform(answers, s, AlgorithmsPlan(xs, access));
            && ChangesOnSuccess(answers, s, (after, code), access == Succeeded && CanSetAlgorithms(xs))
            && (code == Succeeded ==>
                  && after.record == s.record.(algorithms := after.record.algorithms)
                  && after.record.algorithms.Some? && AlgorithmsMean(after.record.algorithms.value, xs))
  {
    if xs == [] || 0 in xs {
      BareRefusal(answers, s, InvalidParameter);
    } else if AreValidAlgorithms(xs) {
      ListsConverted(xs);
      CallOutcome(answers, s, access, SetAuthenticationAlgorithms(FromAlgorithms(xs)));
    } else {
      RefusedOutcome(answers, s, access, InvalidParameter);
    }
  }

  lemma AkmSuitesStored(answers: Answers, s: State, xs: seq<int>, access: Code)
    ensures var (after, code) := Perform(answers, s, AkmSuitesPlan(xs, access));
            && ChangesOnSuccess(answers, s, (after, code), access == Succeeded && CanSetAkmSuites(xs))
            && (code == Succeeded ==>
                  && after.record == s.record.(akmSuites := after.record.akmSuites)
                  && after.record.akmSuites.Some? && AkmSuitesMean(after.record.akmSuites.value, xs))
  {
    if xs == [] || 0 in xs {
      BareRefusal(answers, s, InvalidParameter);
    } else if AreValidAkmSuites(xs) {
      ListsConverted(xs);
      CallOutcome(answers, s, access, SetAkmSuites(FromAkmSuites(xs)));
    } else {
      RefusedOutcome(answers, s, access, InvalidParameter);
    }
  }

  lemma DataStored(answers: Answers, s: State, d: AuthenticationData, access: Code)
    ensures var (after, code) := Perform(answers, s, AuthenticationDataPlan(d, access));
            && ChangesOnSuccess(answers, s, (after, code), access == Succeeded && CanSetData(d))
            && (code == Succeeded ==> after.record == s.record.(authenticationData := Some(d)))
  {
    if CanSetData(d) {
      CallOutcome(answers, s, access, SetAuthenticationData(d));
    } else {
      BareRefusal(answers, s, InvalidParameter);
    }
  }

  lemma CiphersStored(answers: Answers, s: State, q: Ciphers.Request, access: Code)
    ensures var (after, code) := Perform(answers, s, CiphersPlan(q, access));
            && ChangesOnSuccess(answers, s, (after, code), access == Succeeded && CanSetCiphers(q))
            && (code == Succeeded ==>
                  && after.record == s.record.(cipherSuites := after.record.cipherSuites)
                  && after.record.cipherSuites.Some? && CipherTableMeans(after.record.cipherSuites.value, q))
  {
    CiphersSupported(q);
    if q == [] || Ciphers.Names(q, 0) {
      BareRefusal(answers, s, InvalidParameter);
    } else if AreValidCiphers(q) {
      TableConverted(q);
      CallOutcome(answers, s, access, SetPairwiseCipherSuites(CipherTableOf(q)));
    } else {
      RefusedOutcome(answers, s, access, InvalidParameter);
    }
  }

  lemma SsidStored(answers: Answers, s: State, x: Dot11Ssid, access: Code)
    ensures var (after, code) := Perform(answers, s, SsidPlan(x, access));
            && ChangesOnSuccess(answers, s, (after, code), access == Succeeded && x != NoSsid)
            && (code == Succeeded ==>
                  && after.record == s.record.(ssid := after.record.ssid)
                  && after.record.ssid.Some? && SsidMeans(after.record.ssid.value, x))
  {
    if x == NoSsid {
      BareRefusal(answers, s, InvalidParameter);
    } else {
      CallOutcome(answers, s, access, SetSsid(SsidText(x)));
    }
  }

  lemma Dot1xStored(answers: Answers, s: State, d: Option<Dot1xRadius>, access: Code)
    ensures var (after, code) := Perform(answers, s, Dot1xPlan(d, access));
            && ChangesOnSuccess(answers, s, (after, code), access == Succeeded && CanSetDot1x(d))
            && (code == Succeeded ==>
                  && after.record == s.record.(radius := after.record.radius)
                  && after.record.radius.Some? && RadiusMeans(after.record.radius.value, d.value))
  {
    BareRefusal(answers, s, InvalidParameter);
    RefusedOutcome(answers, s, access, InvalidParameter);
    assert CanSetDot1x(d) <==> d.Some? && IsValidRadius(d.value);
    if CanSetDot1x(d) {
      RadiusConverted(d.value);
      CallOutcome(answers, s, access, SetRadiusConfiguration(FromRadius(d.value)));
      }
  }

  /** Disabling succeeds exactly when the access point was found and all calls are answered. Then it is off; without
      success it is as it was, and no other entry changes in either case. */
  lemma DisabledExactlyOnSuccess(answers: Answers, s: State, access: Code)
    ensures var (after, code) := Perform(answers, s, DisablePlan(s.record.isEnabled, access));
            && ChangesOnSuccess(answers, s, (after, code), access == Succeeded)
            && MakesCalls(s, (after, code), [GetOperationalState]
                                            + if s.record.isEnabled then [SetOperationalState(false)] else [])
            && (code == Succeeded ==> after.record == s.record.(isEnabled := false))
            && (s.record.isEnabled ==> (!after.record.isEnabled <==> code == Succeeded))
  {
    if access != Succeeded {
      Remote.RefuseFirst(answers, s, access, StatePlan(s.record.isEnabled, false));
    } else {
      Remote.NothingFirst(StatePlan(s.record.isEnabled, false));
      SwitchOutcome(answers, s, false);
    }
  }

  /** Reading the operational state, and setting it where it is another one. */
  lemma SwitchOutcome(answers: Answers, s: State, target: bool)
    ensures var result := Perform(answers, s, StatePlan(s.record.isEnabled, target));
            && ChangesOnSuccess(answers, s, result, true)
            && MakesCalls(s, result, [GetOperationalState]
                                     + if s.record.isEnabled == target then [] else [SetOperationalState(target)])
            && (result.1 == Succeeded ==> result.0.record == s.record.(isEnabled := target))
  {
    var read, call := Execute(answers, s, GetOperationalState), SetOperationalState(target);
    if s.record.isEnabled == target {
      assert StatePlan(s.record.isEnabled, target) == [Ask(GetOperationalState)];
      PerformAsk(answers, s, GetOperationalState);
    } else {
      AskFirst(answers, s, GetOperationalState, [Ask(call)]);
      PerformAsk(answers, read, call);
      assert read.record == s.record;
    }
  }

  // ---------- Enable ----------

  /** What becomes of each entry of the record when the item of a configuration that it belongs to has been set; an item
      that is absent changes nothing. */
  predicate PhyTypeHeld(was: Option<PhyType>, now: Option<PhyType>, p: int) {
    if p == 0 then now == was else now.Some? && PhyTypeMeans(now.value, p)
  }

  predicate RadiusHeld(was: Option<Radius.Configuration>, now: Option<Radius.Configuration>,
                       d: Option<Option<Dot1xRadius>>) {
    if d.None? then now == was else now.Some? && d.value.Some? && RadiusMeans(now.value, d.value.value)
  }

  predicate AlgorithmsHeld(was: Option<seq<AuthenticationAlgorithm>>, now: Option<seq<AuthenticationAlgorithm>>,
                           xs: seq<int>) {
    if xs == [] then now == was else now.Some? && AlgorithmsMean(now.value, xs)
  }

  predicate DataHeld(was: Option<AuthenticationData>, now: Option<AuthenticationData>, d: AuthenticationData) {
    if d.psk.None? && d.sae.None? then now == was else now == Some(d)
  }

  predicate AkmSuitesHeld(was: Option<seq<AkmSuite>>, now: Option<seq<AkmSuite>>, xs: seq<int>) {
    if xs == [] then now == was else now.Some? && AkmSuitesMean(now.value, xs)
  }

  predicate CiphersHeld(was: Option<CipherTable>, now: Option<CipherTable>, q: Ciphers.Request) {
    if q == [] then now == was else now.Some? && CipherTableMeans(now.value, q)
  }

  predicate SsidHeld(was: Option<string>, now: Option<string>, x: Option<Dot11Ssid>) {
    if x.None? then now == was else now.Some? && SsidMeans(now.value, x.value)
  }

  predicate BandsHeld(was: Option<seq<FrequencyBand>>, now: Option<seq<FrequencyBand>>, bs: seq<int>) {
    if bs == [] then now == was else now.Some? && BandsMean(now.value, bs)
  }

  /** The first `k` items of the configuration have been set, in this order, and nothing else has changed. */
  predicate Configured(was: Record, now: Record, g: Configuration, k: nat) {
    && (if k > 0 then PhyTypeHeld(was.phyType, now.phyType, g.phyType) else now.phyType == was.phyType)
    && (if k > 1 then RadiusHeld(was.radius, now.radius, g.authenticationDot1x) else now.radius == was.radius)
    && (if k > 2 then AlgorithmsHeld(was.algorithms, now.algorithms, g.algorithms)
        else now.algorithms == was.algorithms)
    && (if k > 3 then DataHeld(was.authenticationData, now.authenticationData, g.authenticationData)
        else now.authenticationData == was.authenticationData)
    && (if k > 4 then AkmSuitesHeld(was.akmSuites, now.akmSuites, g.akmSuites) else now.akmSuites == was.akmSuites)
    && (if k > 5 then CiphersHeld(was.cipherSuites, now.cipherSuites, g.pairwiseCipherSuites)
        else now.cipherSuites == was.cipherSuites)
    && (if k > 6 then SsidHeld(was.ssid, now.ssid, g.ssid) else now.ssid == was.ssid)
    && (if k > 7 then BandsHeld(was.frequencyBands, now.frequencyBands, g.frequencyBands)
        else now.frequencyBands == was.frequencyBands)
    && now.networkBridge == was.networkBridge && now.isEnabled == was.isEnabled
  }

  predicate CanConfigureItem(c: Capabilities, g: Configuration, i: Item) {
    match i
    case PhyItem => g.phyType == 0 || CanSetPhyType(c, g.phyType)
    case Dot1xItem => g.authenticationDot1x.None? || CanSetDot1x(g.authenticationDot1x.value)
    case AlgorithmsItem => g.algorithms == [] || CanSetAlgorithms(g.algorithms)
    case DataItem =>
      (g.authenticationData.psk.None? && g.authenticationData.sae.None?) || CanSetData(g.authenticationData)
    case AkmItem => g.akmSuites == [] || CanSetAkmSuites(g.akmSuites)
    case CiphersItem => g.pairwiseCipherSuites == [] || CanSetCiphers(g.pairwiseCipherSuites)
    case SsidItem => g.ssid != Some(NoSsid)
    case BandsItem => g.frequencyBands == [] || CanSetBands(c, g.frequencyBands)
  }

  /** One item: it succeeds exactly when it can be set and all calls are answered, and sets its entry then. */
  ghost predicate SetsItem(answers: Answers, c: Capabilities, s: State, g: Configuration, k: nat)
    requires k < 8
  {
    var result := Perform(answers, s, ItemPlan(c, g, ORDER[k]));
    && ChangesOnSuccess(answers, s, result, CanConfigureItem(c, g, ORDER[k]))
    && (result.1 == Succeeded ==> HeldNext(s.record, result.0.record, g, k))
  }

  /** Item `k` has been set, and nothing else. */
  predicate HeldNext(was: Record, now: Record, g: Configuration, k: nat)
    requires k < 8
  {
    match k
    case 0 =>
      && now == was.(phyType := now.phyType)
      && PhyTypeHeld(was.phyType, now.phyType, g.phyType)
    case 1 =>
      && now == was.(radius := now.radius)
      && RadiusHeld(was.radius, now.radius, g.authenticationDot1x)
    case 2 =>
      && now == was.(algorithms := now.algorithms)
      && AlgorithmsHeld(was.algorithms, now.algorithms, g.algorithms)
    case 3 =>
      && now == was.(authenticationData := now.authenticationData)
      && DataHeld(was.authenticationData, now.authenticationData, g.authenticationData)
    case 4 =>
      && now == was.(akmSuites := now.akmSuites)
      && AkmSuitesHeld(was.akmSuites, now.akmSuites, g.akmSuites)
    case 5 =>
      && now == was.(cipherSuites := now.cipherSuites)
      && CiphersHeld(was.cipherSuites, now.cipherSuites, g.pairwiseCipherSuites)
    case 6 =>
      && now == was.(ssid := now.ssid)
      && SsidHeld(was.ssid, now.ssid, g.ssid)
    case 7 =>
      && now == was.(frequencyBands := now.frequencyBands)
      && BandsHeld(was.frequencyBands, now.frequencyBands, g.frequencyBands)
  }

  lemma OneMoreHeld(was: Record, before: Record, now: Record, g: Configuration, k: nat)
    requires k < 8 && Configured(was, before, g, k) && HeldNext(before, now, g, k)
    ensures Configured(was, now, g, k + 1)
  {
  }

  lemma PhyTypeItem(answers: Answers, c: Capabilities, s: State, g: Configuration)
    ensures SetsItem(answers, c, s, g, 0)
  {
    PhyTypeStored(answers, c, s, g.phyType, Succeeded);
  }

  lemma Dot1xItem(answers: Answers, c: Capabilities, s: State, g: Configuration)
    ensures SetsItem(answers, c, s, g, 1)
  {
    if g.authenticationDot1x.Some? {
      Dot1xStored(answers, s, g.authenticationDot1x.value, Succeeded);
    }
  }

  lemma AlgorithmsItem(answers: Answers, c: Capabilities, s: State, g: Configuration)
    ensures SetsItem(answers, c, s, g, 2)
  {
    AlgorithmsStored(answers, s, g.algorithms, Succeeded);
  }

  lemma DataItem(answers: Answers, c: Capabilities, s: State, g: Configuration)
    ensures SetsItem(answers, c, s, g, 3)
  {
    DataStored(answers, s, g.authenticationData, Succeeded);
  }

  lemma AkmSuitesItem(answers: Answers, c: Capabilities, s: State, g: Configuration)
    ensures SetsItem(answers, c, s, g, 4)
  {
    AkmSuitesStored(answers, s, g.akmSuites, Succeeded);
  }

  lemma CiphersItem(answers: Answers, c: Capabilities, s: State, g: Configuration)
    ensures SetsItem(answers, c, s, g, 5)
  {
    CiphersStored(answers, s, g.pairwiseCipherSuites, Succeeded);
  }

  lemma SsidItem(answers: Answers, c: Capabilities, s: State, g: Configuration)
    ensures SetsItem(answers, c, s, g, 6)
  {
    if g.ssid.Some? {
      SsidStored(answers, s, g.ssid.value, Succeeded);
    }
  }

  lemma BandsItem(answers: Answers, c: Capabilities, s: State, g: Configuration)
    ensures SetsItem(answers, c, s, g, 7)
  {
    BandsStored(answers, c, s, g.frequencyBands, Succeeded);
  }

  lemma ItemStored(answers: Answers, c: Capabilities, s: State, g: Configuration, k: nat)
    requires k < 8
    ensures SetsItem(answers, c, s, g, k)
  {
    match k
    case 0 => PhyTypeItem(answers, c, s, g);
    case 1 => Dot1xItem(answers, c, s, g);
    case 2 => AlgorithmsItem(answers, c, s, g);
    case 3 => DataItem(answers, c, s, g);
    case 4 => AkmSuitesItem(answers, c, s, g);
    case 5 => CiphersItem(answers, c, s, g);
    case 6 => SsidItem(answers, c, s, g);
    case 7 => BandsItem(answers, c, s, g);
  }

  predicate CanConfigure(c: Capabilities, g: Configuration, k: nat)
    requires k <= 8
  {
    forall j :: 0 <= j < k ==> CanConfigureItem(c, g, ORDER[j])
  }

  /** What setting the first `k` items comes to: some of them are set, all exactly on success. */
  ghost predicate SetsItems(
    answers: Answers, c: Capabilities, s: State, g: Configuration, k: nat, result: (State, Code), done: nat)
    requires k <= 8
  {
    && s.calls <= result.0.calls
    && done <= k && Configured(s.record, result.0.record, g, done)
    && (result.1 == Succeeded ==> done == k)
    && (result.1 == Succeeded <==> CanConfigure(c, g, k) && AllAnswered(answers, s, result.0))
  }

  lemma {:induction false} CallsGrow(answers: Answers, s: State, plan: seq<Step>)
    ensures s.calls <= Perform(answers, s, plan).0.calls
    decreases |plan|
  {
    if plan != [] && plan[0].Ask? {
      CallsGrow(answers, Execute(answers, s, plan[0].call), plan[1..]);
    }
  }

  lemma AnsweredInTwo(answers: Answers, s: State, middle: State, after: State)
    requires s.calls <= middle.calls <= after.calls
    ensures AllAnswered(answers, s, after) <==> AllAnswered(answers, s, middle) && AllAnswered(answers, middle, after)
  {
  }

  lemma OneMore(answers: Answers, c: Capabilities, s: State, g: Configuration, k: nat, middle: State)
    returns (done: nat)
    requires k < 8 && SetsItems(answers, c, s, g, k, (middle, Succeeded), k)
    requires SetsItem(answers, c, middle, g, k)
    ensures SetsItems(answers, c, s, g, k + 1, Perform(answers, middle, ItemPlan(c, g, ORDER[k])), done)
  {
    var result := Perform(answers, middle, ItemPlan(c, g, ORDER[k]));
    CallsGrow(answers, middle, ItemPlan(c, g, ORDER[k]));
    AnsweredInTwo(answers, s, middle, result.0);
    CanConfigureMore(c, g, k);
    if result.1 == Succeeded {
      OneMoreHeld(s.record, middle.record, result.0.record, g, k);
    }
    done := if result.1 == Succeeded then k + 1 else k;
  }

  lemma CanConfigureMore(c: Capabilities, g: Configuration, k: nat)
    requires k < 8
    ensures CanConfigure(c, g, k + 1) <==> CanConfigure(c, g, k) && CanConfigureItem(c, g, ORDER[k])
  {
  }

  lemma {:induction false} ItemsStored(answers: Answers, c: Capabilities, s: State, g: Configuration, k: nat)
    returns (done: nat)
    requires k <= 8
    ensures SetsItems(answers, c, s, g, k, Perform(answers, s, ItemsPlan(c, g, k)), done)
  {
    if k == 0 {
      done := 0;
    } else {
      var n := k - 1;
      var (middle, code) := Perform(answers, s, ItemsPlan(c, g, n));
      done := ItemsStored(answers, c, s, g, n);
      Remote.ItemsRefusals(c, g, n);
      PerformAppend(answers, s, ItemsPlan(c, g, n), ItemPlan(c, g, ORDER[n]));
      if code == Succeeded {
        ItemStored(answers, c, middle, g, n);
        done := OneMore(answers, c, s, g, n, middle);
      } else {
        Failed(answers, c, s, g, n, (middle, code), done);
      }
    }
  }

  /** A failure stays a failure of more items. */
  lemma Failed(answers: Answers, c: Capabilities, s: State, g: Configuration, k: nat, result: (State, Code), done: nat)
    requires k < 8 && SetsItems(answers, c, s, g, k, result, done) && result.1 != Succeeded
    ensures SetsItems(answers, c, s, g, k + 1, result, done)
  {
  }

  /** Enabling, whatever fails: some number of items of the configuration have been set, in the order PHY type, 802.1X,
      authentication algorithms, authentication data, AKM suites, cipher suites, SSID, bands, each to what the request
      says, and all of them exactly when the access point is on because of it. It succeeds exactly when the access
      point was found, all items can be set and all calls are answered. */
  lemma EnableStores(answers: Answers, c: Capabilities, s: State, g: Configuration, access: Code) returns (done: nat)
    ensures var (after, code) := Perform(answers, s, EnablePlan(c, Some(g), s.record.isEnabled, access));
            && done <= 8
            && Configured(s.record, after.record.(isEnabled := s.record.isEnabled), g, done)
            && (code == Succeeded <==> access == Succeeded && CanConfigure(c, g, 8) && AllAnswered(answers, s, after))
            && (code == Succeeded ==> done == 8 && after.record.isEnabled)
            && (code != Succeeded ==> after.record.isEnabled == s.record.isEnabled)
  {
    var plan := EnablePlan(c, Some(g), s.record.isEnabled, access);
    if access != Succeeded {
      PerformRefuse(answers, s, access);
      done := 0;
    } else {
      var items := ItemsPlan(c, g, 8);
      var (middle, code) := Perform(answers, s, items);
      done := ItemsStored(answers, c, s, g, 8);
      Remote.ItemsRefusals(c, g, 8);
      PerformAppend(answers, s, items, StatePlan(s.record.isEnabled, true));
      if code == Succeeded {
        SwitchOutcome(answers, middle, true);
        CallsGrow(answers, middle, StatePlan(s.record.isEnabled, true));
        AnsweredInTwo(answers, s, middle, Perform(answers, s, plan).0);
      }
    }
  }

  /** Without a configuration there is only the switch. */
  lemma EnableSwitches(answers: Answers, c: Capabilities, s: State, access: Code)
    ensures var (after, code) := Perform(answers, s, EnablePlan(c, None, s.record.isEnabled, access));
            && ChangesOnSuccess(answers, s, (after, code), access == Succeeded)
            && (code == Succeeded ==> after.record == s.record.(isEnabled := true))
  {
    if access != Succeeded {
      PerformRefuse(answers, s, access);
    } else {
      assert [] + StatePlan(s.record.isEnabled, true) == StatePlan(s.record.isEnabled, true);
      SwitchOutcome(answers, s, true);
    }
  }
}
