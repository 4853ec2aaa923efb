/** What the operations of the service ask of an access point's controller: their plans. */
module ServicePlans {
  import opened Wrappers
  import opened AccessPointControl
  import Ciphers = CipherSuites
  import Radius = RadiusConfiguration

  // ---------- Requests; enumerations arrive as numbers, which need not be enumerators ----------

  datatype Dot11Ssid = NoSsid | Name(name: string) | HexSsid(hex: string) | Data(data: string)

  datatype Dot1xServer = Dot1xServer(endpoint: int, address: string, port: nat, sharedSecret: string)

  datatype Dot1xRadius = Dot1xRadius(
    authenticationServer: Option<Dot1xServer>,
    accountingServer: Option<Dot1xServer>,
    fallbackServers: seq<Dot1xServer>)

  /** Dot11AccessPointConfiguration; `authenticationDot1x` has a message inside that may be absent as well. */
  datatype Configuration = Configuration(
    phyType: int,
    authenticationDot1x: Option<Option<Dot1xRadius>>,
    algorithms: seq<int>,
    authenticationData: AuthenticationData,
    akmSuites: seq<int>,
    pairwiseCipherSuites: Ciphers.Request,
    ssid: Option<Dot11Ssid>,
    frequencyBands: seq<int>)

  // ---------- Conversions ----------

  function FromPhyType(p: int): PhyType {
    if p == 1 then B else if p == 2 then G else if p == 3 then N else if p == 4 then A else if p == 5 then Ac
    else if p == 6 then Ad else if p == 7 then Ax else if p == 8 then Be else UnknownPhy
  }

  function FromFrequencyBand(b: int): FrequencyBand {
    if b == 1 then TwoPointFourGHz else if b == 2 then FiveGHz else if b == 3 then SixGHz else UnknownBand
  }

  function FromAlgorithm(a: int): AuthenticationAlgorithm {
    if a == 1 then SharedKey else if a == 2 then OpenSystem else if a == 3 then FastBssTransition
    else if a == 4 then Sae else if a == 5 then Fils else if a == 6 then FilsPfs else if a == 7 then FilsPublicKey
    else if a == 8 then VendorSpecific else UnknownAlgorithm
  }

  function FromAkmSuite(a: int): AkmSuite { if 1 <= a <= 22 then Akm(a - 1) else UnknownAkm }

  function FromFrequencyBands(bs: seq<int>): (r: seq<FrequencyBand>)
    ensures |r| == |bs| && forall i :: 0 <= i < |bs| ==> r[i] == FromFrequencyBand(bs[i])
  {
    seq(|bs|, i requires 0 <= i < |bs| => FromFrequencyBand(bs[i]))
  }

  function FromAlgorithms(xs: seq<int>): (r: seq<AuthenticationAlgorithm>)
    ensures |r| == |xs| && forall i :: 0 <= i < |xs| ==> r[i] == FromAlgorithm(xs[i])
  {
    seq(|xs|, i requires 0 <= i < |xs| => FromAlgorithm(xs[i]))
  }

  function FromAkmSuites(xs: seq<int>): (r: seq<AkmSuite>)
    ensures |r| == |xs| && forall i :: 0 <= i < |xs| ==> r[i] == FromAkmSuite(xs[i])
  {
    seq(|xs|, i requires 0 <= i < |xs| => FromAkmSuite(xs[i]))
  }

  /** The port is cut to 16 bits; 0 stands for none. */
  function FromServer(s: Dot1xServer): Radius.Server {
    Radius.Server(
      if s.endpoint == 1 then Radius.AuthenticationServer
      else if s.endpoint == 2 then Radius.AccountingServer else Radius.UnknownServer,
      s.address, if s.port == 0 then None else Some(s.port % 0x1_0000), s.sharedSecret)
  }

  function FromServers(ss: seq<Dot1xServer>): (r: seq<Radius.Server>)
    ensures |r| == |ss| && forall i :: 0 <= i < |ss| ==> r[i] == FromServer(ss[i])
  {
    seq(|ss|, i requires 0 <= i < |ss| => FromServer(ss[i]))
  }

  function FromRadius(r: Dot1xRadius): Radius.Configuration
    requires r.authenticationServer.Some?
  {
    Radius.Configuration(
      FromServer(r.authenticationServer.value),
      if r.accountingServer.Some? then Some(FromServer(r.accountingServer.value)) else None,
      FromServers(r.fallbackServers))
  }

  function SsidText(s: Dot11Ssid): string {
    match s
    case NoSsid => ""
    case Name(text) => text
    case HexSsid(text) => text
    case Data(text) => text
  }

  /** The table of ciphers for a request that names only known protocols: for each the ciphers of its first
      entry. */
  function CipherTableOf(request: Ciphers.Request): CipherTable {
    map p | p in Ciphers.PROTOCOLS && Ciphers.Names(request, p) ::
      Ciphers.FromDot11SecurityProtocol(p) := Ciphers.FromSuites(Ciphers.Requested(request, p))
  }

  // ---------- What a valid request is ----------

  predicate IsValidPhyType(c: Capabilities, p: int) { p != 0 && FromPhyType(p) in c.phyTypes }

  predicate AreValidBands(c: Capabilities, bs: seq<int>) {
    bs != [] && 0 !in bs && forall b :: b in FromFrequencyBands(bs) ==> b in c.frequencyBands
  }

  predicate AreValidAlgorithms(xs: seq<int>) { xs != [] && forall x :: x in xs ==> 1 <= x <= 8 }

  predicate AreValidAkmSuites(xs: seq<int>) { xs != [] && forall x :: x in xs ==> 1 <= x <= 22 }

  predicate AreValidCiphers(request: Ciphers.Request) {
    request != [] && forall e :: e in request ==> e.0 in Ciphers.PROTOCOLS
  }

  predicate IsValidServer(s: Dot1xServer) { s.address != "" && s.sharedSecret != "" }

  predicate IsValidRadius(r: Dot1xRadius) {
    && r.authenticationServer.Some? && IsValidServer(r.authenticationServer.value)
    && (r.accountingServer.Some? ==> IsValidServer(r.accountingServer.value))
    && forall s :: s in r.fallbackServers ==> IsValidServer(s)
  }

  predicate IsValidDot1x(d: Option<Dot1xRadius>) { d.Some? && IsValidRadius(d.value) }

  // ---------- Plans ----------

  /** `access` is what looking up the access point and creating its controller ends with. */
  function Resolve(access: Code): seq<Step> { if access == Succeeded then [] else [Refuse(access)] }

  function PhyTypePlan(c: Capabilities, p: int, access: Code): seq<Step> {
    if p == 0 then [Refuse(InvalidParameter)]
    else
      Resolve(access) + [Ask(GetCapabilities)]
      + if FromPhyType(p) in c.phyTypes then [Ask(SetPhyType(FromPhyType(p)))] else [Refuse(OperationNotSupported)]
  }

  function FrequencyBandsPlan(c: Capabilities, bs: seq<int>, access: Code): seq<Step> {
    if bs == [] || 0 in bs then [Refuse(InvalidParameter)]
    else
      Resolve(access) + [Ask(GetCapabilities)]
      + if AreValidBands(c, bs) then [Ask(SetFrequencyBands(FromFrequencyBands(bs)))]
        else [Refuse(OperationNotSupported)]
  }

  function NetworkBridgePlan(bridge: string, access: Code): seq<Step> {
    Resolve(access) + [Ask(SetNetworkBridge(bridge))]
  }

  function AlgorithmsPlan(xs: seq<int>, access: Code): seq<Step> {
    if xs == [] || 0 in xs then [Refuse(InvalidParameter)]
    else
      Resolve(access)
      + if AreValidAlgorithms(xs) then [Ask(SetAuthenticationAlgorithms(FromAlgorithms(xs)))]
        else [Refuse(InvalidParameter)]
  }

  function AuthenticationDataPlan(d: AuthenticationData, access: Code): seq<Step> {
    if !IsValidData(d) then [Refuse(InvalidParameter)] else Resolve(access) + [Ask(SetAuthenticationData(d))]
  }

  function AkmSuitesPlan(xs: seq<int>, access: Code): seq<Step> {
    if xs == [] || 0 in xs then [Refuse(InvalidParameter)]
    else
      Resolve(access)
      + if AreValidAkmSuites(xs) then [Ask(SetAkmSuites(FromAkmSuites(xs)))] else [Refuse(InvalidParameter)]
  }

  function CiphersPlan(request: Ciphers.Request, access: Code): seq<Step> {
    if request == [] || Ciphers.Names(request, 0) then [Refuse(InvalidParameter)]
    else
      Resolve(access)
      + if AreValidCiphers(request) then [Ask(SetPairwiseCipherSuites(CipherTableOf(request)))]
        else [Refuse(InvalidParameter)]
  }

  function SsidPlan(s: Dot11Ssid, access: Code): seq<Step> {
    if s == NoSsid then [Refuse(InvalidParameter)] else Resolve(access) + [Ask(SetSsid(SsidText(s)))]
  }

  function Dot1xPlan(d: Option<Dot1xRadius>, access: Code): seq<Step> {
    if d.None? then [Refuse(InvalidParameter)]
    else
      Resolve(access)
      + if IsValidRadius(d.value) then [Ask(SetRadiusConfiguration(FromRadius(d.value)))]
        else [Refuse(InvalidParameter)]
  }

  /** Where the operational state is not yet `target`, it is set. */
  function StatePlan(isEnabled: bool, target: bool): seq<Step> {
    [Ask(GetOperationalState)] + if isEnabled == target then [] else [Ask(SetOperationalState(target))]
  }

  // ---------- Enable: all items that are present, in a fixed order ----------

  datatype Item = PhyItem | Dot1xItem | AlgorithmsItem | DataItem | AkmItem | CiphersItem | SsidItem | BandsItem

  const ORDER: seq<Item> := [PhyItem, Dot1xItem, AlgorithmsItem, DataItem, AkmItem, CiphersItem, SsidItem, BandsItem]

  predicate IsPresent(g: Configuration, i: Item) {
    match i
    case PhyItem => g.phyType != 0
    case Dot1xItem => g.authenticationDot1x.Some?
    case AlgorithmsItem => g.algorithms != []
    case DataItem => g.authenticationData.psk.Some? || g.authenticationData.sae.Some?
    case AkmItem => g.akmSuites != []
    case CiphersItem => g.pairwiseCipherSuites != []
    case SsidItem => g.ssid.Some?
    case BandsItem => g.frequencyBands != []
  }

  function ItemPlan(c: Capabilities, g: Configuration, i: Item): seq<Step> {
    if !IsPresent(g, i) then []
    else
      match i
      case PhyItem => PhyTypePlan(c, g.phyType, Succeeded)
      case Dot1xItem => Dot1xPlan(g.authenticationDot1x.value, Succeeded)
      case AlgorithmsItem => AlgorithmsPlan(g.algorithms, Succeeded)
      case DataItem => AuthenticationDataPlan(g.authenticationData, Succeeded)
      case AkmItem => AkmSuitesPlan(g.akmSuites, Succeeded)
      case CiphersItem => CiphersPlan(g.pairwiseCipherSuites, Succeeded)
      case SsidItem => SsidPlan(g.ssid.value, Succeeded)
      case BandsItem => FrequencyBandsPlan(c, g.frequencyBands, Succeeded)
  }

  /** The plan for the first `k` items. */
  function ItemsPlan(c: Capabilities, g: Configuration, k: nat): seq<Step>
    requires k <= |ORDER|
  {
    if k == 0 then [] else ItemsPlan(c, g, k - 1) + ItemPlan(c, g, ORDER[k - 1])
  }

  function EnablePlan(c: Capabilities, g: Option<Configuration>, isEnabled: bool, access: Code): seq<Step> {
    if access != Succeeded then [Refuse(access)]
    else (if g.Some? then ItemsPlan(c, g.value, |ORDER|) else []) + StatePlan(isEnabled, true)
  }

  function DisablePlan(isEnabled: bool, access: Code): seq<Step> { Resolve(access) + StatePlan(isEnabled, false) }
}
