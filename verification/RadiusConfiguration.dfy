/** AccessPointControllerLinux::SetRadiusConfiguration: one transaction made of several Hostapd operations. */
module RadiusConfiguration {
  import opened Wrappers
  import opened Sequences
  import opened Text
  import opened Daemon
  import opened HostapdProtocol
  import opened HostapdPlans
  import opened HostapdControl
  import opened HostapdTransactions

  datatype EndpointType = UnknownServer | AuthenticationServer | AccountingServer

  /** Ieee8021xRadiusServerEndpointConfiguration. */
  datatype Server = Server(serverType: EndpointType, address: string, port: Option<uint16>, sharedSecret: string)

  /** Ieee8021xRadiusConfiguration. */
  datatype Configuration = Configuration(
    authenticationServer: Server,
    accountingServer: Option<Server>,
    fallbackServers: seq<Server>)

  function ToWpaType(t: EndpointType): RadiusEndpointType {
    match t
    case AuthenticationServer => Authentication
    case AccountingServer => Accounting
    case UnknownServer => UnknownEndpoint
  }

  function ToWpaEndpoint(s: Server): RadiusEndpointConfiguration {
    RadiusEndpointConfiguration(ToWpaType(s.serverType), s.address, s.port, s.sharedSecret)
  }

  /** All servers of a configuration: authentication, accounting if there is one, then the fallbacks in order. */
  function Servers(c: Configuration): seq<Server> {
    [c.authenticationServer] + (if c.accountingServer.Some? then [c.accountingServer.value] else [])
    + c.fallbackServers
  }

  lemma FallbackAt(c: Configuration, i: nat)
    requires i < |c.fallbackServers|
    ensures var k := if c.accountingServer.Some? then 2 else 1;
            Servers(c)[k + i] == c.fallbackServers[i] && |Servers(c)| == k + |c.fallbackServers|
  {
  }

  function ToWpaEndpoints(servers: seq<Server>): (endpoints: seq<RadiusEndpointConfiguration>)
    ensures |endpoints| == |servers|
    ensures forall i :: 0 <= i < |endpoints| ==> endpoints[i] == ToWpaEndpoint(servers[i])
  {
    seq(|servers|, i requires 0 <= i < |servers| => ToWpaEndpoint(servers[i]))
  }

  function ConfigurationSets(c: Configuration, ownIpAddress: string): seq<Action> {
    EndpointsPlan(ToWpaEndpoints(Servers(c)))
    + SetPropertyPlan("eap_server", "0", Defer)
    + SetPropertyPlan("own_ip_addr", ownIpAddress, Defer)
  }

  function ConfigurationPlan(c: Configuration, ownIpAddress: string): seq<Action> {
    ConfigurationSets(c, ownIpAddress) + [Send(Reload)]
  }

  class AccessPointControllerLinux {
    const hostapd: Hostapd

    constructor (hostapd: Hostapd)
      ensures this.hostapd == hostapd
    {
      this.hostapd := hostapd;
    }

    /** The filling of the vector of endpoints through an advancing iterator. */
    method ConvertEndpoints(configuration: Configuration) returns (endpoints: array<RadiusEndpointConfiguration>)
      ensures fresh(endpoints)
      ensures endpoints[..] == ToWpaEndpoints(Servers(configuration))
    {
      var hasPrimaryAccountingServer := configuration.accountingServer.Some?;
      var fallbacks := configuration.fallbackServers;
      var numRadiusServers := 1 + |fallbacks| + (if hasPrimaryAccountingServer then 1 else 0);
      endpoints := new RadiusEndpointConfiguration[numRadiusServers](_ =>
        RadiusEndpointConfiguration(UnknownEndpoint, "", None, ""));
      var iter := 0;
      endpoints[iter] := ToWpaEndpoint(configuration.authenticationServer);
      iter := iter + 1;
      if hasPrimaryAccountingServer {
        endpoints[iter] := ToWpaEndpoint(configuration.accountingServer.value);
        iter := iter + 1;
      }
      ghost var target := ToWpaEndpoints(Servers(configuration));
      for i := 0 to |fallbacks|
        invariant endpoints[..iter + i] == target[..iter + i]
      {
        endpoints[iter + i] := ToWpaEndpoint(fallbacks[i]);
        FallbackAt(configuration, i);
        assert endpoints[..iter + i + 1] == endpoints[..iter + i] + [ToWpaEndpoint(fallbacks[i])];
      }
    }

    /** False where the source returns a status other than Succeeded. */
    method SetRadiusConfiguration(configuration: Configuration) returns (ok: bool)
      modifies hostapd
      ensures (hostapd.daemon, ok) == Perform(hostapd.verdicts, old(hostapd.daemon),
                                              ConfigurationPlan(configuration, "127.0.0.1"))
    {
      var endpointArray := ConvertEndpoints(configuration);
      var endpoints := endpointArray[..];
      ghost var v, d := hostapd.verdicts, hostapd.daemon;
      ghost var servers := EndpointsPlan(endpoints);
      ghost var eap := SetPropertyPlan("eap_server", "0", Defer);
      ghost var ip := SetPropertyPlan("own_ip_addr", hostapd.ownIpAddress, Defer);
      ghost var last := [Send(Command.Reload)];

      assert [] + servers == servers && servers + ReloadIf(Defer) == servers;
      assert servers + (eap + ip + last) == servers + eap + ip + last;
      assert servers + eap + (ip + last) == servers + eap + ip + last;
      Continue(v, d, [], servers, eap + ip + last);
      ok := hostapd.AddRadiusEndpoints(endpoints, Defer);
      if !ok {
        return;
      }
      Continue(v, d, servers, eap, ip + last);
      ok := hostapd.SetProperty("eap_server", "0", Defer);
      if !ok {
        return;
      }
      Continue(v, d, servers + eap, ip, last);
      ok := hostapd.SetProperty("own_ip_addr", hostapd.ownIpAddress, Defer);
      if !ok {
        return;
      }
      Continue(v, d, servers + eap + ip, last, []);
      ok := hostapd.Reload();
    }
  }

  // ---------- What the transaction sets ----------

  /** The settings of an endpoint. */
  function EndpointSettings(c: RadiusEndpointConfiguration): seq<Setting> {
    match c.endpointType
    case Authentication =>
      [Setting("auth_server_addr", c.address), Setting("auth_server_shared_secret", c.sharedSecret)]
      + if c.port.Some? then [Setting("auth_server_port", Decimal(c.port.value))] else []
    case Accounting =>
      [Setting("acct_server_addr", c.address), Setting("acct_server_shared_secret", c.sharedSecret)]
      + if c.port.Some? then [Setting("acct_server_port", Decimal(c.port.value))] else []
    case UnknownEndpoint => []
  }

  function EndpointsSettings(cs: seq<RadiusEndpointConfiguration>): seq<Setting> {
    if cs == [] then [] else EndpointsSettings(cs[..|cs| - 1]) + EndpointSettings(cs[|cs| - 1])
  }

  predicate AllSends(plan: seq<Action>) { forall i :: 0 <= i < |plan| ==> plan[i].Send? }

  predicate NoReload(plan: seq<Action>) { forall i :: 0 <= i < |plan| ==> plan[i] != Send(Reload) }

  lemma EndpointPlanMeaning(c: RadiusEndpointConfiguration)
    ensures NoReload(EndpointPlan(c))
    ensures AllSends(EndpointPlan(c)) <==> IsValidEndpoint(c)
    ensures IsValidEndpoint(c) ==> Settings(Commands(EndpointPlan(c))) == EndpointSettings(c)
  {
    if IsValidEndpoint(c) {
      var (address, port, secret) := GetRadiusEndpointPropertyNames(c.endpointType);
      var setAddress := SetPropertyPlan(address, c.address, Defer);
      var setSecret := SetPropertyPlan(secret, c.sharedSecret, Defer);
      PlanSettingsAppend(setAddress, setSecret);
      PropertyPlanSettings(address, c.address, Defer);
      PropertyPlanSettings(secret, c.sharedSecret, Defer);
      if c.port.Some? {
        var setPort := SetPropertyPlan(port, Decimal(c.port.value), Defer);
        PropertyPlanSettings(port, Decimal(c.port.value), Defer);
        PlanSettingsAppend(setAddress + setSecret, setPort);
        assert EndpointPlan(c) == setAddress + setSecret + setPort;
      } else {
        assert EndpointPlan(c) == setAddress + setSecret;
      }
    } else {
      assert EndpointPlan(c)[0] == Throw;
    }
  }

  lemma {:induction false} EndpointsPlanShape(cs: seq<RadiusEndpointConfiguration>)
    ensures NoReload(EndpointsPlan(cs))
    ensures AllSends(EndpointsPlan(cs)) <==> forall c :: c in cs ==> IsValidEndpoint(c)
  {
    if cs != [] {
      var n := |cs| - 1;
      EndpointsPlanShape(cs[..n]);
      EndpointPlanMeaning(cs[n]);
      AllSendsAppend(EndpointsPlan(cs[..n]), EndpointPlan(cs[n]));
      NoReloadAppend(EndpointsPlan(cs[..n]), EndpointPlan(cs[n]));
      assert forall c :: c in cs <==> c in cs[..n] || c == cs[n];
    }
  }

  lemma {:induction false} EndpointsPlanMeaning(cs: seq<RadiusEndpointConfiguration>)
    requires AllSends(EndpointsPlan(cs))
    ensures Settings(Commands(EndpointsPlan(cs))) == EndpointsSettings(cs)
  {
    if cs != [] {
      var n := |cs| - 1;
      AllSendsAppend(EndpointsPlan(cs[..n]), EndpointPlan(cs[n]));
      EndpointsPlanMeaning(cs[..n]);
      EndpointPlanMeaning(cs[n]);
      PlanSettingsAppend(EndpointsPlan(cs[..n]), EndpointPlan(cs[n]));
    }
  }

  lemma NoReloadAppend(a: seq<Action>, b: seq<Action>)
    requires NoReload(a) && NoReload(b)
    ensures NoReload(a + b)
  {
  }

  lemma AllSendsAppend(a: seq<Action>, b: seq<Action>)
    ensures AllSends(a + b) <==> AllSends(a) && AllSends(b)
  {
    if AllSends(a + b) {
      assert forall i :: 0 <= i < |a| ==> a[i] == (a + b)[i];
      assert forall i :: 0 <= i < |b| ==> b[i] == (a + b)[|a| + i];
    }
  }

  lemma AllAcceptedMeans(v: Verdicts, sent: nat, plan: seq<Action>)
    ensures AllAccepted(v, sent, plan) <==> AllSends(plan) && forall n :: sent <= n < sent + |plan| ==> n in v
  {
    if AllAccepted(v, sent, plan) {
      forall n | sent <= n < sent + |plan|
        ensures n in v
      {
        assert plan[n - sent].Send? && sent + (n - sent) in v;
      }
    }
  }

  lemma ServersValid(servers: seq<Server>)
    ensures (forall c :: c in ToWpaEndpoints(servers) ==> IsValidEndpoint(c))
            <==> forall s :: s in servers ==> IsValidEndpoint(ToWpaEndpoint(s))
  {
    var endpoints := ToWpaEndpoints(servers);
    assert forall i :: 0 <= i < |servers| ==> endpoints[i] in endpoints && servers[i] in servers;
  }

  lemma ConfigurationPlanShape(c: Configuration, ownIpAddress: string)
    ensures NoReload(ConfigurationSets(c, ownIpAddress))
    ensures AllSends(ConfigurationSets(c, ownIpAddress))
            <==> forall s :: s in Servers(c) ==> IsValidEndpoint(ToWpaEndpoint(s))
  {
    var servers := EndpointsPlan(ToWpaEndpoints(Servers(c)));
    var eap, ip := SetPropertyPlan("eap_server", "0", Defer), SetPropertyPlan("own_ip_addr", ownIpAddress, Defer);
    EndpointsPlanShape(ToWpaEndpoints(Servers(c)));
    ServersValid(Servers(c));
    NoReloadAppend(servers, eap);
    NoReloadAppend(servers + eap, ip);
    AllSendsAppend(servers, eap);
    AllSendsAppend(servers + eap, ip);
  }

  lemma ConfigurationIsTransaction(c: Configuration, ownIpAddress: string)
    ensures IsTransaction(ConfigurationPlan(c, ownIpAddress))
    ensures AllSends(ConfigurationPlan(c, ownIpAddress)) <==> AllSends(ConfigurationSets(c, ownIpAddress))
  {
    ConfigurationPlanShape(c, ownIpAddress);
    AllSendsAppend(ConfigurationSets(c, ownIpAddress), [Send(Reload)]);
  }

  /** The settings of a server, in terms of its own fields. */
  function ServerSettings(s: Server): seq<Setting> {
    match s.serverType
    case AuthenticationServer =>
      [Setting("auth_server_addr", s.address), Setting("auth_server_shared_secret", s.sharedSecret)]
      + if s.port.Some? then [Setting("auth_server_port", Decimal(s.port.value))] else []
    case AccountingServer =>
      [Setting("acct_server_addr", s.address), Setting("acct_server_shared_secret", s.sharedSecret)]
      + if s.port.Some? then [Setting("acct_server_port", Decimal(s.port.value))] else []
    case UnknownServer => []
  }

  function SettingsOfServers(servers: seq<Server>): seq<Setting> {
    if servers == [] then []
    else SettingsOfServers(servers[..|servers| - 1]) + ServerSettings(servers[|servers| - 1])
  }

  predicate IsAcceptable(s: Server) { s.serverType != UnknownServer && s.address != "" && s.sharedSecret != "" }

  predicate AreAcceptable(c: Configuration) {
    && IsAcceptable(c.authenticationServer)
    && (c.accountingServer.Some? ==> IsAcceptable(c.accountingServer.value))
    && forall s :: s in c.fallbackServers ==> IsAcceptable(s)
  }

  /** The settings of a configuration: those of the authentication server, of the accounting server if there is one,
      of the fallback servers in order, and two more. */
  function ConfigurationSettings(c: Configuration, ownIpAddress: string): seq<Setting> {
    ServerSettings(c.authenticationServer)
    + (if c.accountingServer.Some? then ServerSettings(c.accountingServer.value) else [])
    + SettingsOfServers(c.fallbackServers)
    + [Setting("eap_server", "0"), Setting("own_ip_addr", ownIpAddress)]
  }

  lemma ConversionKeepsFields(s: Server)
    ensures IsValidEndpoint(ToWpaEndpoint(s)) <==> IsAcceptable(s)
    ensures IsAcceptable(s) ==> EndpointSettings(ToWpaEndpoint(s)) == ServerSettings(s)
  {
  }

  lemma OneMoreServer(servers: seq<Server>, s: Server)
    ensures SettingsOfServers(servers + [s]) == SettingsOfServers(servers) + ServerSettings(s)
  {
    assert (servers + [s])[..|servers|] == servers;
  }

  lemma {:induction false} SettingsOfServersAppend(a: seq<Server>, b: seq<Server>)
    ensures SettingsOfServers(a + b) == SettingsOfServers(a) + SettingsOfServers(b)
    decreases |b|
  {
    if b == [] {
      assert a + b == a;
    } else {
      var n := |b| - 1;
      SettingsOfServersAppend(a, b[..n]);
      Associate(a, b[..n], [b[n]]);
      assert b[..n] + [b[n]] == b;
      OneMoreServer(a + b[..n], b[n]);
      Associate(SettingsOfServers(a), SettingsOfServers(b[..n]), ServerSettings(b[n]));
    }
  }

  predicate AreConverted(servers: seq<Server>, endpoints: seq<RadiusEndpointConfiguration>) {
    |endpoints| == |servers| && forall i :: 0 <= i < |servers| ==> endpoints[i] == ToWpaEndpoint(servers[i])
  }

  lemma {:induction false} ConvertedSettings(servers: seq<Server>, endpoints: seq<RadiusEndpointConfiguration>)
    requires AreConverted(servers, endpoints) && forall i :: 0 <= i < |servers| ==> IsAcceptable(servers[i])
    ensures EndpointsSettings(endpoints) == SettingsOfServers(servers)
  {
    if servers != [] {
      var n := |servers| - 1;
      ConvertedSettings(servers[..n], endpoints[..n]);
      ConversionKeepsFields(servers[n]);
      assert EndpointSettings(endpoints[n]) == ServerSettings(servers[n]);
    }
  }

  lemma AcceptableServers(c: Configuration)
    ensures AreAcceptable(c) <==> forall s :: s in Servers(c) ==> IsValidEndpoint(ToWpaEndpoint(s))
  {
    forall s: Server
      ensures IsValidEndpoint(ToWpaEndpoint(s)) <==> IsAcceptable(s)
    {
      ConversionKeepsFields(s);
    }
    var first, second := [c.authenticationServer], if c.accountingServer.Some? then [c.accountingServer.value] else [];
    assert c.authenticationServer in first;
    assert forall s :: s in Servers(c) <==> s in first || s in second || s in c.fallbackServers;
    assert c.accountingServer.Some? ==> c.accountingServer.value in second;
  }

  lemma OneServer(s: Server)
    ensures SettingsOfServers([s]) == ServerSettings(s)
  {
    assert [s][..0] == [];
  }

  lemma SettingsInOrder(c: Configuration)
    ensures SettingsOfServers(Servers(c))
         == ServerSettings(c.authenticationServer)
            + (if c.accountingServer.Some? then ServerSettings(c.accountingServer.value) else [])
            + SettingsOfServers(c.fallbackServers)
  {
    var first, second := [c.authenticationServer], if c.accountingServer.Some? then [c.accountingServer.value] else [];
    SettingsOfServersAppend(first + second, c.fallbackServers);
    SettingsOfServersAppend(first, second);
    OneServer(c.authenticationServer);
    if c.accountingServer.Some? {
      OneServer(c.accountingServer.value);
    }
  }

  lemma ConfigurationPlanSettings(c: Configuration, ownIpAddress: string)
    requires AllSends(EndpointsPlan(ToWpaEndpoints(Servers(c))))
    ensures Settings(Commands(ConfigurationSets(c, ownIpAddress)))
         == EndpointsSettings(ToWpaEndpoints(Servers(c))) + [Setting("eap_server", "0")]
            + [Setting("own_ip_addr", ownIpAddress)]
  {
    var servers := EndpointsPlan(ToWpaEndpoints(Servers(c)));
    var eap := SetPropertyPlan("eap_server", "0", Defer);
    var ip := SetPropertyPlan("own_ip_addr", ownIpAddress, Defer);
    EndpointsPlanMeaning(ToWpaEndpoints(Servers(c)));
    PlanSettingsAppend(servers + eap, ip);
    PlanSettingsAppend(servers, eap);
    PropertyPlanSettings("eap_server", "0", Defer);
    PropertyPlanSettings("own_ip_addr", ownIpAddress, Defer);
  }

  /** A plan of settings alone makes as many as it has steps. */
  lemma {:induction false} OneSettingPerStep(plan: seq<Action>)
    requires AllSends(plan) && NoReload(plan)
    ensures |Settings(Commands(plan))| == |plan|
  {
    if plan != [] {
      assert plan[0].Send? && plan[0] != Send(Reload);
      assert AllSends(plan[1..]) by { assert forall i :: 0 <= i < |plan| - 1 ==> plan[1..][i] == plan[i + 1]; }
      assert NoReload(plan[1..]) by { assert forall i :: 0 <= i < |plan| - 1 ==> plan[1..][i] == plan[i + 1]; }
      OneSettingPerStep(plan[1..]);
      SettingsCons(plan[0].command, Commands(plan[1..]));
    }
  }

  predicate AreEndpointsValid(cs: seq<RadiusEndpointConfiguration>) {
    forall c :: c in cs ==> c.endpointType != UnknownEndpoint && c.address != "" && c.sharedSecret != ""
  }

  /** The endpoints alone, without a reload. */
  lemma EndpointsStaged(v: Verdicts, d: Daemon, cs: seq<RadiusEndpointConfiguration>)
    ensures var (d', ok) := Perform(v, d, EndpointsPlan(cs));
            && (ok <==> AreEndpointsValid(cs) && AcceptsNext(v, |d.sent|, |EndpointsSettings(cs)|))
            && (ok ==> |d'.sent| == |d.sent| + |EndpointsSettings(cs)|)
            && (ok ==> d'.staged == d.staged + EndpointsSettings(cs))
            && d'.active == d.active
  {
    var plan := EndpointsPlan(cs);
    EndpointsPlanShape(cs);
    ActiveNeedsReload(v, d, plan);
    PlanOutcome(v, d, plan);
    if AllSends(plan) {
      EndpointsPlanMeaning(cs);
      OneSettingPerStep(plan);
      SentBy(v, d, plan);
    }
  }

  /** Any plan succeeds exactly when it is all commands and all are accepted; then its settings are staged. */
  lemma PlanOutcome(v: Verdicts, d: Daemon, plan: seq<Action>)
    ensures var (d', ok) := Perform(v, d, plan);
            && (ok <==> AllSends(plan) && AcceptsNext(v, |d.sent|, |plan|))
            && (ok ==> d'.staged == d.staged + Settings(Commands(plan)))
  {
    SucceedsExactly(v, d, plan);
    AllAcceptedMeans(v, |d.sent|, plan);
  }

  /** AddRadiusEndpoints with Defer succeeds exactly when every endpoint has a known type, an address and a secret and
      every command is accepted; then their settings are staged, in order. The active configuration does not move. */
  lemma EndpointsDeferred(v: Verdicts, d: Daemon, cs: seq<RadiusEndpointConfiguration>)
    ensures var (d', ok) := Perform(v, d, RadiusEndpointsPlan(cs, Defer));
            && (ok <==> AreEndpointsValid(cs) && AcceptsNext(v, |d.sent|, |EndpointsSettings(cs)|))
            && (ok ==> d'.staged == d.staged + EndpointsSettings(cs))
            && d'.active == d.active
  {
    EndpointsStaged(v, d, cs);
    assert RadiusEndpointsPlan(cs, Defer) == EndpointsPlan(cs);
  }

  /** With Now there is one command more, and then what is staged is in force. */
  lemma EndpointsInForce(v: Verdicts, d: Daemon, cs: seq<RadiusEndpointConfiguration>)
    ensures var (d', ok) := Perform(v, d, RadiusEndpointsPlan(cs, Now));
            && (ok <==> AreEndpointsValid(cs) && AcceptsNext(v, |d.sent|, |EndpointsSettings(cs)| + 1))
            && d'.active == if ok then d.staged + EndpointsSettings(cs) else d.active
  {
    EndpointsStaged(v, d, cs);
    ThenReload(v, d, EndpointsPlan(cs), AreEndpointsValid(cs), EndpointsSettings(cs));
  }

  /** A plan of known outcome, and then a reload. */
  lemma ThenReload(v: Verdicts, d: Daemon, plan: seq<Action>, isValid: bool, settings: seq<Setting>)
    requires var (d1, ok1) := Perform(v, d, plan);
             && (ok1 <==> isValid && AcceptsNext(v, |d.sent|, |settings|))
             && (ok1 ==> |d1.sent| == |d.sent| + |settings| && d1.staged == d.staged + settings)
             && d1.active == d.active
    ensures var (d', ok) := Perform(v, d, plan + [Send(Reload)]);
            && (ok <==> isValid && AcceptsNext(v, |d.sent|, |settings| + 1))
            && (ok ==> d'.staged == d.staged + settings)
            && d'.active == if ok then d'.staged else d.active
  {
    PerformAppend(v, d, plan, [Send(Reload)]);
    PerformOne(v, Perform(v, d, plan).0, Reload);
    AcceptsOneMore(v, |d.sent|, |settings|);
  }

  lemma AcceptsOneMore(v: Verdicts, sent: nat, count: nat)
    ensures AcceptsNext(v, sent, count + 1) <==> AcceptsNext(v, sent, count) && sent + count in v
  {
  }

  lemma {:induction false} SentBy(v: Verdicts, d: Daemon, plan: seq<Action>)
    ensures Perform(v, d, plan).1 ==> |Perform(v, d, plan).0.sent| == |d.sent| + |plan|
    decreases |plan|
  {
    if plan != [] && plan[0].Send? {
      SentBy(v, Exec(v, d, plan[0].command), plan[1..]);
    }
  }

  /** What a plan for acceptable servers sets, and how long it is. */
  lemma AcceptablePlan(c: Configuration, ownIpAddress: string)
    requires AreAcceptable(c)
    ensures AllSends(ConfigurationSets(c, ownIpAddress))
    ensures |ConfigurationSets(c, ownIpAddress)| == |ConfigurationSettings(c, ownIpAddress)|
    ensures Settings(Commands(ConfigurationSets(c, ownIpAddress))) == ConfigurationSettings(c, ownIpAddress)
  {
    AcceptableServers(c);
    ServersAcceptable(c);
    ServersValid(Servers(c));
    EndpointsPlanShape(ToWpaEndpoints(Servers(c)));
    ConfigurationPlanShape(c, ownIpAddress);
    AcceptableSettings(c, ownIpAddress);
    OneSettingPerStep(ConfigurationSets(c, ownIpAddress));
  }

  lemma AcceptableSettings(c: Configuration, ownIpAddress: string)
    requires AreAcceptable(c) && AllSends(EndpointsPlan(ToWpaEndpoints(Servers(c))))
    ensures Settings(Commands(ConfigurationSets(c, ownIpAddress))) == ConfigurationSettings(c, ownIpAddress)
  {
    SettingsInOrder(c);
    ServersAcceptable(c);
    ConvertedSettings(Servers(c), ToWpaEndpoints(Servers(c)));
    ConfigurationPlanSettings(c, ownIpAddress);
    Associate(SettingsOfServers(Servers(c)), [Setting("eap_server", "0")], [Setting("own_ip_addr", ownIpAddress)]);
  }

  lemma ServersAcceptable(c: Configuration)
    requires AreAcceptable(c)
    ensures forall s :: s in Servers(c) ==> IsAcceptable(s)
  {
  }

  /** SetRadiusConfiguration succeeds exactly when every server it names has a known type, an address and a secret and
      the daemon accepts every command; then the settings of the servers, in order, and the two final ones are
      active on top of what was staged. Otherwise the active configuration is what it was. */
  lemma RadiusTransaction(v: Verdicts, d: Daemon, c: Configuration, ownIpAddress: string)
    ensures var (d', ok) := Perform(v, d, ConfigurationPlan(c, ownIpAddress));
            var settings := ConfigurationSettings(c, ownIpAddress);
            && (ok <==> AreAcceptable(c) && forall n :: |d.sent| <= n <= |d.sent| + |settings| ==> n in v)
            && (ok ==> d'.active == d.staged + settings)
            && (!ok ==> d'.active == d.active)
  {
    var plan := ConfigurationPlan(c, ownIpAddress);
    ConfigurationPlanShape(c, ownIpAddress);
    ConfigurationIsTransaction(c, ownIpAddress);
    TransactionSafety(v, d, plan);
    AllAcceptedMeans(v, |d.sent|, plan);
    AcceptableServers(c);
    if AreAcceptable(c) {
      AcceptablePlan(c, ownIpAddress);
      if Perform(v, d, plan).1 {
        EndsWithReload(v, d, ConfigurationSets(c, ownIpAddress));
      }
    }
  }
}
