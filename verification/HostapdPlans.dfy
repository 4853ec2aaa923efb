/** What each operation on hostapd sends: its plan, as a list of steps. */
module HostapdPlans {
  import opened Text
  import opened Daemon
  import opened Sequences
  import opened BitMask
  import opened HostapdProtocol
  import opened PropertyCodecs

  function ReloadIf(e: EnforceConfigurationChange): seq<Action> { if e.Now? then [Send(Reload)] else [] }

  function SetPropertyPlan(name: string, value: string, e: EnforceConfigurationChange): seq<Action> {
    [Send(Set(name, value))] + ReloadIf(e)
  }

  // ---------- SAE passwords: clear all, then add one by one ----------

  function SaeSets(passwords: seq<SaePassword>): seq<Action> {
    if passwords == [] then [Send(Set("sae_password", ""))]
    else
      var n := |passwords| - 1;
      SaeSets(passwords[..n]) + [Send(Set("sae_password", SaePasswordText(passwords[n])))]
  }

  function SaePasswordsPlan(passwords: seq<SaePassword>, e: EnforceConfigurationChange): seq<Action> {
    SaeSets(passwords) + ReloadIf(e)
  }

  // ---------- RADIUS endpoints: an invalid one throws when its turn comes ----------

  predicate IsValidEndpoint(c: RadiusEndpointConfiguration) {
    c.endpointType != UnknownEndpoint && c.address != "" && c.sharedSecret != ""
  }

  function EndpointPlan(c: RadiusEndpointConfiguration): seq<Action> {
    if !IsValidEndpoint(c) then [Throw]
    else
      var (address, port, secret) := GetRadiusEndpointPropertyNames(c.endpointType);
      [Send(Set(address, c.address))] + [Send(Set(secret, c.sharedSecret))]
      + if c.port.Some? then [Send(Set(port, Decimal(c.port.value)))] else []
  }

  function EndpointsPlan(cs: seq<RadiusEndpointConfiguration>): seq<Action> {
    if cs == [] then [] else EndpointsPlan(cs[..|cs| - 1]) + EndpointPlan(cs[|cs| - 1])
  }

  function RadiusEndpointsPlan(cs: seq<RadiusEndpointConfiguration>, e: EnforceConfigurationChange): seq<Action> {
    EndpointsPlan(cs) + ReloadIf(e)
  }

  // ---------- Bit masks ----------

  function MaskPlan(name: string, values: seq<nat>, mask: nat, e: EnforceConfigurationChange): seq<Action> {
    if values == [] || !AllWithin(values, mask) then [Throw]
    else SetPropertyPlan(name, Decimal(OrAll(values)), e)
  }

  function AlgorithmValues(algorithms: seq<WpaAuthenticationAlgorithm>): (values: seq<nat>)
    ensures |values| == |algorithms|
    ensures forall i :: 0 <= i < |values| ==> values[i] == WpaAuthenticationAlgorithmPropertyValue(algorithms[i])
  {
    seq(|algorithms|, i requires 0 <= i < |algorithms| => WpaAuthenticationAlgorithmPropertyValue(algorithms[i]))
  }

  function ProtocolValues(protocols: seq<WpaSecurityProtocol>): (values: seq<nat>)
    ensures |values| == |protocols|
    ensures forall i :: 0 <= i < |values| ==> values[i] == WpaSecurityProtocolPropertyValue(protocols[i])
  {
    seq(|protocols|, i requires 0 <= i < |protocols| => WpaSecurityProtocolPropertyValue(protocols[i]))
  }

  // ---------- Key management ----------

  predicate AnyFastTransition(ks: seq<WpaKeyManagement>) { exists k :: k in ks && IsKeyManagementFastTransition(k) }

  predicate AnyIeee8021x(ks: seq<WpaKeyManagement>) { exists k :: k in ks && IsKeyManagementIeee8021x(k) }

  predicate AllValidKeyManagement(ks: seq<WpaKeyManagement>) { forall k :: k in ks ==> IsValidKeyManagement(k) }

  /** The network access server identifier is set with the default enforcement, which is Now. */
  function NasPlan(ks: seq<WpaKeyManagement>, nasId: string): seq<Action> {
    if AnyFastTransition(ks) then SetPropertyPlan("nas_identifier", nasId, Now) else []
  }

  function Ieee8021xPlan(ks: seq<WpaKeyManagement>): seq<Action> {
    if AnyIeee8021x(ks) then SetPropertyPlan("ieee8021x", "1", Defer) else []
  }

  function KeyManagementPlan(ks: seq<WpaKeyManagement>, nasId: string, e: EnforceConfigurationChange): seq<Action> {
    if ks == [] || !AllValidKeyManagement(ks) then [Throw]
    else NasPlan(ks, nasId) + Ieee8021xPlan(ks) + SetPropertyPlan("wpa_key_mgmt", KeyManagementText(ks), e)
  }

  // ---------- Pairwise ciphers ----------

  datatype ProtocolCiphers = ProtocolCiphers(protocol: WpaSecurityProtocol, ciphers: seq<WpaCipher>)

  predicate AllValidCiphers(cs: seq<WpaCipher>) { forall c :: c in cs ==> IsValidCipher(c) }

  function ProtocolCiphersPlan(p: ProtocolCiphers, e: EnforceConfigurationChange): seq<Action> {
    if p.ciphers == [] || !AllValidCiphers(p.ciphers) || WpaCipherPropertyName(p.protocol) == PROPERTY_NAME_INVALID
    then [Throw]
    else SetPropertyPlan(WpaCipherPropertyName(p.protocol), CipherText(p.ciphers), e)
  }

  function EachProtocolPlan(ps: seq<ProtocolCiphers>, e: EnforceConfigurationChange): seq<Action> {
    if ps == [] then [] else EachProtocolPlan(ps[..|ps| - 1], e) + ProtocolCiphersPlan(ps[|ps| - 1], e)
  }

  /** `ps` lists the entries of the map in the order in which they are visited. */
  function PairwiseCiphersPlan(ps: seq<ProtocolCiphers>, e: EnforceConfigurationChange): seq<Action> {
    if ps == [] then [Throw] else EachProtocolPlan(ps, e)
  }

  // ---------- Taking a plan step by step ----------

  /** The part of a plan that follows its first `i` list elements. */
  function SaeRest(passwords: seq<SaePassword>, i: nat): (rest: seq<Action>)
    requires i <= |passwords|
    ensures SaeSets(passwords) == SaeSets(passwords[..i]) + rest
  {
    if i == |passwords| then
      assert passwords[..i] == passwords;
      []
    else
      var n := |passwords| - 1;
      assert passwords[..n][..i] == passwords[..i];
      var rest := SaeRest(passwords[..n], i);
      Associate(SaeSets(passwords[..i]), rest, [Send(Set("sae_password", SaePasswordText(passwords[n])))]);
      rest + [Send(Set("sae_password", SaePasswordText(passwords[n])))]
  }

  lemma SaeFirst(v: Verdicts, d: Daemon, passwords: seq<SaePassword>, e: EnforceConfigurationChange)
    ensures Perform(v, d, SaeSets([])) == Perform(v, d, SetPropertyPlan("sae_password", "", Defer))
    ensures !Perform(v, d, SaeSets([])).1 ==>
              Perform(v, d, SaePasswordsPlan(passwords, e)) == Perform(v, d, SaeSets([]))
  {
    var rest := SaeRest(passwords, 0) + ReloadIf(e);
    assert passwords[..0] == [];
    PerformAppend(v, d, SaeSets([]), rest);
    assert SaeSets([]) + rest == SaePasswordsPlan(passwords, e);
    assert SetPropertyPlan("sae_password", "", Defer) == SaeSets([]);
  }

  lemma SaeNext(passwords: seq<SaePassword>, i: nat)
    requires i < |passwords|
    ensures SaeSets(passwords[..i + 1])
         == SaeSets(passwords[..i]) + SetPropertyPlan("sae_password", SaePasswordText(passwords[i]), Defer)
  {
    assert passwords[..i + 1][..i] == passwords[..i];
  }

  lemma SaeWhole(passwords: seq<SaePassword>, i: nat, e: EnforceConfigurationChange)
    requires i <= |passwords|
    ensures SaePasswordsPlan(passwords, e) == SaeSets(passwords[..i]) + (SaeRest(passwords, i) + ReloadIf(e))
  {
    Associate(SaeSets(passwords[..i]), SaeRest(passwords, i), ReloadIf(e));
  }

  lemma SaeStep(v: Verdicts, d: Daemon, passwords: seq<SaePassword>, i: nat, e: EnforceConfigurationChange)
    requires i < |passwords| && Perform(v, d, SaeSets(passwords[..i])).1
    ensures Perform(v, d, SaeSets(passwords[..i + 1]))
         == Perform(v, Perform(v, d, SaeSets(passwords[..i])).0,
                    SetPropertyPlan("sae_password", SaePasswordText(passwords[i]), Defer))
    ensures !Perform(v, d, SaeSets(passwords[..i + 1])).1 ==>
              Perform(v, d, SaePasswordsPlan(passwords, e)) == Perform(v, d, SaeSets(passwords[..i + 1]))
  {
    var next := SetPropertyPlan("sae_password", SaePasswordText(passwords[i]), Defer);
    SaeNext(passwords, i);
    SaeWhole(passwords, i + 1, e);
    Continue(v, d, SaeSets(passwords[..i]), next, SaeRest(passwords, i + 1) + ReloadIf(e));
  }

  function EndpointsRest(cs: seq<RadiusEndpointConfiguration>, i: nat): (rest: seq<Action>)
    requires i <= |cs|
    ensures EndpointsPlan(cs) == EndpointsPlan(cs[..i]) + rest
  {
    if i == |cs| then
      assert cs[..i] == cs;
      []
    else
      var n := |cs| - 1;
      assert cs[..n][..i] == cs[..i];
      var rest := EndpointsRest(cs[..n], i);
      Associate(EndpointsPlan(cs[..i]), rest, EndpointPlan(cs[n]));
      rest + EndpointPlan(cs[n])
  }

  function EachProtocolRest(ps: seq<ProtocolCiphers>, i: nat, e: EnforceConfigurationChange): (rest: seq<Action>)
    requires i <= |ps|
    ensures EachProtocolPlan(ps, e) == EachProtocolPlan(ps[..i], e) + rest
  {
    if i == |ps| then
      assert ps[..i] == ps;
      []
    else
      var n := |ps| - 1;
      assert ps[..n][..i] == ps[..i];
      var rest := EachProtocolRest(ps[..n], i, e);
      Associate(EachProtocolPlan(ps[..i], e), rest, ProtocolCiphersPlan(ps[n], e));
      rest + ProtocolCiphersPlan(ps[n], e)
  }

  lemma PerformOne(v: Verdicts, d: Daemon, c: Command)
    ensures Perform(v, d, [Send(c)]) == (Exec(v, d, c), |d.sent| in v)
  {
  }

  lemma PerformThrow(v: Verdicts, d: Daemon)
    ensures Perform(v, d, [Throw]) == (d, false)
  {
  }

  /** After `done` succeeded, `next` decides: a failure there is the failure of any plan that goes on. */
  lemma Continue(v: Verdicts, d: Daemon, done: seq<Action>, next: seq<Action>, rest: seq<Action>)
    requires Perform(v, d, done).1
    ensures Perform(v, d, done + next) == Perform(v, Perform(v, d, done).0, next)
    ensures !Perform(v, d, done + next).1 ==> Perform(v, d, done + next + rest) == Perform(v, d, done + next)
  {
    PerformAppend(v, d, done, next);
    PerformAppend(v, d, done + next, rest);
  }
}
