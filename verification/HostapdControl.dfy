/** The Hostapd class: every operation performs its plan, in loops that stop at the first exception. */
module HostapdControl {
  import opened Wrappers
  import opened Text
  import opened Daemon
  import opened BitMask
  import opened HostapdProtocol
  import opened PropertyCodecs
  import opened HostapdPlans

  /** The texts, each followed by a space. */
  function Spaced(ks: seq<WpaKeyManagement>): string { if ks == [] then "" else KeyManagementText(ks) + " " }

  lemma SpacedStep(ks: seq<WpaKeyManagement>, i: nat)
    requires i < |ks| && AllValidKeyManagement(ks[..i]) && IsValidKeyManagement(ks[i])
    ensures AllValidKeyManagement(ks[..i + 1])
    ensures Spaced(ks[..i + 1]) == Spaced(ks[..i]) + WpaKeyManagementPropertyValue(ks[i]) + " "
  {
    assert ks[..i + 1] == ks[..i] + [ks[i]];
    KeyManagementTextAppend(ks[..i], ks[i]);
  }

  /** The string building loop of SetKeyManagement; not valid when it meets an invalid value. */
  method BuildKeyManagementText(keyManagements: seq<WpaKeyManagement>) returns (valid: bool, text: string)
    requires keyManagements != []
    ensures valid <==> AllValidKeyManagement(keyManagements)
    ensures valid ==> text == KeyManagementText(keyManagements)
  {
    var builder := "";
    for i := 0 to |keyManagements|
      invariant AllValidKeyManagement(keyManagements[..i])
      invariant builder == Spaced(keyManagements[..i])
    {
      var value := WpaKeyManagementPropertyValue(keyManagements[i]);
      if value == INVALID_VALUE {
        assert keyManagements[i] in keyManagements && !IsValidKeyManagement(keyManagements[i]);
        return false, "";
      }
      builder := builder + value + " ";
      SpacedStep(keyManagements, i);
    }
    assert keyManagements[..|keyManagements|] == keyManagements;
    assert builder == KeyManagementText(keyManagements) + " ";
    return true, builder[..|builder| - 1];
  }

  lemma CipherTextStep(ciphers: seq<WpaCipher>, i: nat)
    requires i < |ciphers| && AllValidCiphers(ciphers[..i]) && IsValidCipher(ciphers[i])
    ensures AllValidCiphers(ciphers[..i + 1])
    ensures CipherText(ciphers[..i + 1]) == CipherText(ciphers[..i]) + WpaCipherPropertyValue(ciphers[i]) + " "
  {
    assert ciphers[..i + 1] == ciphers[..i] + [ciphers[i]];
    CipherTextAppend(ciphers[..i], ciphers[i]);
  }

  /** The string building loop of SetPairwiseCipherSuites. */
  method BuildCipherText(ciphers: seq<WpaCipher>) returns (valid: bool, text: string)
    ensures valid <==> AllValidCiphers(ciphers)
    ensures valid ==> text == CipherText(ciphers)
  {
    text := "";
    for i := 0 to |ciphers|
      invariant AllValidCiphers(ciphers[..i]) && text == CipherText(ciphers[..i])
    {
      var value := WpaCipherPropertyValue(ciphers[i]);
      if value == INVALID_VALUE {
        assert ciphers[i] in ciphers && !IsValidCipher(ciphers[i]);
        return false, "";
      }
      text := text + value + " ";
      CipherTextStep(ciphers, i);
    }
    assert ciphers[..|ciphers|] == ciphers;
    valid := true;
  }

  /** The OR loop of SetAuthenticationAlgorithms and SetWpaSecurityProtocols. */
  method CombineMask(values: seq<nat>, mask: nat) returns (valid: bool, combined: nat)
    ensures valid <==> AllWithin(values, mask)
    ensures valid ==> combined == OrAll(values)
  {
    combined := 0;
    for i := 0 to |values|
      invariant combined == OrAll(values[..i]) && AllWithin(values[..i], mask)
    {
      assert values[..i + 1] == values[..i] + [values[i]];
      if AndNot(values[i], mask) != 0 {
        assert values[i] in values && !Within(values[i], mask);
        return false, 0;
      }
      combined := Or(combined, values[i]);
    }
    assert values[..|values|] == values;
    OrAllMasked(values, mask);
    return true, And(combined, mask);
  }

  /** Methods return false where the source throws a HostapdException. */
  class Hostapd {
    const verdicts: Verdicts
    const ownIpAddress: string := "127.0.0.1"
    /** The daemon at the other end of the control socket. */
    var daemon: Daemon

    constructor (verdicts: Verdicts, daemon: Daemon)
      ensures this.verdicts == verdicts && this.daemon == daemon
    {
      this.verdicts := verdicts;
      this.daemon := daemon;
    }

    /** WpaController::SendCommand, reduced to whether the response is OK. */
    method SendCommand(c: Command) returns (ok: bool)
      modifies this
      ensures daemon == Exec(verdicts, old(daemon), c) && ok == (|old(daemon).sent| in verdicts)
    {
      ok := |daemon.sent| in verdicts;
      daemon := Exec(verdicts, daemon, c);
    }

    method Reload() returns (ok: bool)
      modifies this
      ensures (daemon, ok) == Perform(verdicts, old(daemon), [Send(Command.Reload)])
    {
      ok := SendCommand(Command.Reload);
    }

    method SetProperty(name: string, value: string, e: EnforceConfigurationChange) returns (ok: bool)
      modifies this
      ensures (daemon, ok) == Perform(verdicts, old(daemon), SetPropertyPlan(name, value, e))
    {
      PerformOne(verdicts, daemon, Set(name, value));
      PerformAppend(verdicts, daemon, [Send(Set(name, value))], ReloadIf(e));
      ok := SendCommand(Set(name, value));
      if !ok || e.Defer? {
        return;
      }
      ok := Reload();
    }

    method SetAuthenticationAlgorithms(algorithms: seq<WpaAuthenticationAlgorithm>, e: EnforceConfigurationChange)
      returns (ok: bool)
      modifies this
      ensures (daemon, ok) == Perform(verdicts, old(daemon),
          MaskPlan("auth_algs", AlgorithmValues(algorithms), WPA_AUTHENTICATION_ALGORITHM_MASK, e))
    {
      if algorithms == [] {
        return false;
      }
      var valid, algorithmsValue := CombineMask(AlgorithmValues(algorithms), WPA_AUTHENTICATION_ALGORITHM_MASK);
      if !valid {
        return false;
      }
      ok := SetProperty("auth_algs", Decimal(algorithmsValue), e);
    }

    method SetWpaSecurityProtocols(protocols: seq<WpaSecurityProtocol>, e: EnforceConfigurationChange)
      returns (ok: bool)
      modifies this
      ensures (daemon, ok) == Perform(verdicts, old(daemon),
          MaskPlan("wpa", ProtocolValues(protocols), WPA_SECURITY_PROTOCOL_MASK, e))
    {
      if protocols == [] {
        return false;
      }
      var valid, protocolsToSet := CombineMask(ProtocolValues(protocols), WPA_SECURITY_PROTOCOL_MASK);
      if !valid {
        return false;
      }
      ok := SetProperty("wpa", Decimal(protocolsToSet), e);
    }

    /** `nasId` is the random identifier generated when one is needed. */
    method SetKeyManagement(keyManagements: seq<WpaKeyManagement>, nasId: string, e: EnforceConfigurationChange)
      returns (ok: bool)
      modifies this
      ensures (daemon, ok) == Perform(verdicts, old(daemon), KeyManagementPlan(keyManagements, nasId, e))
    {
      if keyManagements == [] {
        return false;
      }
      var valid, text := BuildKeyManagementText(keyManagements);
      if !valid {
        return false;
      }
      ok := SendKeyManagement(keyManagements, nasId, text, e);
    }

    /** The commands of SetKeyManagement, once the text is built. */
    method SendKeyManagement(keyManagements: seq<WpaKeyManagement>, nasId: string, text: string,
                             e: EnforceConfigurationChange)
      returns (ok: bool)
      modifies this
      ensures (daemon, ok) == Perform(verdicts, old(daemon),
          NasPlan(keyManagements, nasId) + Ieee8021xPlan(keyManagements) + SetPropertyPlan("wpa_key_mgmt", text, e))
    {
      ghost var d := daemon;
      ghost var last := SetPropertyPlan("wpa_key_mgmt", text, e);
      ghost var nas, dot1x := NasPlan(keyManagements, nasId), Ieee8021xPlan(keyManagements);
      PerformAppend(verdicts, d, nas, dot1x);
      PerformAppend(verdicts, d, nas + dot1x, last);
      ok := PrepareFastTransition(keyManagements, nasId);
      if !ok {
        return;
      }
      ok := PrepareIeee8021x(keyManagements);
      if !ok {
        return;
      }
      ok := SetProperty("wpa_key_mgmt", text, e);
    }

    /** For fast transition the network access server identifier is set. */
    method PrepareFastTransition(keyManagements: seq<WpaKeyManagement>, nasId: string) returns (ok: bool)
      modifies this
      ensures (daemon, ok) == Perform(verdicts, old(daemon), NasPlan(keyManagements, nasId))
    {
      ok := true;
      if exists k :: k in keyManagements && IsKeyManagementFastTransition(k) {
        ok := SetNetworkAccessServerId(nasId);
      }
    }

    /** The enforcement is the default one of SetProperty, which is Now. */
    method SetNetworkAccessServerId(networkAccessServerId: string) returns (ok: bool)
      modifies this
      ensures (daemon, ok)
           == Perform(verdicts, old(daemon), SetPropertyPlan("nas_identifier", networkAccessServerId, Now))
    {
      ok := SetProperty("nas_identifier", networkAccessServerId, Now);
    }

    /** For key management over 802.1X its flag is set. */
    method PrepareIeee8021x(keyManagements: seq<WpaKeyManagement>) returns (ok: bool)
      modifies this
      ensures (daemon, ok) == Perform(verdicts, old(daemon), Ieee8021xPlan(keyManagements))
    {
      ok := true;
      if exists k :: k in keyManagements && IsKeyManagementIeee8021x(k) {
        ok := SetProperty("ieee8021x", "1", Defer);
      }
    }

    /** `entries` are the entries of the map, in the order of its iteration. */
    method SetPairwiseCipherSuites(entries: seq<ProtocolCiphers>, e: EnforceConfigurationChange) returns (ok: bool)
      modifies this
      ensures (daemon, ok) == Perform(verdicts, old(daemon), PairwiseCiphersPlan(entries, e))
    {
      if entries == [] {
        return false;
      }
      ok := true;
      for i := 0 to |entries|
        invariant ok && (daemon, true) == Perform(verdicts, old(daemon), EachProtocolPlan(entries[..i], e))
      {
        ghost var rest := EachProtocolRest(entries, i + 1, e);
        assert entries[..i + 1][..i] == entries[..i];
        Continue(verdicts, old(daemon), EachProtocolPlan(entries[..i], e), ProtocolCiphersPlan(entries[i], e), rest);
        ok := SetProtocolCiphers(entries[i], e);
        if !ok {
          return;
        }
      }
      assert entries[..|entries|] == entries;
    }

    /** The body of the loop above. */
    method SetProtocolCiphers(entry: ProtocolCiphers, e: EnforceConfigurationChange) returns (ok: bool)
      modifies this
      ensures (daemon, ok) == Perform(verdicts, old(daemon), ProtocolCiphersPlan(entry, e))
    {
      var ciphers := entry.ciphers;
      if ciphers == [] {
        return false;
      }
      var valid, text := BuildCipherText(ciphers);
      if !valid {
        return false;
      }
      var name := WpaCipherPropertyName(entry.protocol);
      if name == PROPERTY_NAME_INVALID {
        return false;
      }
      ok := SetProperty(name, text, e);
    }

    method AddSaePassword(password: SaePassword, e: EnforceConfigurationChange) returns (ok: bool)
      modifies this
      ensures (daemon, ok)
           == Perform(verdicts, old(daemon), SetPropertyPlan("sae_password", SaePasswordText(password), e))
    {
      var builder := password.credential;
      if password.passwordId.Some? {
        builder := builder + ("|" + "id=" + password.passwordId.value);
      }
      assert builder == password.credential + OptionalText("id=", password.passwordId);
      if password.peerMacAddress.Some? {
        builder := builder + ("|" + "mac=" + password.peerMacAddress.value);
      }
      assert builder == password.credential + OptionalText("id=", password.passwordId)
                        + OptionalText("mac=", password.peerMacAddress);
      if password.vlanId.Some? {
        builder := builder + ("|" + "vlanid=" + SignedDecimal(password.vlanId.value));
        assert VlanText(password.vlanId) == Some(SignedDecimal(password.vlanId.value));
      }
      assert builder == SaePasswordText(password);
      ok := SetProperty("sae_password", builder, e);
    }

    method SetSaePasswords(passwords: seq<SaePassword>, e: EnforceConfigurationChange) returns (ok: bool)
      modifies this
      ensures (daemon, ok) == Perform(verdicts, old(daemon), SaePasswordsPlan(passwords, e))
    {
      SaeFirst(verdicts, daemon, passwords, e);
      ok := SetProperty("sae_password", "", Defer);
      if !ok {
        return;
      }
      for i := 0 to |passwords|
        invariant ok && (daemon, true) == Perform(verdicts, old(daemon), SaeSets(passwords[..i]))
      {
        SaeStep(verdicts, old(daemon), passwords, i, e);
        ok := AddSaePassword(passwords[i], Defer);
        if !ok {
          return;
        }
      }
      assert passwords[..|passwords|] == passwords;
      Continue(verdicts, old(daemon), SaeSets(passwords), ReloadIf(e), []);
      if e.Now? {
        ok := Reload();
      }
    }

    method AddRadiusEndpoints(endpoints: seq<RadiusEndpointConfiguration>, e: EnforceConfigurationChange)
      returns (ok: bool)
      modifies this
      ensures (daemon, ok) == Perform(verdicts, old(daemon), RadiusEndpointsPlan(endpoints, e))
    {
      ok := true;
      for i := 0 to |endpoints|
        invariant ok && (daemon, true) == Perform(verdicts, old(daemon), EndpointsPlan(endpoints[..i]))
      {
        ghost var rest := EndpointsRest(endpoints, i + 1);
        assert endpoints[..i + 1][..i] == endpoints[..i];
        Continue(verdicts, old(daemon), EndpointsPlan(endpoints[..i]), EndpointPlan(endpoints[i]), rest + ReloadIf(e));
        assert EndpointsPlan(endpoints[..i + 1]) + (rest + ReloadIf(e)) == RadiusEndpointsPlan(endpoints, e);
        ok := AddRadiusEndpoint(endpoints[i]);
        if !ok {
          return;
        }
      }
      assert endpoints[..|endpoints|] == endpoints;
      Continue(verdicts, old(daemon), EndpointsPlan(endpoints), ReloadIf(e), []);
      if e.Now? {
        ok := Reload();
      }
    }

    /** The body of the loop above. */
    method AddRadiusEndpoint(endpoint: RadiusEndpointConfiguration) returns (ok: bool)
      modifies this
      ensures (daemon, ok) == Perform(verdicts, old(daemon), EndpointPlan(endpoint))
    {
      if endpoint.endpointType == UnknownEndpoint {
        return false;
      }
      if endpoint.address == "" {
        return false;
      }
      if endpoint.sharedSecret == "" {
        return false;
      }
      var (address, port, secret) := GetRadiusEndpointPropertyNames(endpoint.endpointType);
      ghost var d := daemon;
      ghost var setAddress := [Send(Set(address, endpoint.address))];
      ghost var setSecret := [Send(Set(secret, endpoint.sharedSecret))];
      ghost var setPort := if endpoint.port.Some? then [Send(Set(port, Decimal(endpoint.port.value)))] else [];
      Continue(verdicts, d, [], setAddress, setSecret + setPort);
      assert [] + setAddress == setAddress && setAddress + (setSecret + setPort) == setAddress + setSecret + setPort;
      ok := SetProperty(address, endpoint.address, Defer);
      if !ok {
        return;
      }
      Continue(verdicts, d, setAddress, setSecret, setPort);
      ok := SetProperty(secret, endpoint.sharedSecret, Defer);
      if !ok {
        return;
      }
      Continue(verdicts, d, setAddress + setSecret, setPort, []);
      if endpoint.port.Some? {
        ok := SetProperty(port, Decimal(endpoint.port.value), Defer);
      }
    }
  }
}
