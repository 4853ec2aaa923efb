/** NetRemoteService: the operations on one access point. */
module RemoteService {
  import opened Wrappers
  import opened HashTable
  import opened AccessPointControl
  import opened ServicePlans
  import Ciphers = CipherSuites

  lemma NothingFirst(rest: seq<Step>)
    ensures Resolve(Succeeded) + rest == rest
  {
  }

  lemma RefuseFirst(answers: Answers, s: State, access: Code, rest: seq<Step>)
    requires access != Succeeded
    ensures Perform(answers, s, Resolve(access) + rest) == (s, access)
  {
  }

  /** Without such an entry it is the table that the request describes. */
  lemma KnownConverted(request: Ciphers.Request, dot11: Ciphers.Dot11Ciphers, order: seq<int>, table: CipherTable)
    requires Emplaced(request, dot11) && Enumerates(order, dot11.Keys)
    requires Emplaced(Ciphers.Ieee80211Pairs(dot11, order), table) && Ciphers.UnknownSecurity !in table
    ensures table == CipherTableOf(request)
  {
    forall p | p in Ciphers.PROTOCOLS
      ensures Ciphers.FromDot11SecurityProtocol(p) in table <==> Ciphers.Names(request, p)
      ensures Ciphers.Names(request, p) ==>
                table[Ciphers.FromDot11SecurityProtocol(p)] == Ciphers.FromSuites(Ciphers.Requested(request, p))
    {
      Ciphers.FirstTable(request, dot11, p);
      Ciphers.SecondTable(dot11, order, table, p);
    }
    forall q
      ensures q in table <==> q in CipherTableOf(request)
      ensures q in table ==> table[q] == CipherTableOf(request)[q]
    {
      assert 1 in Ciphers.PROTOCOLS && 2 in Ciphers.PROTOCOLS && 3 in Ciphers.PROTOCOLS;
      assert q == Ciphers.UnknownSecurity || q == Ciphers.FromDot11SecurityProtocol(1)
          || q == Ciphers.FromDot11SecurityProtocol(2) || q == Ciphers.FromDot11SecurityProtocol(3);
    }
  }

  lemma ValidListConverted(xs: seq<int>)
    ensures (forall x :: x in xs ==> 1 <= x <= 8) <==> UnknownAlgorithm !in FromAlgorithms(xs)
    ensures (forall x :: x in xs ==> 1 <= x <= 22) <==> UnknownAkm !in FromAkmSuites(xs)
  {
    forall i | 0 <= i < |xs|
      ensures xs[i] in xs && FromAlgorithms(xs)[i] in FromAlgorithms(xs) && FromAkmSuites(xs)[i] in FromAkmSuites(xs)
    {
    }
  }

  // ---------- Enabling step by step ----------

  lemma ItemRefusals(c: Capabilities, g: Configuration, i: Item)
    ensures Refusals(ItemPlan(c, g, i))
  {
  }

  lemma {:induction false} ItemsRefusals(c: Capabilities, g: Configuration, k: nat)
    requires k <= |ORDER|
    ensures Refusals(ItemsPlan(c, g, k))
  {
    if k > 0 {
      ItemsRefusals(c, g, k - 1);
      ItemRefusals(c, g, ORDER[k - 1]);
    }
  }

  function ItemsRest(c: Capabilities, g: Configuration, k: nat, n: nat): (rest: seq<Step>)
    requires k <= n <= |ORDER|
    ensures ItemsPlan(c, g, n) == ItemsPlan(c, g, k) + rest
    decreases n - k
  {
    if k == n then [] else ItemsRest(c, g, k, n - 1) + ItemPlan(c, g, ORDER[n - 1])
  }

  lemma ItemStep(answers: Answers, c: Capabilities, s: State, g: Configuration, k: nat, now: State)
    requires k < |ORDER| && Perform(answers, s, ItemsPlan(c, g, k)) == (now, Succeeded)
    ensures Perform(answers, s, ItemsPlan(c, g, k + 1)) == Perform(answers, now, ItemPlan(c, g, ORDER[k]))
  {
    ItemsRefusals(c, g, k);
    PerformAppend(answers, s, ItemsPlan(c, g, k), ItemPlan(c, g, ORDER[k]));
  }

  /** The failure of an item is the failure of the whole. */
  lemma ItemsStop(answers: Answers, c: Capabilities, s: State, g: Configuration, k: nat)
    requires k <= |ORDER| && Perform(answers, s, ItemsPlan(c, g, k)).1 != Succeeded
    ensures Perform(answers, s, ItemsPlan(c, g, |ORDER|)) == Perform(answers, s, ItemsPlan(c, g, k))
  {
    ItemsRefusals(c, g, k);
    PerformAppend(answers, s, ItemsPlan(c, g, k), ItemsRest(c, g, k, |ORDER|));
  }

  /** In each operation `access` is the outcome of looking up the access point and creating its controller, which
      happens after the basic checks of the request; an operation that is handed a controller gets Succeeded. */
  class NetRemoteService {
    const controller: AccessPointController

    constructor (controller: AccessPointController)
      ensures this.controller == controller
    {
      this.controller := controller;
    }

    method SetPhyType(dot11PhyType: int, access: Code) returns (code: Code)
      modifies controller
      ensures (controller.Now(), code)
           == Perform(controller.answers, old(controller.Now()),
                      PhyTypePlan(controller.capabilities, dot11PhyType, access))
    {
      ghost var answers, s := controller.answers, controller.Now();
      if dot11PhyType == 0 {
        PerformRefuse(answers, s, InvalidParameter);
        return InvalidParameter;
      }
      var phyType := FromPhyType(dot11PhyType);
      ghost var last := if phyType in controller.capabilities.phyTypes then [Ask(Call.SetPhyType(phyType))]
                        else [Refuse(OperationNotSupported)];
      ghost var rest := [Ask(GetCapabilities)] + last;
      assert PhyTypePlan(controller.capabilities, dot11PhyType, access) == Resolve(access) + rest;
      if access != Succeeded {
        RefuseFirst(answers, s, access, rest);
        return access;
      }
      NothingFirst(rest);
      AskFirst(answers, s, GetCapabilities, last);
      code := controller.Invoke(GetCapabilities);
      if code != Succeeded {
        return;
      }
      if phyType !in controller.capabilities.phyTypes {
        PerformRefuse(answers, controller.Now(), OperationNotSupported);
        return OperationNotSupported;
      }
      PerformAsk(answers, controller.Now(), Call.SetPhyType(phyType));
      code := controller.Invoke(Call.SetPhyType(phyType));
    }

    method SetFrequencyBands(dot11FrequencyBands: seq<int>, access: Code) returns (code: Code)
      modifies controller
      ensures (controller.Now(), code)
           == Perform(controller.answers, old(controller.Now()),
                      FrequencyBandsPlan(controller.capabilities, dot11FrequencyBands, access))
    {
      ghost var answers, s := controller.answers, controller.Now();
      if dot11FrequencyBands == [] || 0 in dot11FrequencyBands {
        PerformRefuse(answers, s, InvalidParameter);
        return InvalidParameter;
      }
      var bands := FromFrequencyBands(dot11FrequencyBands);
      ghost var last := if AreValidBands(controller.capabilities, dot11FrequencyBands)
                        then [Ask(Call.SetFrequencyBands(bands))] else [Refuse(OperationNotSupported)];
      ghost var rest := [Ask(GetCapabilities)] + last;
      assert FrequencyBandsPlan(controller.capabilities, dot11FrequencyBands, access) == Resolve(access) + rest;
      if access != Succeeded {
        RefuseFirst(answers, s, access, rest);
        return access;
      }
      NothingFirst(rest);
      AskFirst(answers, s, GetCapabilities, last);
      code := controller.Invoke(GetCapabilities);
      if code != Succeeded {
        return;
      }
      var supported := AreSupported(bands);
      if !supported {
        PerformRefuse(answers, controller.Now(), OperationNotSupported);
        return OperationNotSupported;
      }
      PerformAsk(answers, controller.Now(), Call.SetFrequencyBands(bands));
      code := controller.Invoke(Call.SetFrequencyBands(bands));
    }

    /** The loop that looks for a band outside the capabilities. */
    method AreSupported(bands: seq<FrequencyBand>) returns (supported: bool)
      ensures supported <==> forall b :: b in bands ==> b in controller.capabilities.frequencyBands
    {
      for i := 0 to |bands|
        invariant forall j :: 0 <= j < i ==> bands[j] in controller.capabilities.frequencyBands
      {
        if bands[i] !in controller.capabilities.frequencyBands {
          return false;
        }
      }
      return true;
    }

    method SetNetworkBridge(networkBridgeId: string, access: Code) returns (code: Code)
      modifies controller
      ensures (controller.Now(), code)
           == Perform(controller.answers, old(controller.Now()), NetworkBridgePlan(networkBridgeId, access))
    {
      code := Attempt(Call.SetNetworkBridge(networkBridgeId), access);
    }

    /** The part that many operations end with: find the controller and make one call. */
    method Attempt(call: Call, access: Code) returns (code: Code)
      modifies controller
      ensures (controller.Now(), code)
           == Perform(controller.answers, old(controller.Now()), Resolve(access) + [Ask(call)])
    {
      if access != Succeeded {
        RefuseFirst(controller.answers, controller.Now(), access, [Ask(call)]);
        return access;
      }
      NothingFirst([Ask(call)]);
      PerformAsk(controller.answers, controller.Now(), call);
      code := controller.Invoke(call);
    }

    /** The refusal of a request after the controller was found. */
    method Reject(access: Code) returns (code: Code)
      ensures (controller.Now(), code)
           == Perform(controller.answers, controller.Now(), Resolve(access) + [Refuse(InvalidParameter)])
    {
      if access != Succeeded {
        RefuseFirst(controller.answers, controller.Now(), access, [Refuse(InvalidParameter)]);
        return access;
      }
      NothingFirst([Refuse(InvalidParameter)]);
      PerformRefuse(controller.answers, controller.Now(), InvalidParameter);
      return InvalidParameter;
    }

    method SetAuthenticationAlgorithms(dot11Algorithms: seq<int>, access: Code) returns (code: Code)
      modifies controller
      ensures (controller.Now(), code)
           == Perform(controller.answers, old(controller.Now()), AlgorithmsPlan(dot11Algorithms, access))
    {
      if dot11Algorithms == [] || 0 in dot11Algorithms {
        PerformRefuse(controller.answers, controller.Now(), InvalidParameter);
        return InvalidParameter;
      }
      var algorithms := FromAlgorithms(dot11Algorithms);
      ValidListConverted(dot11Algorithms);
      if UnknownAlgorithm in algorithms {
        code := Reject(access);
      } else {
        code := Attempt(Call.SetAuthenticationAlgorithms(algorithms), access);
      }
    }

    method SetAkmSuites(dot11AkmSuites: seq<int>, access: Code) returns (code: Code)
      modifies controller
      ensures (controller.Now(), code)
           == Perform(controller.answers, old(controller.Now()), AkmSuitesPlan(dot11AkmSuites, access))
    {
      if dot11AkmSuites == [] || 0 in dot11AkmSuites {
        PerformRefuse(controller.answers, controller.Now(), InvalidParameter);
        return InvalidParameter;
      }
      var akmSuites := FromAkmSuites(dot11AkmSuites);
      ValidListConverted(dot11AkmSuites);
      if UnknownAkm in akmSuites {
        code := Reject(access);
      } else {
        code := Attempt(Call.SetAkmSuites(akmSuites), access);
      }
    }

    method SetAuthenticationData(data: AuthenticationData, access: Code) returns (code: Code)
      modifies controller
      ensures (controller.Now(), code)
           == Perform(controller.answers, old(controller.Now()), AuthenticationDataPlan(data, access))
    {
      PerformRefuse(controller.answers, controller.Now(), InvalidParameter);
      if data.psk.None? && data.sae.None? {
        return InvalidParameter;
      }
      if data.psk.Some? {
        if data.psk.value.None? {
          return InvalidParameter;
        }
        match data.psk.value.value {
          case NoPsk => return InvalidParameter;
          case Passphrase(text) =>
            if text == "" {
              return InvalidParameter;
            }
            if |text| < PASSPHRASE_LENGTH_MINIMUM || |text| > PASSPHRASE_LENGTH_MAXIMUM {
              return InvalidParameter;
            }
          case Value(NoPskValue) => return InvalidParameter;
          case Value(Hex(text)) =>
            if |text| != PSK_LENGTH * 2 {
              return InvalidParameter;
            }
          case Value(Raw(bytes)) =>
            if |bytes| != PSK_LENGTH {
              return InvalidParameter;
            }
        }
      }
      if data.sae.Some? && data.sae.value == [] {
        return InvalidParameter;
      }
      code := Attempt(Call.SetAuthenticationData(data), access);
    }

    method SetPairwiseCipherSuites(request: Ciphers.Request, access: Code) returns (code: Code)
      modifies controller
      ensures (controller.Now(), code)
           == Perform(controller.answers, old(controller.Now()), CiphersPlan(request, access))
    {
      var dot11 := EmplaceAll(request);
      Ciphers.EmplacedEmpty(request, dot11);
      Ciphers.FirstTable(request, dot11, 0);
      if dot11 == map[] || 0 in dot11 {
        PerformRefuse(controller.answers, controller.Now(), InvalidParameter);
        return InvalidParameter;
      }
      var order := Iterate(dot11.Keys);
      var table := EmplaceAll(Ciphers.Ieee80211Pairs(dot11, order));
      Ciphers.UnknownConverted(request, dot11, order, table);
      if Ciphers.UnknownSecurity in table {
        code := Reject(access);
      } else {
        KnownConverted(request, dot11, order, table);
        code := Attempt(Call.SetPairwiseCipherSuites(table), access);
      }
    }

    method SetSsid(ssid: Dot11Ssid, access: Code) returns (code: Code)
      modifies controller
      ensures (controller.Now(), code) == Perform(controller.answers, old(controller.Now()), SsidPlan(ssid, access))
    {
      if ssid == NoSsid {
        PerformRefuse(controller.answers, controller.Now(), InvalidParameter);
        return InvalidParameter;
      }
      code := Attempt(Call.SetSsid(SsidText(ssid)), access);
    }

    method SetAuthenticationDot1x(dot1x: Option<Dot1xRadius>, access: Code) returns (code: Code)
      modifies controller
      ensures (controller.Now(), code) == Perform(controller.answers, old(controller.Now()), Dot1xPlan(dot1x, access))
    {
      if dot1x.None? {
        PerformRefuse(controller.answers, controller.Now(), InvalidParameter);
        return InvalidParameter;
      }
      var radius := dot1x.value;
      if radius.authenticationServer.None? || !IsValidServer(radius.authenticationServer.value) {
        code := Reject(access);
        return;
      }
      if radius.accountingServer.Some? && !IsValidServer(radius.accountingServer.value) {
        code := Reject(access);
        return;
      }
      for i := 0 to |radius.fallbackServers|
        invariant forall j :: 0 <= j < i ==> IsValidServer(radius.fallbackServers[j])
        invariant controller.Now() == old(controller.Now())
      {
        if !IsValidServer(radius.fallbackServers[i]) {
          code := Reject(access);
          return;
        }
      }
      code := Attempt(Call.SetRadiusConfiguration(FromRadius(radius)), access);
    }

    /** One item of a configuration, if it is present. */
    method ConfigureItem(g: Configuration, item: Item, ghost s: State, ghost k: nat) returns (code: Code)
      requires k < |ORDER| && item == ORDER[k]
      requires Perform(controller.answers, s, ItemsPlan(controller.capabilities, g, k)) == (controller.Now(), Succeeded)
      modifies controller
      ensures (controller.Now(), code)
           == Perform(controller.answers, s, ItemsPlan(controller.capabilities, g, k + 1))
    {
      ItemStep(controller.answers, controller.capabilities, s, g, k, controller.Now());
      code := Succeeded;
      match item {
        case PhyItem => if g.phyType != 0 { code := SetPhyType(g.phyType, Succeeded); }
        case Dot1xItem =>
          if g.authenticationDot1x.Some? { code := SetAuthenticationDot1x(g.authenticationDot1x.value, Succeeded); }
        case AlgorithmsItem =>
          if g.algorithms != [] { code := SetAuthenticationAlgorithms(g.algorithms, Succeeded); }
        case DataItem =>
          if g.authenticationData.psk.Some? || g.authenticationData.sae.Some? {
            code := SetAuthenticationData(g.authenticationData, Succeeded);
          }
        case AkmItem => if g.akmSuites != [] { code := SetAkmSuites(g.akmSuites, Succeeded); }
        case CiphersItem =>
          if g.pairwiseCipherSuites != [] { code := SetPairwiseCipherSuites(g.pairwiseCipherSuites, Succeeded); }
        case SsidItem => if g.ssid.Some? { code := SetSsid(g.ssid.value, Succeeded); }
        case BandsItem => if g.frequencyBands != [] { code := SetFrequencyBands(g.frequencyBands, Succeeded); }
      }
    }

    /** All items of a configuration that are present, one after the other until one fails. */
    method Configure(g: Configuration) returns (code: Code)
      modifies controller
      ensures (controller.Now(), code)
           == Perform(controller.answers, old(controller.Now()), ItemsPlan(controller.capabilities, g, |ORDER|))
    {
      ghost var answers, c, s := controller.answers, controller.capabilities, controller.Now();
      code := ConfigureItem(g, PhyItem, s, 0);
      if code != Succeeded {
        ItemsStop(answers, c, s, g, 1);
        return;
      }
      code := ConfigureItem(g, Dot1xItem, s, 1);
      if code != Succeeded {
        ItemsStop(answers, c, s, g, 2);
        return;
      }
      code := ConfigureItem(g, AlgorithmsItem, s, 2);
      if code != Succeeded {
        ItemsStop(answers, c, s, g, 3);
        return;
      }
      code := ConfigureItem(g, DataItem, s, 3);
      if code != Succeeded {
        ItemsStop(answers, c, s, g, 4);
        return;
      }
      code := ConfigureItem(g, AkmItem, s, 4);
      if code != Succeeded {
        ItemsStop(answers, c, s, g, 5);
        return;
      }
      code := ConfigureItem(g, CiphersItem, s, 5);
      if code != Succeeded {
        ItemsStop(answers, c, s, g, 6);
        return;
      }
      code := ConfigureItem(g, SsidItem, s, 6);
      if code != Succeeded {
        ItemsStop(answers, c, s, g, 7);
        return;
      }
      code := ConfigureItem(g, BandsItem, s, 7);
    }

    /** Read the operational state, and set it when it is not the wanted one. */
    method Switch(target: bool) returns (code: Code)
      modifies controller
      ensures (controller.Now(), code)
           == Perform(controller.answers, old(controller.Now()), StatePlan(old(controller.record.isEnabled), target))
    {
      ghost var s, isEnabled := controller.Now(), controller.record.isEnabled;
      ghost var rest := if isEnabled == target then [] else [Ask(Call.SetOperationalState(target))];
      AskFirst(controller.answers, s, GetOperationalState, rest);
      code := controller.Invoke(GetOperationalState);
      if code != Succeeded {
        return;
      }
      if controller.record.isEnabled != target {
        PerformAsk(controller.answers, controller.Now(), Call.SetOperationalState(target));
        code := controller.Invoke(Call.SetOperationalState(target));
      }
    }

    method Enable(g: Option<Configuration>, access: Code) returns (code: Code)
      modifies controller
      ensures (controller.Now(), code)
           == Perform(controller.answers, old(controller.Now()),
                      EnablePlan(controller.capabilities, g, old(controller.record.isEnabled), access))
    {
      ghost var answers, c, s := controller.answers, controller.capabilities, controller.Now();
      if access != Succeeded {
        PerformRefuse(answers, s, access);
        return access;
      }
      if g.Some? {
        ghost var items := ItemsPlan(c, g.value, |ORDER|);
        ItemsRefusals(c, g.value, |ORDER|);
        PerformAppend(answers, s, items, StatePlan(s.record.isEnabled, true));
        ItemsKeepOperationalState(c, g.value, |ORDER|);
        OperationalStateKept(answers, s, items);
        code := Configure(g.value);
        if code != Succeeded {
          return;
        }
      } else {
        assert [] + StatePlan(s.record.isEnabled, true) == StatePlan(s.record.isEnabled, true);
      }
      code := Switch(true);
    }

    method Disable(access: Code) returns (code: Code)
      modifies controller
      ensures (controller.Now(), code)
           == Perform(controller.answers, old(controller.Now()), DisablePlan(old(controller.record.isEnabled), access))
    {
      if access != Succeeded {
        RefuseFirst(controller.answers, controller.Now(), access, StatePlan(controller.record.isEnabled, false));
        return access;
      }
      NothingFirst(StatePlan(controller.record.isEnabled, false));
      code := Switch(false);
    }
  }

  lemma ItemKeepsOperationalState(c: Capabilities, g: Configuration, i: Item)
    ensures KeepsOperationalState(ItemPlan(c, g, i))
  {
  }

  lemma {:induction false} ItemsKeepOperationalState(c: Capabilities, g: Configuration, k: nat)
    requires k <= |ORDER|
    ensures KeepsOperationalState(ItemsPlan(c, g, k))
  {
    if k > 0 {
      ItemsKeepOperationalState(c, g, k - 1);
      ItemKeepsOperationalState(c, g, ORDER[k - 1]);
    }
  }
}
