/** Pairwise cipher suites on their way from a request to hostapd: through three maps, each filled by a loop
    over the one before it in the unspecified order of a hash table. */
module CipherSuites {
  import opened Wrappers
  import opened Sequences
  import opened Text
  import opened HashTable
  import opened Daemon
  import opened HostapdProtocol
  import opened PropertyCodecs
  import opened HostapdPlans
  import opened HostapdControl

  // ---------- The conversions ----------

  datatype Ieee80211SecurityProtocol = UnknownSecurity | WpaSecurity | Wpa2Security | Wpa3Security

  datatype Ieee80211CipherSuite =
    | UnknownSuite | BipCmac128Suite | BipCmac256Suite | BipGmac128Suite | BipGmac256Suite | Ccmp128Suite
    | Ccmp256Suite | Gcmp128Suite | Gcmp256Suite | GroupAddressesTrafficNotAllowedSuite | TkipSuite | UseGroupSuite
    | Wep104Suite | Wep40Suite

  /** Enumerations of the API arrive as numbers, which need not be enumerators. */
  type Dot11SecurityProtocol = int
  type Dot11CipherSuite = int

  const DOT11_UNKNOWN: Dot11SecurityProtocol := 0
  const DOT11_WPA1: Dot11SecurityProtocol := 1
  const DOT11_WPA2: Dot11SecurityProtocol := 2
  const DOT11_WPA3: Dot11SecurityProtocol := 3

  const PROTOCOLS: set<Dot11SecurityProtocol> := {1, 2, 3}

  function FromDot11SecurityProtocol(p: Dot11SecurityProtocol): Ieee80211SecurityProtocol {
    if p == 1 then WpaSecurity else if p == 2 then Wpa2Security else if p == 3 then Wpa3Security else UnknownSecurity
  }

  function FromDot11CipherSuite(c: Dot11CipherSuite): Ieee80211CipherSuite {
    if c == 1 then BipCmac128Suite else if c == 2 then BipCmac256Suite else if c == 3 then BipGmac128Suite
    else if c == 4 then BipGmac256Suite else if c == 5 then Ccmp128Suite else if c == 6 then Ccmp256Suite
    else if c == 7 then Gcmp128Suite else if c == 8 then Gcmp256Suite
    else if c == 9 then GroupAddressesTrafficNotAllowedSuite else if c == 10 then TkipSuite
    else if c == 11 then UseGroupSuite else if c == 12 then Wep104Suite else if c == 13 then Wep40Suite
    else UnknownSuite
  }

  function ToWpaSecurityProtocol(p: Ieee80211SecurityProtocol): WpaSecurityProtocol {
    match p
    case WpaSecurity => Wpa
    case Wpa2Security => Wpa2
    case Wpa3Security => Wpa3
    case UnknownSecurity => UnknownProtocol
  }

  function ToWpaCipher(c: Ieee80211CipherSuite): WpaCipher {
    match c
    case BipCmac128Suite => Aes128Cmac
    case BipCmac256Suite => BipCmac256
    case BipGmac128Suite => BipGmac128
    case BipGmac256Suite => BipGmac256
    case Ccmp128Suite => Ccmp
    case Ccmp256Suite => Ccmp256
    case Gcmp128Suite => Gcmp
    case Gcmp256Suite => Gcmp256
    case GroupAddressesTrafficNotAllowedSuite => GtkNotUsed
    case TkipSuite => Tkip
    case UseGroupSuite => NoCipher
    case Wep104Suite => Wep104
    case Wep40Suite => Wep40
    case UnknownSuite => UnknownCipher
  }

  function FromSuites(cs: seq<Dot11CipherSuite>): (r: seq<Ieee80211CipherSuite>)
    ensures |r| == |cs| && forall i :: 0 <= i < |cs| ==> r[i] == FromDot11CipherSuite(cs[i])
  {
    seq(|cs|, i requires 0 <= i < |cs| => FromDot11CipherSuite(cs[i]))
  }

  function ToCiphers(cs: seq<Ieee80211CipherSuite>): (r: seq<WpaCipher>)
    ensures |r| == |cs| && forall i :: 0 <= i < |cs| ==> r[i] == ToWpaCipher(cs[i])
  {
    seq(|cs|, i requires 0 <= i < |cs| => ToWpaCipher(cs[i]))
  }

  /** The hostapd ciphers for the ciphers of a request entry. */
  function Converted(cs: seq<Dot11CipherSuite>): seq<WpaCipher> { ToCiphers(FromSuites(cs)) }

  /** The three tables. */
  type Dot11Ciphers = map<Dot11SecurityProtocol, seq<Dot11CipherSuite>>
  type Ieee80211Ciphers = map<Ieee80211SecurityProtocol, seq<Ieee80211CipherSuite>>
  type WpaCiphers = map<WpaSecurityProtocol, seq<WpaCipher>>

  /** An entry of the request: a security protocol and its cipher suites. */
  type Request = seq<(Dot11SecurityProtocol, seq<Dot11CipherSuite>)>

  /** The pairs that the second loop emplaces when it visits the table `m` in the given order ... */
  function Ieee80211Pairs(m: Dot11Ciphers, order: seq<Dot11SecurityProtocol>)
    : (pairs: seq<(Ieee80211SecurityProtocol, seq<Ieee80211CipherSuite>)>)
    requires forall p :: p in order ==> p in m
    ensures |pairs| == |order|
    ensures forall i :: 0 <= i < |order| ==> pairs[i] == (FromDot11SecurityProtocol(order[i]), FromSuites(m[order[i]]))
  {
    seq(|order|, i requires 0 <= i < |order| => (FromDot11SecurityProtocol(order[i]), FromSuites(m[order[i]])))
  }

  /** ... and the third. */
  function WpaPairs(m: Ieee80211Ciphers, order: seq<Ieee80211SecurityProtocol>)
    : (pairs: seq<(WpaSecurityProtocol, seq<WpaCipher>)>)
    requires forall p :: p in order ==> p in m
    ensures |pairs| == |order|
    ensures forall i :: 0 <= i < |order| ==> pairs[i] == (ToWpaSecurityProtocol(order[i]), ToCiphers(m[order[i]]))
  {
    seq(|order|, i requires 0 <= i < |order| => (ToWpaSecurityProtocol(order[i]), ToCiphers(m[order[i]])))
  }

  function Entries(m: WpaCiphers, order: seq<WpaSecurityProtocol>)
    : (entries: seq<ProtocolCiphers>)
    requires forall p :: p in order ==> p in m
    ensures |entries| == |order|
    ensures forall i :: 0 <= i < |order| ==> entries[i] == ProtocolCiphers(order[i], m[order[i]])
  {
    seq(|order|, i requires 0 <= i < |order| => ProtocolCiphers(order[i], m[order[i]]))
  }

  /** The tables that a request leads through, for some iteration orders, when the service does not refuse it. */
  ghost predicate LeadsTo(request: Request, entries: seq<ProtocolCiphers>) {
    exists dot11, dot11Order, ieee80211, ieee80211Order, wpa, wpaOrder ::
      Through(request, dot11, dot11Order, ieee80211, ieee80211Order, wpa, wpaOrder, entries)
  }

  ghost predicate Through(
    request: Request,
    dot11: Dot11Ciphers, dot11Order: seq<Dot11SecurityProtocol>,
    ieee80211: Ieee80211Ciphers, ieee80211Order: seq<Ieee80211SecurityProtocol>,
    wpa: WpaCiphers, wpaOrder: seq<WpaSecurityProtocol>,
    entries: seq<ProtocolCiphers>)
  {
    && Emplaced(request, dot11) && DOT11_UNKNOWN !in dot11
    && Enumerates(dot11Order, dot11.Keys)
    && Emplaced(Ieee80211Pairs(dot11, dot11Order), ieee80211) && UnknownSecurity !in ieee80211
    && Enumerates(ieee80211Order, ieee80211.Keys)
    && Emplaced(WpaPairs(ieee80211, ieee80211Order), wpa)
    && Enumerates(wpaOrder, wpa.Keys)
    && entries == Entries(wpa, wpaOrder)
  }

  /** The request is refused before anything is sent: it is empty or names an unknown protocol. */
  predicate IsRefused(request: Request) { request == [] || exists e :: e in request && e.0 !in PROTOCOLS }

  /** WifiAccessPointSetPairwiseCipherSuites, the controller and Hostapd together; false when any of them
      refuses or fails. */
  method SetPairwiseCipherSuites(hostapd: Hostapd, request: Request)
    returns (ok: bool, ghost entries: seq<ProtocolCiphers>)
    modifies hostapd
    ensures IsRefused(request) ==> !ok && hostapd.daemon == old(hostapd.daemon)
    ensures !IsRefused(request) ==>
              && LeadsTo(request, entries)
              && (hostapd.daemon, ok)
              == Perform(hostapd.verdicts, old(hostapd.daemon), PairwiseCiphersPlan(entries, Now))
  {
    entries := [];
    var dot11 := EmplaceAll(request);
    EmplacedEmpty(request, dot11);
    if DOT11_UNKNOWN in dot11 {
      FirstTable(request, dot11, DOT11_UNKNOWN);
      EntryOfName(request, DOT11_UNKNOWN);
    }
    if dot11 == map[] || DOT11_UNKNOWN in dot11 {
      return false, [];
    }
    var dot11Order := Iterate(dot11.Keys);
    var ieee80211 := EmplaceAll(Ieee80211Pairs(dot11, dot11Order));
    UnknownConverted(request, dot11, dot11Order, ieee80211);
    if UnknownSecurity in ieee80211 {
      return false, [];
    }
    if ieee80211 == map[] {
      NothingLost(dot11, dot11Order, ieee80211);
      assert false;
    }
    var ieee80211Order := Iterate(ieee80211.Keys);
    var wpa := EmplaceAll(WpaPairs(ieee80211, ieee80211Order));
    var wpaOrder := Iterate(wpa.Keys);
    var visited := Entries(wpa, wpaOrder);
    ok := hostapd.SetPairwiseCipherSuites(visited, Now);
    entries := visited;
    assert Through(request, dot11, dot11Order, ieee80211, ieee80211Order, wpa, wpaOrder, visited);
  }

  // ---------- What arrives ----------

  predicate Names(request: Request, p: Dot11SecurityProtocol) { First(request, p).Some? }

  /** The ciphers of the first entry for a protocol. */
  function Requested(request: Request, p: Dot11SecurityProtocol): seq<Dot11CipherSuite>
    requires Names(request, p)
  {
    First(request, p).value
  }

  /** Known protocols keep their own ciphers in the second table. */
  lemma SecondTable(
    dot11: Dot11Ciphers, order: seq<Dot11SecurityProtocol>,
    ieee80211: Ieee80211Ciphers, p: Dot11SecurityProtocol)
    requires Enumerates(order, dot11.Keys) && Emplaced(Ieee80211Pairs(dot11, order), ieee80211)
    requires p in PROTOCOLS
    ensures FromDot11SecurityProtocol(p) in ieee80211 <==> p in dot11
    ensures p in dot11 ==> ieee80211[FromDot11SecurityProtocol(p)] == FromSuites(dot11[p])
  {
    var pairs, q := Ieee80211Pairs(dot11, order), FromDot11SecurityProtocol(p);
    FirstIsOne(pairs, q);
    assert First(pairs, q) == if q in ieee80211 then Some(ieee80211[q]) else None;
    if p in dot11 {
      assert p in order;
      var i :| 0 <= i < |order| && order[i] == p;
      assert pairs[i] in pairs;
    }
    if q in ieee80211 {
      var j :| 0 <= j < |pairs| && pairs[j] == (q, ieee80211[q]);
      assert order[j] == p;
    }
  }

  /** In the third table WPA keeps its ciphers, and the entry that WPA2 and WPA3 share has those of one of them. */
  lemma ThirdTable(
    ieee80211: Ieee80211Ciphers, order: seq<Ieee80211SecurityProtocol>,
    wpa: WpaCiphers)
    requires Enumerates(order, ieee80211.Keys) && Emplaced(WpaPairs(ieee80211, order), wpa)
    requires UnknownSecurity !in ieee80211
    ensures UnknownProtocol !in wpa
    ensures Wpa in wpa <==> WpaSecurity in ieee80211
    ensures Wpa in wpa ==> wpa[Wpa] == ToCiphers(ieee80211[WpaSecurity])
    ensures Wpa2 in wpa <==> Wpa2Security in ieee80211 || Wpa3Security in ieee80211
    ensures Wpa2 in wpa ==>
              || (Wpa2Security in ieee80211 && wpa[Wpa2] == ToCiphers(ieee80211[Wpa2Security]))
              || (Wpa3Security in ieee80211 && wpa[Wpa2] == ToCiphers(ieee80211[Wpa3Security]))
  {
    ThirdTableEntry(ieee80211, order, wpa, UnknownProtocol);
    ThirdTableEntry(ieee80211, order, wpa, Wpa);
    ThirdTableEntry(ieee80211, order, wpa, Wpa2);
  }

  lemma ThirdTableEntry(
    ieee80211: Ieee80211Ciphers, order: seq<Ieee80211SecurityProtocol>, wpa: WpaCiphers, p: WpaSecurityProtocol)
    requires Enumerates(order, ieee80211.Keys) && Emplaced(WpaPairs(ieee80211, order), wpa)
    ensures p in wpa ==>
              exists q :: q in ieee80211 && ToWpaSecurityProtocol(q) == p && wpa[p] == ToCiphers(ieee80211[q])
    ensures p !in wpa ==> forall q :: q in ieee80211 ==> ToWpaSecurityProtocol(q) != p
  {
    var pairs := WpaPairs(ieee80211, order);
    FirstIsOne(pairs, p);
    assert First(pairs, p) == if p in wpa then Some(wpa[p]) else None;
    if p in wpa {
      var j :| 0 <= j < |pairs| && pairs[j] == (p, wpa[p]);
      assert order[j] in order;
    } else {
      forall q | q in ieee80211
        ensures ToWpaSecurityProtocol(q) != p
      {
        assert q in order;
        var j :| 0 <= j < |order| && order[j] == q;
        assert pairs[j] in pairs;
      }
    }
  }

  /** `entries` gives protocol `q` the ciphers of the first request entry for `p`, in order. */
  predicate Gives(entries: seq<ProtocolCiphers>, q: WpaSecurityProtocol, request: Request, p: Dot11SecurityProtocol) {
    Names(request, p) && ProtocolCiphers(q, Converted(Requested(request, p))) in entries
  }

  /** One entry for WPA if it is named, one for WPA2 and WPA3 together if either is, and the ciphers of each are
      those of the first request entry for that protocol, in order. When both WPA2 and WPA3 are named one of
      their lists survives, whole. */
  ghost predicate Preserves(entries: seq<ProtocolCiphers>, request: Request) {
    var wpa1, wpa2, wpa3 := Names(request, DOT11_WPA1), Names(request, DOT11_WPA2), Names(request, DOT11_WPA3);
    && |entries| == (if wpa1 then 1 else 0) + (if wpa2 || wpa3 then 1 else 0)
    && (wpa1 ==> Gives(entries, Wpa, request, DOT11_WPA1))
    && (wpa2 || wpa3 ==> Gives(entries, Wpa2, request, DOT11_WPA2) || Gives(entries, Wpa3, request, DOT11_WPA3))
  }

  /** What hostapd is given for a request that is not refused. */
  lemma CiphersPreserved(request: Request, entries: seq<ProtocolCiphers>)
    requires LeadsTo(request, entries)
    ensures Preserves(entries, request)
  {
    var dot11, dot11Order, ieee80211, ieee80211Order, wpa, wpaOrder :|
      Through(request, dot11, dot11Order, ieee80211, ieee80211Order, wpa, wpaOrder, entries);
    LastTable(request, dot11, dot11Order, ieee80211, ieee80211Order, wpa, wpaOrder, entries);
    EntryCount(wpa, wpaOrder);
    EntryFor(wpa, wpaOrder, Wpa);
    EntryFor(wpa, wpaOrder, Wpa2);
  }

  /** A protocol that the request names is given its own ciphers; Wpa3 is Wpa2. */
  predicate Arrives(entries: seq<ProtocolCiphers>, request: Request, p: Dot11SecurityProtocol) {
    Names(request, p) ==> Gives(entries, ToWpaSecurityProtocol(FromDot11SecurityProtocol(p)), request, p)
  }

  /** WPA2 and WPA3 are both named, with lists that differ once converted. */
  predicate Contends(request: Request) {
    && Names(request, DOT11_WPA2) && Names(request, DOT11_WPA3)
    && Converted(Requested(request, DOT11_WPA2)) != Converted(Requested(request, DOT11_WPA3))
  }

  /** Every named protocol is given its own ciphers if and only if WPA2 and WPA3 are not both named with lists that
      differ once converted. */
  lemma AllArriveExactly(request: Request, entries: seq<ProtocolCiphers>)
    requires LeadsTo(request, entries)
    ensures (forall p :: p in PROTOCOLS ==> Arrives(entries, request, p)) <==> !Contends(request)
  {
    CiphersPreserved(request, entries);
    if Gives(entries, Wpa2, request, DOT11_WPA2) && Gives(entries, Wpa2, request, DOT11_WPA3) {
      EntryIsOne(
        request, entries, ProtocolCiphers(Wpa2, Converted(Requested(request, DOT11_WPA2))),
        ProtocolCiphers(Wpa2, Converted(Requested(request, DOT11_WPA3))));
    }
    PreservedArrive(request, entries);
  }

  lemma PreservedArrive(request: Request, entries: seq<ProtocolCiphers>)
    requires Preserves(entries, request)
    requires Contends(request) ==>
               !(Gives(entries, Wpa2, request, DOT11_WPA2) && Gives(entries, Wpa2, request, DOT11_WPA3))
    ensures (forall p :: p in PROTOCOLS ==> Arrives(entries, request, p)) <==> !Contends(request)
  {
    assert DOT11_WPA2 in PROTOCOLS && DOT11_WPA3 in PROTOCOLS;
    assert forall p :: p in PROTOCOLS ==> p == DOT11_WPA1 || p == DOT11_WPA2 || p == DOT11_WPA3;
  }

  /** A protocol has only one entry. */
  lemma EntryIsOne(request: Request, entries: seq<ProtocolCiphers>, x: ProtocolCiphers, y: ProtocolCiphers)
    requires LeadsTo(request, entries)
    requires x in entries && y in entries && x.protocol == y.protocol
    ensures x == y
  {
    var dot11, dot11Order, ieee80211, ieee80211Order, wpa, wpaOrder :|
      Through(request, dot11, dot11Order, ieee80211, ieee80211Order, wpa, wpaOrder, entries);
    EntryOfTable(wpa, wpaOrder, x);
    EntryOfTable(wpa, wpaOrder, y);
  }

  lemma EntryOfTable(wpa: WpaCiphers, order: seq<WpaSecurityProtocol>, e: ProtocolCiphers)
    requires Enumerates(order, wpa.Keys) && e in Entries(wpa, order)
    ensures e.protocol in wpa && e.ciphers == wpa[e.protocol]
  {
    var i :| 0 <= i < |order| && Entries(wpa, order)[i] == e;
    assert order[i] in order;
  }

  /** Whatever lists a request has for WPA2 and for WPA3, hostapd may be given the first alone. */
  lemma SecondListCanBeLost(a: seq<Dot11CipherSuite>, b: seq<Dot11CipherSuite>)
    ensures LeadsTo([(DOT11_WPA2, a), (DOT11_WPA3, b)], [ProtocolCiphers(Wpa2, Converted(a))])
  {
    var request := [(DOT11_WPA2, a), (DOT11_WPA3, b)];
    var dot11: Dot11Ciphers := map[DOT11_WPA2 := a, DOT11_WPA3 := b];
    var ieee80211: Ieee80211Ciphers := map[Wpa2Security := FromSuites(a), Wpa3Security := FromSuites(b)];
    var wpa: WpaCiphers := map[Wpa2 := Converted(a)];
    TwoEmplaced(request[0], request[1]);
    assert Ieee80211Pairs(dot11, [DOT11_WPA2, DOT11_WPA3])
        == [(Wpa2Security, FromSuites(a)), (Wpa3Security, FromSuites(b))];
    TwoEmplaced((Wpa2Security, FromSuites(a)), (Wpa3Security, FromSuites(b)));
    assert WpaPairs(ieee80211, [Wpa2Security, Wpa3Security]) == [(Wpa2, Converted(a)), (Wpa2, Converted(b))];
    TwoEmplaced((Wpa2, Converted(a)), (Wpa2, Converted(b)));
    TwoEnumerated(DOT11_WPA2, DOT11_WPA3);
    TwoEnumerated(Wpa2Security, Wpa3Security);
    assert dot11.Keys == {DOT11_WPA2, DOT11_WPA3} && ieee80211.Keys == {Wpa2Security, Wpa3Security};
    assert wpa.Keys == {Wpa2};
    assert Through(request, dot11, [DOT11_WPA2, DOT11_WPA3], ieee80211, [Wpa2Security, Wpa3Security], wpa, [Wpa2],
                   [ProtocolCiphers(Wpa2, Converted(a))]);
  }

  const CCMP_AND_GCMP: Request := [(DOT11_WPA2, [5]), (DOT11_WPA3, [8])]

  /** So a request for CCMP with WPA2 and for GCMP-256 with WPA3 can lead to a configuration without the latter. */
  lemma CiphersCanBeLost()
    ensures LeadsTo(CCMP_AND_GCMP, [ProtocolCiphers(Wpa2, [Ccmp])])
    ensures Names(CCMP_AND_GCMP, DOT11_WPA3) && !Arrives([ProtocolCiphers(Wpa2, [Ccmp])], CCMP_AND_GCMP, DOT11_WPA3)
  {
    SecondListCanBeLost([5], [8]);
    assert Converted([5]) == [Ccmp];
    FirstOfTwo((DOT11_WPA2, [5]), (DOT11_WPA3, [8]), DOT11_WPA3);
    assert Converted([8])[0] == Gcmp256;
  }

  lemma FirstOfTwo<K, V>(x: (K, V), y: (K, V), k: K)
    ensures First([x, y], k) == if x.0 == k then Some(x.1) else if y.0 == k then Some(y.1) else None
  {
    assert [x, y][..1] == [x] && [x][..0] == [];
    assert First([x], k) == if x.0 == k then Some(x.1) else None;
  }

  lemma TwoEnumerated<K(!new)>(x: K, y: K)
    requires x != y
    ensures Enumerates([x, y], {x, y})
  {
  }

  lemma TwoEmplaced<K(!new), V>(x: (K, V), y: (K, V))
    ensures Emplaced([x, y], map[y.0 := y.1, x.0 := x.1])
  {
    forall k
      ensures First([x, y], k) == if x.0 == k then Some(x.1) else if y.0 == k then Some(y.1) else None
    {
      FirstOfTwo(x, y, k);
    }
  }

  /** The last table, in terms of the request. */
  lemma LastTable(
    request: Request,
    dot11: Dot11Ciphers, dot11Order: seq<Dot11SecurityProtocol>,
    ieee80211: Ieee80211Ciphers, ieee80211Order: seq<Ieee80211SecurityProtocol>,
    wpa: WpaCiphers, wpaOrder: seq<WpaSecurityProtocol>, entries: seq<ProtocolCiphers>)
    requires Through(request, dot11, dot11Order, ieee80211, ieee80211Order, wpa, wpaOrder, entries)
    ensures UnknownProtocol !in wpa
    ensures Wpa in wpa <==> Names(request, DOT11_WPA1)
    ensures Wpa in wpa ==> wpa[Wpa] == Converted(Requested(request, DOT11_WPA1))
    ensures Wpa2 in wpa <==> Names(request, DOT11_WPA2) || Names(request, DOT11_WPA3)
    ensures Wpa2 in wpa ==>
              || (Names(request, DOT11_WPA2) && wpa[Wpa2] == Converted(Requested(request, DOT11_WPA2)))
              || (Names(request, DOT11_WPA3) && wpa[Wpa2] == Converted(Requested(request, DOT11_WPA3)))
  {
    FirstTable(request, dot11, DOT11_WPA1);
    FirstTable(request, dot11, DOT11_WPA2);
    FirstTable(request, dot11, DOT11_WPA3);
    SecondTable(dot11, dot11Order, ieee80211, DOT11_WPA1);
    SecondTable(dot11, dot11Order, ieee80211, DOT11_WPA2);
    SecondTable(dot11, dot11Order, ieee80211, DOT11_WPA3);
    ThirdTable(ieee80211, ieee80211Order, wpa);
  }

  lemma EntryCount(wpa: WpaCiphers, order: seq<WpaSecurityProtocol>)
    requires UnknownProtocol !in wpa && Enumerates(order, wpa.Keys)
    ensures |Entries(wpa, order)| == (if Wpa in wpa then 1 else 0) + (if Wpa2 in wpa then 1 else 0)
  {
    EnumeratesAll(order, wpa.Keys);
    forall p: WpaSecurityProtocol
      ensures p in wpa.Keys ==> p == Wpa || p == Wpa2
    {
      assert p == UnknownProtocol || p == Wpa || p == Wpa2;
    }
    assert wpa.Keys == (if Wpa in wpa then {Wpa} else {}) + (if Wpa2 in wpa then {Wpa2} else {});
  }

  lemma FirstTable(request: Request, dot11: Dot11Ciphers, p: Dot11SecurityProtocol)
    requires Emplaced(request, dot11)
    ensures Names(request, p) <==> p in dot11
    ensures p in dot11 ==> dot11[p] == Requested(request, p)
  {
  }

  lemma NamesOfEntry(request: Request, e: (Dot11SecurityProtocol, seq<Dot11CipherSuite>))
    requires e in request
    ensures Names(request, e.0)
  {
    FirstIsOne(request, e.0);
  }

  lemma EntryOfName(request: Request, p: Dot11SecurityProtocol)
    requires Names(request, p)
    ensures (p, Requested(request, p)) in request
  {
    FirstIsOne(request, p);
  }

  /** An entry of the second table for an unknown protocol comes from the request ... */
  lemma UnknownFromRequest(
    request: Request, dot11: Dot11Ciphers, order: seq<Dot11SecurityProtocol>, table: Ieee80211Ciphers)
    requires Emplaced(request, dot11) && Enumerates(order, dot11.Keys)
    requires Emplaced(Ieee80211Pairs(dot11, order), table) && UnknownSecurity in table
    ensures exists e :: e in request && e.0 !in PROTOCOLS
  {
    var pairs, unknown := Ieee80211Pairs(dot11, order), UnknownSecurity;
    FirstIsOne(pairs, unknown);
    assert First(pairs, unknown) == Some(table[unknown]);
    var j :| 0 <= j < |pairs| && pairs[j] == (unknown, table[unknown]);
    assert order[j] in order && order[j] !in PROTOCOLS;
    FirstTable(request, dot11, order[j]);
    EntryOfName(request, order[j]);
  }

  /** ... and a request for one leads to such an entry. */
  lemma UnknownFromTable(
    request: Request, dot11: Dot11Ciphers, order: seq<Dot11SecurityProtocol>, table: Ieee80211Ciphers,
    e: (Dot11SecurityProtocol, seq<Dot11CipherSuite>))
    requires Emplaced(request, dot11) && Enumerates(order, dot11.Keys)
    requires Emplaced(Ieee80211Pairs(dot11, order), table)
    requires e in request && e.0 !in PROTOCOLS
    ensures UnknownSecurity in table
  {
    var pairs, unknown := Ieee80211Pairs(dot11, order), UnknownSecurity;
    FirstIsOne(pairs, unknown);
    NamesOfEntry(request, e);
    FirstTable(request, dot11, e.0);
    assert e.0 in order;
    var j :| 0 <= j < |order| && order[j] == e.0;
    assert pairs[j] in pairs && pairs[j].0 == unknown;
    assert First(pairs, unknown) == if unknown in table then Some(table[unknown]) else None;
  }

  lemma UnknownConverted(
    request: Request, dot11: Dot11Ciphers, order: seq<Dot11SecurityProtocol>, table: Ieee80211Ciphers)
    requires Emplaced(request, dot11) && Enumerates(order, dot11.Keys)
    requires Emplaced(Ieee80211Pairs(dot11, order), table)
    ensures (forall e :: e in request ==> e.0 in PROTOCOLS) <==> UnknownSecurity !in table
  {
    if UnknownSecurity in table {
      UnknownFromRequest(request, dot11, order, table);
    } else {
      forall e | e in request && e.0 !in PROTOCOLS
        ensures false
      {
        UnknownFromTable(request, dot11, order, table, e);
      }
    }
  }

  lemma EmplacedEmpty(request: Request, dot11: Dot11Ciphers)
    requires Emplaced(request, dot11)
    ensures dot11 == map[] <==> request == []
  {
    if request != [] {
      NamesOfEntry(request, request[0]);
      FirstTable(request, dot11, request[0].0);
    } else {
      assert forall p :: First(request, p) == None;
    }
  }

  /** The second table is not empty when the first is not. */
  lemma NothingLost(dot11: Dot11Ciphers, order: seq<Dot11SecurityProtocol>, table: Ieee80211Ciphers)
    requires Enumerates(order, dot11.Keys) && Emplaced(Ieee80211Pairs(dot11, order), table) && dot11 != map[]
    ensures table != map[]
  {
    var pairs := Ieee80211Pairs(dot11, order);
    var p :| p in dot11;
    var q := FromDot11SecurityProtocol(p);
    FirstIsOne(pairs, q);
    assert p in order;
    var i :| 0 <= i < |order| && order[i] == p;
    assert pairs[i] in pairs;
    assert First(pairs, q) == if q in table then Some(table[q]) else None;
  }

  lemma EntryFor(wpa: WpaCiphers, order: seq<WpaSecurityProtocol>, p: WpaSecurityProtocol)
    requires Enumerates(order, wpa.Keys)
    ensures p in wpa ==> ProtocolCiphers(p, wpa[p]) in Entries(wpa, order)
  {
    if p in wpa {
      assert p in order;
      var i :| 0 <= i < |order| && order[i] == p;
      assert Entries(wpa, order)[i] == ProtocolCiphers(p, wpa[p]);
    }
  }

  // ---------- What hostapd then has in force ----------

  function EntrySetting(e: ProtocolCiphers): Setting {
    Setting(match e.protocol
            case Wpa => "wpa_pairwise"
            case Wpa2 => "rsn_pairwise"
            case UnknownProtocol => "",
            CipherText(e.ciphers))
  }

  function EntrySettings(entries: seq<ProtocolCiphers>): seq<Setting> {
    if entries == [] then []
    else EntrySettings(entries[..|entries| - 1]) + [EntrySetting(entries[|entries| - 1])]
  }

  /** An entry that hostapd can be given. */
  predicate IsSettable(e: ProtocolCiphers) {
    e.protocol != UnknownProtocol && e.ciphers != [] && UnknownCipher !in e.ciphers && Sms4 !in e.ciphers
  }

  lemma SettableEntry(e: ProtocolCiphers)
    ensures ProtocolCiphersPlan(e, Now)
         == if IsSettable(e) then [Send(Set(EntrySetting(e).name, EntrySetting(e).value))] + [Send(Reload)] else [Throw]
  {
    forall c: WpaCipher
      ensures IsValidCipher(c) <==> c != UnknownCipher && c != Sms4
    {
    }
  }

  lemma EntryOutcome(v: Verdicts, d: Daemon, e: ProtocolCiphers)
    ensures var (d', ok) := Perform(v, d, ProtocolCiphersPlan(e, Now));
            && (ok <==> IsSettable(e) && |d.sent| in v && |d.sent| + 1 in v)
            && (ok ==> |d'.sent| == |d.sent| + 2)
            && (ok ==> d'.staged == d.staged + [EntrySetting(e)] && d'.active == d'.staged)
  {
    SettableEntry(e);
    PerformThrow(v, d);
    if IsSettable(e) {
      var command := Set(EntrySetting(e).name, EntrySetting(e).value);
      PerformAppend(v, d, [Send(command)], [Send(Reload)]);
      PerformOne(v, d, command);
      PerformOne(v, Exec(v, d, command), Reload);
    }
  }

  lemma AcceptsTwoMore(v: Verdicts, sent: nat, count: nat)
    ensures AcceptsNext(v, sent, count + 2)
        <==> AcceptsNext(v, sent, count) && sent + count in v && sent + count + 1 in v
  {
  }

  predicate AreSettable(entries: seq<ProtocolCiphers>) { forall e :: e in entries ==> IsSettable(e) }

  lemma SettableSnoc(entries: seq<ProtocolCiphers>)
    requires entries != []
    ensures AreSettable(entries)
        <==> AreSettable(entries[..|entries| - 1]) && IsSettable(entries[|entries| - 1])
  {
    var n := |entries| - 1;
    assert forall x :: x in entries <==> x in entries[..n] || x == entries[n];
  }

  /** What hostapd makes of the entries: success exactly when every one can be given to it and both commands for each
      are accepted, and then one property per entry, with the text of its ciphers, is staged. */
  ghost predicate IsOutcome(v: Verdicts, d: Daemon, entries: seq<ProtocolCiphers>, d': Daemon, ok: bool) {
    && (ok <==> AreSettable(entries) && AcceptsNext(v, |d.sent|, 2 * |entries|))
    && (ok ==> |d'.sent| == |d.sent| + 2 * |entries|)
    && (ok ==> d'.staged == d.staged + EntrySettings(entries))
  }

  lemma OneMoreEntry(v: Verdicts, d: Daemon, entries: seq<ProtocolCiphers>, d1: Daemon, d2: Daemon, ok: bool)
    requires entries != [] && IsOutcome(v, d, entries[..|entries| - 1], d1, true)
    requires ok <==> IsSettable(entries[|entries| - 1]) && |d1.sent| in v && |d1.sent| + 1 in v
    requires ok ==> |d2.sent| == |d1.sent| + 2 && d2.staged == d1.staged + [EntrySetting(entries[|entries| - 1])]
    ensures IsOutcome(v, d, entries, d2, ok)
  {
    var n := |entries| - 1;
    SettableSnoc(entries);
    AcceptsTwoMore(v, |d.sent|, 2 * n);
    Associate(d.staged, EntrySettings(entries[..n]), [EntrySetting(entries[n])]);
  }

  lemma EntryRejected(v: Verdicts, d: Daemon, entries: seq<ProtocolCiphers>, d1: Daemon)
    requires entries != [] && IsOutcome(v, d, entries[..|entries| - 1], d1, false)
    ensures IsOutcome(v, d, entries, d1, false)
  {
    SettableSnoc(entries);
    AcceptsTwoMore(v, |d.sent|, 2 * (|entries| - 1));
  }

  /** A call has that outcome, and after success what is staged is in force. */
  lemma {:induction false} CiphersInForce(v: Verdicts, d: Daemon, entries: seq<ProtocolCiphers>)
    ensures var (d', ok) := Perform(v, d, EachProtocolPlan(entries, Now));
            IsOutcome(v, d, entries, d', ok) && (ok && entries != [] ==> d'.active == d'.staged)
  {
    if entries != [] {
      var n := |entries| - 1;
      var (d1, ok1) := Perform(v, d, EachProtocolPlan(entries[..n], Now));
      PerformAppend(v, d, EachProtocolPlan(entries[..n], Now), ProtocolCiphersPlan(entries[n], Now));
      CiphersInForce(v, d, entries[..n]);
      if ok1 {
        var (d2, ok) := Perform(v, d1, ProtocolCiphersPlan(entries[n], Now));
        EntryOutcome(v, d1, entries[n]);
        OneMoreEntry(v, d, entries, d1, d2, ok);
      } else {
        EntryRejected(v, d, entries, d1);
      }
    }
  }

  lemma {:induction false} EntrySettingsCount(entries: seq<ProtocolCiphers>)
    ensures |EntrySettings(entries)| == |entries|
  {
    if entries != [] {
      EntrySettingsCount(entries[..|entries| - 1]);
    }
  }

  lemma {:induction false} EntrySettingsEach(entries: seq<ProtocolCiphers>)
    ensures forall e :: e in entries ==> EntrySetting(e) in EntrySettings(entries)
  {
    if entries != [] {
      var n := |entries| - 1;
      EntrySettingsEach(entries[..n]);
      assert forall x :: x in entries <==> x in entries[..n] || x == entries[n];
    }
  }

  // ---------- The ciphers that a property names ----------

  /** The number that the API has for a cipher, told from its name in a property; 0 for any other text. */
  function CipherNumber(name: string): Dot11CipherSuite {
    if name == "AES-128-CMAC" then 1
    else if name == "BIP-CMAC-256" then 2
    else if name == "BIP-GMAC-128" then 3
    else if name == "BIP-GMAC-256" then 4
    else if name == "CCMP" then 5
    else if name == "CCMP-256" then 6
    else if name == "GCMP" then 7
    else if name == "GCMP-256" then 8
    else if name == "GTK_NOT_USED" then 9
    else if name == "TKIP" then 10
    else if name == "NONE" then 11
    else if name == "WEP104" then 12
    else if name == "WEP40" then 13
    else 0
  }

  /** Each name ends with a space. */
  function CiphersNamed(text: string): seq<Dot11CipherSuite>
    decreases |text|
  {
    var i := Find(text, ' ');
    if text == "" then []
    else if i == |text| then [0]
    else [CipherNumber(text[..i])] + CiphersNamed(text[i + 1..])
  }

  function ConvertedOne(c: Dot11CipherSuite): WpaCipher { ToWpaCipher(FromDot11CipherSuite(c)) }

  lemma CipherReadBack(c: Dot11CipherSuite)
    requires 1 <= c <= 13
    ensures CipherNumber(WpaCipherPropertyValue(ConvertedOne(c))) == c
  {
    match c
    case 1 => assert ConvertedOne(c) == Aes128Cmac;
    case 2 => assert ConvertedOne(c) == BipCmac256;
    case 3 => assert ConvertedOne(c) == BipGmac128;
    case 4 => assert ConvertedOne(c) == BipGmac256;
    case 5 => assert ConvertedOne(c) == Ccmp;
    case 6 => assert ConvertedOne(c) == Ccmp256;
    case 7 => assert ConvertedOne(c) == Gcmp;
    case 8 => assert ConvertedOne(c) == Gcmp256;
    case 9 => assert ConvertedOne(c) == GtkNotUsed;
    case 10 => assert ConvertedOne(c) == Tkip;
    case 11 => assert ConvertedOne(c) == NoCipher;
    case 12 => assert ConvertedOne(c) == Wep104;
    case 13 => assert ConvertedOne(c) == Wep40;
  }

  lemma ConvertedIsKnown(c: Dot11CipherSuite)
    ensures ConvertedOne(c) != Sms4
    ensures ConvertedOne(c) == UnknownCipher <==> c < 1 || c > 13
  {
  }

  lemma NamedFirst(name: string, rest: string)
    requires ' ' !in name
    ensures CiphersNamed(name + " " + rest) == [CipherNumber(name)] + CiphersNamed(rest)
  {
    var text := name + " " + rest;
    assert text[..|name|] == name && text[|name|] == ' ' && text[|name| + 1..] == rest;
    FindIs(text, ' ', |name|);
  }

  /** Reading the text of the converted ciphers gives the numbers that were requested. */
  lemma {:induction false} CiphersReadBack(cs: seq<Dot11CipherSuite>)
    requires forall c :: c in cs ==> 1 <= c <= 13
    ensures CiphersNamed(CipherText(Converted(cs))) == cs
  {
    if cs != [] {
      assert cs[0] in cs;
      assert Converted(cs)[0] == ConvertedOne(cs[0]) && Converted(cs)[1..] == Converted(cs[1..]);
      assert forall c :: c in cs[1..] ==> c in cs;
      CipherReadBack(cs[0]);
      ConvertedIsKnown(cs[0]);
      CipherToken(ConvertedOne(cs[0]), ConvertedOne(cs[0]));
      CiphersReadBack(cs[1..]);
      NamedFirst(WpaCipherPropertyValue(ConvertedOne(cs[0])), CipherText(Converted(cs[1..])));
    }
  }

  /** Some setting of property `name` lists exactly these ciphers, which are known and not none. */
  ghost predicate Sets(settings: seq<Setting>, name: string, cs: seq<Dot11CipherSuite>) {
    && cs != [] && (forall c :: c in cs ==> 1 <= c <= 13)
    && exists value :: Setting(name, value) in settings && CiphersNamed(value) == cs
  }

  /** What `settings` must be for a request: the ciphers of WPA1 in "wpa_pairwise" and those of WPA2 or WPA3 in
      "rsn_pairwise", for both named together those of one of them, and nothing else. */
  ghost predicate Honours(settings: seq<Setting>, request: Request) {
    && |settings| == (if Names(request, 1) then 1 else 0) + (if Names(request, 2) || Names(request, 3) then 1 else 0)
    && (Names(request, 1) ==> Sets(settings, "wpa_pairwise", Requested(request, 1)))
    && (Names(request, 2) || Names(request, 3) ==>
          || (Names(request, 2) && Sets(settings, "rsn_pairwise", Requested(request, 2)))
          || (Names(request, 3) && Sets(settings, "rsn_pairwise", Requested(request, 3))))
  }

  lemma GivesSets(entries: seq<ProtocolCiphers>, q: WpaSecurityProtocol, request: Request, p: Dot11SecurityProtocol)
    requires Gives(entries, q, request, p) && AreSettable(entries)
    ensures Sets(EntrySettings(entries), if q == Wpa then "wpa_pairwise" else "rsn_pairwise", Requested(request, p))
  {
    var cs := Requested(request, p);
    var e := ProtocolCiphers(q, Converted(cs));
    assert IsSettable(e);
    forall c | c in cs
      ensures 1 <= c <= 13
    {
      var i :| 0 <= i < |cs| && cs[i] == c;
      assert Converted(cs)[i] in e.ciphers && Converted(cs)[i] == ConvertedOne(c);
      ConvertedIsKnown(c);
    }
    CiphersReadBack(cs);
    EntrySettingsEach(entries);
    assert EntrySetting(e) in EntrySettings(entries);
  }

  lemma EntriesHonour(request: Request, entries: seq<ProtocolCiphers>)
    requires Preserves(entries, request) && AreSettable(entries)
    ensures Honours(EntrySettings(entries), request)
  {
    EntrySettingsCount(entries);
    if Gives(entries, Wpa, request, 1) { GivesSets(entries, Wpa, request, 1); }
    if Gives(entries, Wpa2, request, 2) { GivesSets(entries, Wpa2, request, 2); }
    if Gives(entries, Wpa2, request, 3) { GivesSets(entries, Wpa2, request, 3); }
  }

  /** From the request to the configuration in force: after a successful call exactly the settings that honour
      the request have been added. */
  lemma CipherSuitesEndToEnd(v: Verdicts, d: Daemon, request: Request, entries: seq<ProtocolCiphers>)
    requires LeadsTo(request, entries) && Perform(v, d, PairwiseCiphersPlan(entries, Now)).1
    ensures Perform(v, d, PairwiseCiphersPlan(entries, Now)).0.active == d.staged + EntrySettings(entries)
    ensures Honours(EntrySettings(entries), request)
  {
    PerformThrow(v, d);
    CiphersInForce(v, d, entries);
    CiphersPreserved(request, entries);
    EntriesHonour(request, entries);
  }

  /** The text of a property tells which ciphers were requested, and in which order. */
  lemma RequestedCiphersReadable(a: seq<Dot11CipherSuite>, b: seq<Dot11CipherSuite>)
    requires AllValidCiphers(Converted(a)) && AllValidCiphers(Converted(b))
    requires CipherText(Converted(a)) == CipherText(Converted(b))
    ensures a == b
  {
    CipherTextInjective(Converted(a), Converted(b));
    forall i | 0 <= i < |a|
      ensures a[i] == b[i]
    {
      assert Converted(a)[i] in Converted(a) && Converted(a)[i] == Converted(b)[i];
      ConversionInjective(a[i], b[i]);
    }
  }

  lemma ConversionInjective(x: Dot11CipherSuite, y: Dot11CipherSuite)
    requires ToWpaCipher(FromDot11CipherSuite(x)) == ToWpaCipher(FromDot11CipherSuite(y))
    requires IsValidCipher(ToWpaCipher(FromDot11CipherSuite(x)))
    ensures x == y
  {
  }
}
