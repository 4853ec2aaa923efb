/** WpaStatusResponseParser: the answer to STATUS, decoded from the table of its properties, which is iterated in
    the unspecified order of a hash table. */
module StatusDecoder {
  import opened Wrappers
  import opened Sequences
  import opened Text
  import opened HashTable
  import opened ResponseParser

  datatype HostapdInterfaceState =
    | Uninitialized | Disabled | Enabled | CountryUpdate | Acs | HtScan | Dfs | NoIr | UnknownState

  /** Nothing ever writes the index. */
  datatype BssInfo = BssInfo(index: int, numStations: int, bssid: string, interface: string, ssid: string)

  datatype HostapdStatus = HostapdStatus(
    state: HostapdInterfaceState,
    ieee80211n: int, disable11n: int,
    ieee80211ac: int, disable11ac: int,
    ieee80211ax: int, disable11ax: int,
    bss: seq<BssInfo>)

  const NEW_BSS := BssInfo(0, 0, "", "", "")
  const NEW_STATUS := HostapdStatus(UnknownState, 0, 0, 0, 0, 0, 0, [])

  // ---------- Values ----------

  /** The first name in this order that the text starts with. */
  function InterfaceState(text: string): HostapdInterfaceState {
    if "UNINITIALIZED" <= text then Uninitialized
    else if "DISABLED" <= text then Disabled
    else if "ENABLED" <= text then Enabled
    else if "COUNTRY_UPDATE" <= text then CountryUpdate
    else if "ACS" <= text then Acs
    else if "HT_SCAN" <= text then HtScan
    else if "DFS" <= text then Dfs
    else if "NO_IR" <= text then NoIr
    else UnknownState
  }

  /** The state that a text stands for: whatever follows the name does not matter. */
  predicate IsNameOf(text: string, state: HostapdInterfaceState) {
    match state
    case Uninitialized => "UNINITIALIZED" <= text
    case Disabled => "DISABLED" <= text
    case Enabled => "ENABLED" <= text
    case CountryUpdate => "COUNTRY_UPDATE" <= text
    case Acs => "ACS" <= text
    case HtScan => "HT_SCAN" <= text
    case Dfs => "DFS" <= text
    case NoIr => "NO_IR" <= text
    case UnknownState =>
      && !("UNINITIALIZED" <= text) && !("DISABLED" <= text) && !("ENABLED" <= text) && !("COUNTRY_UPDATE" <= text)
      && !("ACS" <= text) && !("HT_SCAN" <= text) && !("DFS" <= text) && !("NO_IR" <= text)
  }

  /** A text stands for exactly one state, the one it is decoded to. */
  lemma InterfaceStateIsNamed(text: string, state: HostapdInterfaceState)
    ensures IsNameOf(text, state) <==> InterfaceState(text) == state
  {
    if text != "" {
      assert "UNINITIALIZED"[0] == 'U' && "ENABLED"[0] == 'E' && "COUNTRY_UPDATE"[0] == 'C';
      assert "ACS"[0] == 'A' && "HT_SCAN"[0] == 'H' && "NO_IR"[0] == 'N';
      assert "DISABLED"[0] == 'D' && "DISABLED"[1] == 'I' && "DFS"[0] == 'D' && "DFS"[1] == 'F';
    }
  }

  const INT_MIN: int := -0x8000_0000
  const INT_MAX: int := 0x7FFF_FFFF

  /** The number that the leading digits make, if there are any. */
  function Magnitude(digits: string): Option<nat> {
    var n := DigitRun(digits);
    if n == 0 then None else Some(DigitsValue(digits[..n]))
  }

  /** std::from_chars: the number that the text starts with; without one, or when it is out of range, the
      variable keeps its value. What follows the number is ignored. */
  function ParseInt(text: string, before: int): int {
    var negative := text != "" && text[0] == '-';
    match Magnitude(if negative then text[1..] else text)
    case None => before
    case Some(magnitude) =>
      var v: int := if negative then 0 - magnitude else magnitude;
      if INT_MIN <= v <= INT_MAX then v else before
  }

  lemma DigitsAreRead(digits: string, rest: string)
    requires digits != "" && (forall c :: c in digits ==> IsDigit(c)) && (rest == "" || !IsDigit(rest[0]))
    ensures Magnitude(digits + rest) == Some(DigitsValue(digits)) && (digits + rest)[0] != '-'
  {
    DigitRunOf(digits, rest);
    assert (digits + rest)[..|digits|] == digits;
    assert (digits + rest)[0] == digits[0] && digits[0] in digits;
  }

  function Fitting(n: int, before: int): int { if -0x8000_0000 <= n <= 0x7FFF_FFFF then n else before }

  lemma ParseIntOf(text: string, magnitude: nat, before: int)
    requires text != "" && Magnitude(if text[0] == '-' then text[1..] else text) == Some(magnitude)
    ensures var n: int := if text[0] == '-' then 0 - magnitude else magnitude;
            ParseInt(text, before) == Fitting(n, before)
  {
  }

  /** A number is read whatever follows it that is not a digit, and kept out when it does not fit into 32 bits. */
  lemma ParseIntReads(digits: string, rest: string, before: int)
    requires digits != "" && (forall c :: c in digits ==> IsDigit(c)) && (rest == "" || !IsDigit(rest[0]))
    ensures ParseInt(digits + rest, before) == Fitting(DigitsValue(digits), before)
    ensures ParseInt("-" + (digits + rest), before) == Fitting(0 - DigitsValue(digits), before)
  {
    var number := digits + rest;
    DigitsAreRead(digits, rest);
    ParseIntOf(number, DigitsValue(digits), before);
    assert ("-" + number)[1..] == number;
    ParseIntOf("-" + number, DigitsValue(digits), before);
  }

  /** Where no number stands nothing is read. */
  lemma ParseIntKeeps(text: string, before: int)
    requires || text == ""
             || (text[0] != '-' && !IsDigit(text[0]))
             || (text[0] == '-' && (|text| == 1 || !IsDigit(text[1])))
    ensures ParseInt(text, before) == before
  {
  }

  /** A printed 32-bit number is read back, whatever follows it that is not a digit. */
  lemma ParseIntReadsBack(n: int, rest: string, before: int)
    requires -0x8000_0000 <= n <= 0x7FFF_FFFF && (rest == "" || !IsDigit(rest[0]))
    ensures ParseInt(SignedDecimal(n) + rest, before) == n
  {
    if n < 0 {
      DecimalValue(-n);
      ParseIntReads(Decimal(-n), rest, before);
      Associate("-", Decimal(-n), rest);
    } else {
      DecimalValue(n);
      ParseIntReads(Decimal(n), rest, before);
    }
  }

  // ---------- What a table means ----------

  const BSS_KEYS := {"bss", "bssid", "ssid", "num_sta"}

  /** Using an index that is missing throws. The largest index, whose successor wraps around to 0, makes the
      list too short for the access that follows; this is counted as a failure here. */
  predicate HasBssIndex(e: Entry) { e.index.Some? && e.index.value + 1 < ULONG_MODULUS }

  predicate Decodes(m: Properties) { forall k :: k in BSS_KEYS && k in m ==> HasBssIndex(m[k]) }

  function Extent(m: Properties, key: string): nat {
    if key in m && m[key].index.Some? then m[key].index.value + 1 else 0
  }

  function Max(a: nat, b: nat): nat { if a < b then b else a }

  function BssCount(m: Properties): nat {
    Max(Max(Extent(m, "bss"), Extent(m, "bssid")), Max(Extent(m, "ssid"), Extent(m, "num_sta")))
  }

  function IntOf(m: Properties, key: string): int { if key in m then ParseInt(m[key].value, 0) else 0 }

  predicate IsAt(m: Properties, key: string, i: nat) { key in m && m[key].index == Some(i) }

  function BssText(m: Properties, key: string, i: nat): string { if IsAt(m, key, i) then m[key].value else "" }

  function Bss(m: Properties, i: nat): BssInfo {
    BssInfo(0, if IsAt(m, "num_sta", i) then ParseInt(m["num_sta"].value, 0) else 0,
            BssText(m, "bssid", i), BssText(m, "bss", i), BssText(m, "ssid", i))
  }

  function BssList(m: Properties): (list: seq<BssInfo>)
    ensures |list| == BssCount(m) && forall i :: 0 <= i < |list| ==> list[i] == Bss(m, i)
  {
    seq(BssCount(m), i requires 0 <= i => Bss(m, i))
  }

  /** The status that a table describes, without any order. */
  function StatusOf(m: Properties): HostapdStatus {
    HostapdStatus(
      if "state" in m then InterfaceState(m["state"].value) else UnknownState,
      IntOf(m, "ieee80211n"), IntOf(m, "disable_11n"),
      IntOf(m, "ieee80211ac"), IntOf(m, "disable_11ac"),
      IntOf(m, "ieee80211ax"), IntOf(m, "disable_11ax"),
      BssList(m))
  }

  /** The list is one longer than the largest index of a BSS property, or empty without any. */
  lemma BssCountIsLargest(m: Properties)
    requires Decodes(m)
    ensures |StatusOf(m).bss| == 0 <==> forall k :: k in BSS_KEYS ==> k !in m
    ensures forall k :: k in BSS_KEYS && k in m ==> m[k].index.value < |StatusOf(m).bss|
    ensures |StatusOf(m).bss| > 0 ==> exists k :: k in BSS_KEYS && IsAt(m, k, |StatusOf(m).bss| - 1)
  {
  }

  // ---------- The decoder ----------

  function Resized(bss: seq<BssInfo>, required: nat): (r: seq<BssInfo>)
    ensures |r| == Max(|bss|, required)
    ensures forall i :: 0 <= i < |r| ==> r[i] == if i < |bss| then bss[i] else NEW_BSS
  {
    if |bss| < required then bss + seq(required - |bss|, _ => NEW_BSS) else bss
  }

  lemma NewBssCount(m: Properties, key: string, e: Entry)
    requires key in BSS_KEYS && key !in m && HasBssIndex(e)
    ensures BssCount(m[key := e]) == Max(BssCount(m), e.index.value + 1)
  {
  }

  lemma OtherBss(m: Properties, key: string, e: Entry, i: nat)
    requires key !in m && e.index != Some(i)
    ensures Bss(m[key := e], i) == Bss(m, i)
  {
  }

  /** The list with a new property is the old one made long enough and changed in one place. */
  lemma NewBssProperty(m: Properties, key: string, e: Entry, bss: seq<BssInfo>)
    requires key in BSS_KEYS && key !in m && HasBssIndex(e)
    requires |bss| == Max(|BssList(m)|, e.index.value + 1)
    requires forall i :: 0 <= i < |bss| && i != e.index.value ==>
               bss[i] == if i < |BssList(m)| then BssList(m)[i] else NEW_BSS
    requires bss[e.index.value] == Bss(m[key := e], e.index.value)
    ensures bss == BssList(m[key := e])
  {
    NewBssCount(m, key, e);
    forall i | 0 <= i < |bss| && i != e.index.value
      ensures bss[i] == Bss(m[key := e], i)
    {
      OtherBss(m, key, e, i);
      if i >= |BssList(m)| {
        BeyondTheList(m, i);
      }
    }
  }

  lemma BeyondTheList(m: Properties, i: nat)
    requires i >= BssCount(m)
    ensures Bss(m, i) == NEW_BSS
  {
  }

  /** However the table is iterated, the result is the status that it describes; there is none exactly when
      the index of a BSS property is missing. */
  method ParsePayload(properties: Properties) returns (result: Option<HostapdStatus>)
    ensures result == if Decodes(properties) then Some(StatusOf(properties)) else None
  {
    var status := NEW_STATUS;
    var order := Iterate(properties.Keys);
    PartOfNone(properties);
    for i := 0 to |order|
      invariant Decodes(Part(properties, order[..i]))
      invariant status == StatusOf(Part(properties, order[..i]))
    {
      PartGrows(properties, order, i);
      var next := DecodeProperty(status, order[i], properties[order[i]], Part(properties, order[..i]));
      if next.None? {
        return None;
      }
      status := next.value;
    }
    PartOfAll(properties, order);
    return Some(status);
  }

  /** The part of a table that an iteration has visited. */
  function Part(m: Properties, visited: seq<string>): Properties { map k | k in m && k in visited :: m[k] }

  lemma PartOfNone(m: Properties)
    ensures Decodes(Part(m, [])) && StatusOf(Part(m, [])) == NEW_STATUS
  {
  }

  lemma PartGrows(m: Properties, order: seq<string>, i: nat)
    requires Enumerates(order, m.Keys) && i < |order|
    ensures order[i] in m && order[i] !in Part(m, order[..i])
    ensures Part(m, order[..i + 1]) == Part(m, order[..i])[order[i] := m[order[i]]]
  {
    assert order[i] in order && order[..i + 1] == order[..i] + [order[i]];
  }

  lemma PartOfAll(m: Properties, order: seq<string>)
    requires Enumerates(order, m.Keys)
    ensures Part(m, order[..|order|]) == m
  {
  }

  /** The loop body. */
  method DecodeProperty(status: HostapdStatus, key: string, e: Entry, ghost seen: Properties)
    returns (result: Option<HostapdStatus>)
    requires key !in seen && status == StatusOf(seen)
    ensures result == if key in BSS_KEYS && !HasBssIndex(e) then None else Some(StatusOf(seen[key := e]))
  {
    if key !in BSS_KEYS {
      var decoded := DecodeGlobal(status, key, e, seen);
      return Some(decoded);
    }
    if !HasBssIndex(e) {
      return None;
    }
    var bss := DecodeBss(status.bss, key, e, seen);
    OnlyBssChanges(seen, key, e);
    return Some(status.(bss := bss));
  }

  /** The part of the loop body for properties of the interface as a whole. */
  method DecodeGlobal(status: HostapdStatus, key: string, e: Entry, ghost seen: Properties)
    returns (result: HostapdStatus)
    requires key !in BSS_KEYS && key !in seen && status == StatusOf(seen)
    ensures result == StatusOf(seen[key := e])
  {
    result := status;
    if key == "state" {
      result := status.(state := InterfaceState(e.value));
    } else if key == "ieee80211n" {
      result := status.(ieee80211n := ParseInt(e.value, status.ieee80211n));
    } else if key == "disable_11n" {
      result := status.(disable11n := ParseInt(e.value, status.disable11n));
    } else if key == "ieee80211ac" {
      result := status.(ieee80211ac := ParseInt(e.value, status.ieee80211ac));
    } else if key == "disable_11ac" {
      result := status.(disable11ac := ParseInt(e.value, status.disable11ac));
    } else if key == "ieee80211ax" {
      result := status.(ieee80211ax := ParseInt(e.value, status.ieee80211ax));
    } else if key == "disable_11ax" {
      result := status.(disable11ax := ParseInt(e.value, status.disable11ax));
    }
    OtherProperty(seen, key, e);
  }

  lemma OtherProperty(m: Properties, key: string, e: Entry)
    requires key !in BSS_KEYS
    ensures BssList(m[key := e]) == BssList(m)
  {
  }

  /** The part for properties of one BSS, which first makes the list long enough. */
  method DecodeBss(bss: seq<BssInfo>, key: string, e: Entry, ghost seen: Properties) returns (result: seq<BssInfo>)
    requires key in BSS_KEYS && HasBssIndex(e) && key !in seen && bss == BssList(seen)
    ensures result == BssList(seen[key := e])
  {
    var n := e.index.value;
    result := Resized(bss, n + 1);
    if n >= |bss| {
      BeyondTheList(seen, n);
    }
    assert result[n] == Bss(seen, n);
    result := result[n := WithProperty(result[n], key, e.value)];
    NewInBss(seen, key, e);
    NewBssProperty(seen, key, e, result);
  }

  lemma OnlyBssChanges(m: Properties, key: string, e: Entry)
    requires key in BSS_KEYS
    ensures StatusOf(m[key := e]) == StatusOf(m).(bss := BssList(m[key := e]))
  {
  }

  function WithProperty(bss: BssInfo, key: string, value: string): BssInfo
    requires key in BSS_KEYS
  {
    if key == "bss" then bss.(interface := value)
    else if key == "bssid" then bss.(bssid := value)
    else if key == "ssid" then bss.(ssid := value)
    else bss.(numStations := ParseInt(value, bss.numStations))
  }

  lemma NewInBss(m: Properties, key: string, e: Entry)
    requires key in BSS_KEYS && key !in m && HasBssIndex(e)
    ensures Bss(m[key := e], e.index.value) == WithProperty(Bss(m, e.index.value), key, e.value)
  {
  }

  // ---------- From the payload to the status ----------

  const STATUS_PROPERTIES: seq<WpaKeyValuePair> := [
    WpaKeyValuePair("state", Required), WpaKeyValuePair("ieee80211n", Required),
    WpaKeyValuePair("ieee80211ac", Required), WpaKeyValuePair("ieee80211ax", Required),
    WpaKeyValuePair("bss", Required), WpaKeyValuePair("ssid", Required), WpaKeyValuePair("bssid", Required),
    WpaKeyValuePair("num_sta", Required)]

  /** What a payload says, line by line and without any iteration order; None where the source throws. */
  function Meaning(payload: string): Option<HostapdStatus> {
    var parsed := Parsed(payload);
    if Readable(parsed) < |parsed| || !Decodes(Fill(map[], parsed)) then None
    else Some(StatusOf(Fill(map[], parsed)))
  }

  /** WpaResponseParser::Parse for a STATUS response. */
  method Parse(payload: string) returns (result: Option<HostapdStatus>)
    ensures result == Meaning(payload)
  {
    ghost var parsed := Parsed(payload);
    var parser := new WpaResponseParser(payload, STATUS_PROPERTIES);
    var isParsed := parser.TryParseProperties();
    if isParsed.None? {
      return None;
    }
    assert parsed[..|parsed|] == parsed;
    result := ParsePayload(parser.properties);
  }

  /** A printed table is understood as the status that it describes, whatever the order of its lines. */
  lemma PrintedStatusDecoded(m: Properties, order: seq<string>)
    requires IsPrintable(m) && Enumerates(order, m.Keys) && Decodes(m)
    ensures Meaning(Print(m, order)) == Some(StatusOf(m))
  {
    RoundTrip(m, order);
  }

  // ---------- More than one BSS ----------

  const BSS_TEXT_KEYS := {"bss", "bssid", "ssid"}

  function BssField(b: BssInfo, key: string): string
    requires key in BSS_TEXT_KEYS
  {
    if key == "bss" then b.interface else if key == "bssid" then b.bssid else b.ssid
  }

  lemma {:induction false} LastOrNone(parsed: seq<Line>, key: string)
    ensures (exists k: nat :: IsLastFor(parsed, key, k)) || forall k :: 0 <= k < |parsed| ==> !IsFor(parsed[k], key)
  {
    if parsed != [] {
      var n := |parsed| - 1;
      if IsFor(parsed[n], key) {
        assert IsLastFor(parsed, key, n);
      } else {
        LastOrNone(parsed[..n], key);
        if k: nat :| IsLastFor(parsed[..n], key, k) {
          assert IsLastFor(parsed, key, k);
        }
      }
    }
  }

  /** What the table has for a key at an index: the last line for the key, if it has that index. */
  lemma TableHasLastLine(parsed: seq<Line>, key: string, e: Entry)
    ensures key in Fill(map[], parsed) && Fill(map[], parsed)[key] == e
        <==> exists k: nat :: IsLastFor(parsed, key, k) && parsed[k].entry == e
  {
    LastOrNone(parsed, key);
    if k: nat :| IsLastFor(parsed, key, k) {
      LastLineWins(map[], parsed, key, k);
      forall j: nat | IsLastFor(parsed, key, j)
        ensures Fill(map[], parsed)[key] == parsed[j].entry
      {
        LastLineWins(map[], parsed, key, j);
      }
    } else {
      KeyWithoutLines(map[], parsed, key);
    }
  }

  lemma FieldIsText(m: Properties, key: string, i: nat)
    requires key in BSS_TEXT_KEYS
    ensures BssField(Bss(m, i), key) == BssText(m, key, i)
    ensures IsAt(m, key, i) ==> i < BssCount(m)
  {
  }

  /** For any payload that is understood: a BSS of the status has a name, an address or an SSID exactly when the last
      line for that key, its index stripped, gives it at this very index. Lines for other BSSs that come before
      that one are lost. */
  lemma OnlyLastLineKnown(payload: string, key: string, i: nat, value: string)
    requires Meaning(payload).Some? && key in BSS_TEXT_KEYS && value != ""
    ensures var bss, parsed := Meaning(payload).value.bss, Parsed(payload);
            (i < |bss| && BssField(bss[i], key) == value)
            <==> exists k: nat :: IsLastFor(parsed, key, k) && parsed[k].entry == Entry(value, Some(i))
  {
    TableHasLastLine(Parsed(payload), key, Entry(value, Some(i)));
    KnownFromTable(Fill(map[], Parsed(payload)), key, i, value);
  }

  lemma KnownFromTable(m: Properties, key: string, i: nat, value: string)
    requires key in BSS_TEXT_KEYS && value != ""
    ensures i < |BssList(m)| && BssField(BssList(m)[i], key) == value <==> key in m && m[key] == Entry(value, Some(i))
  {
    FieldIsText(m, key, i);
    assert i < BssCount(m) ==> BssList(m)[i] == Bss(m, i);
  }

  /** So of two lines for the same key with different indexes the earlier one leaves nothing behind, in whichever
      order the indexes come: its BSS has an empty field, or the list does not even reach it. */
  lemma LaterBssReplacesEarlier(payload: string, key: string, a: nat, b: nat, i: nat)
    requires Meaning(payload).Some? && key in BSS_TEXT_KEYS
    requires a < b && IsLastFor(Parsed(payload), key, b) && IsFor(Parsed(payload)[a], key)
    requires Parsed(payload)[a].entry.index == Some(i) && Parsed(payload)[b].entry.index != Some(i)
    ensures var bss := Meaning(payload).value.bss;
            i < |bss| ==> BssField(bss[i], key) == ""
  {
    var bss, parsed := Meaning(payload).value.bss, Parsed(payload);
    forall k: nat | IsLastFor(parsed, key, k)
      ensures k == b
    {
      LastIsUnique(parsed, key, k, b);
    }
    if i < |bss| && BssField(bss[i], key) != "" {
      OnlyLastLineKnown(payload, key, i, BssField(bss[i], key));
    }
  }

  lemma LastIsUnique(parsed: seq<Line>, key: string, j: nat, k: nat)
    requires IsLastFor(parsed, key, j) && IsLastFor(parsed, key, k)
    ensures j == k
  {
  }

  // ---------- What a payload says ----------

  /** The last line for a key gives it this value. */
  ghost predicate HasValue(parsed: seq<Line>, key: string, value: string) {
    exists k: nat :: IsLastFor(parsed, key, k) && parsed[k].entry.value == value
  }

  predicate HasNoLine(parsed: seq<Line>, key: string) { forall k :: 0 <= k < |parsed| ==> !IsFor(parsed[k], key) }

  lemma ValueInTable(parsed: seq<Line>, key: string, value: string)
    requires HasValue(parsed, key, value)
    ensures key in Fill(map[], parsed) && Fill(map[], parsed)[key].value == value
  {
    var k: nat :| IsLastFor(parsed, key, k) && parsed[k].entry.value == value;
    LastLineWins(map[], parsed, key, k);
  }

  /** The last line for a key of a BSS has an index, and one whose successor is a number of 64 bits. */
  ghost predicate HasUsableIndex(parsed: seq<Line>, key: string) {
    forall k: nat :: IsLastFor(parsed, key, k) ==>
      parsed[k].entry.index.Some? && parsed[k].entry.index.value < 0xFFFF_FFFF_FFFF_FFFF
  }

  lemma UsableIndex(parsed: seq<Line>, key: string)
    ensures HasUsableIndex(parsed, key) <==> key !in Fill(map[], parsed) || HasBssIndex(Fill(map[], parsed)[key])
  {
    forall k: nat | IsLastFor(parsed, key, k)
      ensures key in Fill(map[], parsed) && Fill(map[], parsed)[key] == parsed[k].entry
    {
      LastLineWins(map[], parsed, key, k);
    }
    LastOrNone(parsed, key);
    if forall k :: 0 <= k < |parsed| ==> !IsFor(parsed[k], key) {
      KeyWithoutLines(map[], parsed, key);
    }
  }

  /** A payload is understood exactly when all its lines are readable and the last line for each key of a BSS has a
      usable index. */
  lemma UnderstoodExactly(payload: string)
    ensures var parsed := Parsed(payload);
            Meaning(payload).Some? <==>
              && (forall k :: 0 <= k < |parsed| ==> !parsed[k].Unreadable?)
              && HasUsableIndex(parsed, "bss") && HasUsableIndex(parsed, "bssid")
              && HasUsableIndex(parsed, "ssid") && HasUsableIndex(parsed, "num_sta")
  {
    var parsed := Parsed(payload);
    UsableIndex(parsed, "bss");
    UsableIndex(parsed, "bssid");
    UsableIndex(parsed, "ssid");
    UsableIndex(parsed, "num_sta");
    assert Readable(parsed) < |parsed| ==> parsed[Readable(parsed)].Unreadable?;
    assert "bss" in BSS_KEYS && "bssid" in BSS_KEYS && "ssid" in BSS_KEYS && "num_sta" in BSS_KEYS;
  }

  /** For any payload that is understood: the state is the one that the last line for it names, and unknown without
      such a line. */
  lemma StateKnown(payload: string, value: string)
    requires Meaning(payload).Some?
    ensures HasValue(Parsed(payload), "state", value) ==> IsNameOf(value, Meaning(payload).value.state)
    ensures HasNoLine(Parsed(payload), "state") ==> Meaning(payload).value.state == UnknownState
  {
    if HasValue(Parsed(payload), "state", value) {
      ValueInTable(Parsed(payload), "state", value);
      InterfaceStateIsNamed(value, InterfaceState(value));
    }
    if HasNoLine(Parsed(payload), "state") {
      KeyWithoutLines(map[], Parsed(payload), "state");
    }
  }

  const NUMBER_KEYS := {"ieee80211n", "disable_11n", "ieee80211ac", "disable_11ac", "ieee80211ax", "disable_11ax"}

  function NumberField(status: HostapdStatus, key: string): int
    requires key in NUMBER_KEYS
  {
    if key == "ieee80211n" then status.ieee80211n
    else if key == "disable_11n" then status.disable11n
    else if key == "ieee80211ac" then status.ieee80211ac
    else if key == "disable_11ac" then status.disable11ac
    else if key == "ieee80211ax" then status.ieee80211ax
    else status.disable11ax
  }

  lemma NumberFromTable(m: Properties, key: string)
    requires key in NUMBER_KEYS
    ensures NumberField(StatusOf(m), key) == if key in m then ParseInt(m[key].value, 0) else 0
  {
  }

  /** Likewise each of the six numbers is the one that the last line for its key starts with, and 0 without such a
      line. */
  lemma NumberKnown(payload: string, key: string, n: int, rest: string)
    requires Meaning(payload).Some? && key in NUMBER_KEYS
    requires -0x8000_0000 <= n <= 0x7FFF_FFFF && (rest == "" || !IsDigit(rest[0]))
    ensures HasValue(Parsed(payload), key, SignedDecimal(n) + rest) ==> NumberField(Meaning(payload).value, key) == n
    ensures HasNoLine(Parsed(payload), key) ==> NumberField(Meaning(payload).value, key) == 0
  {
    NumberFromTable(Fill(map[], Parsed(payload)), key);
    if HasValue(Parsed(payload), key, SignedDecimal(n) + rest) {
      ValueInTable(Parsed(payload), key, SignedDecimal(n) + rest);
      ParseIntReadsBack(n, rest, 0);
    }
    if HasNoLine(Parsed(payload), key) {
      KeyWithoutLines(map[], Parsed(payload), key);
    }
  }

  lemma StationsFromTable(m: Properties, i: nat)
    requires i < BssCount(m)
    ensures StatusOf(m).bss[i].numStations == if IsAt(m, "num_sta", i) then ParseInt(m["num_sta"].value, 0) else 0
  {
  }

  /** And the number of stations of a BSS is the one that the last line for it starts with, if that line is about this
      very BSS; otherwise it is 0. */
  lemma StationsKnown(payload: string, k: nat, i: nat, n: int, rest: string)
    requires Meaning(payload).Some? && IsLastFor(Parsed(payload), "num_sta", k)
    requires -0x8000_0000 <= n <= 0x7FFF_FFFF && (rest == "" || !IsDigit(rest[0]))
    requires Parsed(payload)[k].entry.value == SignedDecimal(n) + rest
    ensures var entry, bss := Parsed(payload)[k].entry, Meaning(payload).value.bss;
            && (entry.index == Some(i) ==> i < |bss|)
            && (i < |bss| ==> bss[i].numStations == if entry.index == Some(i) then n else 0)
  {
    var m := Fill(map[], Parsed(payload));
    LastLineWins(map[], Parsed(payload), "num_sta", k);
    ParseIntReadsBack(n, rest, 0);
    if i < BssCount(m) {
      StationsFromTable(m, i);
    }
  }

  lemma StationsUnknown(payload: string, i: nat)
    requires Meaning(payload).Some? && i < |Meaning(payload).value.bss| && HasNoLine(Parsed(payload), "num_sta")
    ensures Meaning(payload).value.bss[i].numStations == 0
  {
    KeyWithoutLines(map[], Parsed(payload), "num_sta");
    StationsFromTable(Fill(map[], Parsed(payload)), i);
  }
}
