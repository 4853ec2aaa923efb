/** Which SAE passwords share their property text, and a class of them that holds exactly one for every text. */
module SaePasswordTexts {
  import opened Wrappers
  import opened Text
  import opened HostapdProtocol
  import opened PropertyCodecs

  // ---------- Tags ----------

  const ID_TAG := "|id="
  const MAC_TAG := "|mac="
  const VLAN_TAG := "|vlanid="

  /** A tag starts with the separator and has it nowhere else. */
  predicate IsTag(tag: string) { tag != "" && tag[0] == '|' && '|' !in tag[1..] }

  /** The position of the first occurrence of the tag, or |s| when there is none. */
  function Search(s: string, tag: string): (i: nat)
    requires tag != ""
    ensures i <= |s|
    ensures i < |s| ==> i + |tag| <= |s| && s[i..i + |tag|] == tag
  {
    if s == "" || tag <= s then 0 else 1 + Search(s[1..], tag)
  }

  predicate Holds(s: string, tag: string)
    requires tag != ""
  {
    Search(s, tag) < |s|
  }

  /** An occurrence does not reach across the start of another separator. */
  lemma {:induction false} SearchAppend(a: string, u: string, tag: string)
    requires IsTag(tag) && (u == "" || u[0] == '|')
    ensures Holds(a, tag) ==> Search(a + u, tag) == Search(a, tag)
    ensures !Holds(a, tag) ==> Search(a + u, tag) == |a| + Search(u, tag)
  {
    if a == "" {
      assert a + u == u;
    } else {
      assert (a + u)[1..] == a[1..] + u;
      SearchAppend(a[1..], u, tag);
      PrefixWithin(a, u, tag);
    }
  }

  lemma PrefixWithin(a: string, u: string, tag: string)
    requires IsTag(tag) && a != "" && (u == "" || u[0] == '|')
    ensures tag <= a + u <==> tag <= a
  {
    if |a| < |tag| {
      assert tag[|a|] == tag[1..][|a| - 1];
      assert u != "" ==> (a + u)[|a|] == '|';
    } else {
      assert (a + u)[..|tag|] == a[..|tag|];
    }
  }

  /** A text that starts with another tag is searched behind it. */
  lemma SearchBehind(tag: string, other: string, x: string)
    requires IsTag(tag) && IsTag(other) && !(tag <= other) && !(other <= tag)
    ensures Search(other + x, tag) == |other| + Search(x, tag)
  {
    var s := other + x;
    assert |tag| <= |other| ==> s[..|tag|] == other[..|tag|];
    assert |other| <= |tag| <= |s| ==> s[..|tag|][..|other|] == other;
    assert s[1..] == other[1..] + x;
    SearchPlain(tag, other[1..], x);
  }

  lemma {:induction false} SearchPlain(tag: string, plain: string, x: string)
    requires IsTag(tag) && '|' !in plain
    ensures Search(plain + x, tag) == |plain| + Search(x, tag)
  {
    if plain == "" {
      assert plain + x == x;
    } else {
      assert (plain + x)[1..] == plain[1..] + x && (plain + x)[0] == plain[0] && plain[0] in plain;
      SearchPlain(tag, plain[1..], x);
    }
  }

  function Tagged(tag: string, value: Option<string>): string { if value.Some? then tag + value.value else "" }

  /** A text with at most one tagged part behind a part without the tag can be taken apart in one way only. */
  lemma SplitAtTag(tag: string, a: string, v: Option<string>, b: string, w: Option<string>)
    requires IsTag(tag) && !Holds(a, tag) && !Holds(b, tag)
    requires a + Tagged(tag, v) == b + Tagged(tag, w)
    ensures a == b && v == w
  {
    FirstTag(tag, a, v);
    FirstTag(tag, b, w);
    SameHead(a, Tagged(tag, v), b, Tagged(tag, w));
    if v.Some? {
      SameTail(tag, v.value, w.value);
    }
  }

  lemma SameHead(a: string, x: string, b: string, y: string)
    requires a + x == b + y && |a| == |b|
    ensures a == b && x == y
  {
    assert a == (a + x)[..|a|] && x == (a + x)[|a|..];
    assert b == (b + y)[..|b|] && y == (b + y)[|b|..];
  }

  lemma FirstTag(tag: string, a: string, v: Option<string>)
    requires IsTag(tag) && !Holds(a, tag)
    ensures Search(a + Tagged(tag, v), tag) == |a|
    ensures Holds(a + Tagged(tag, v), tag) <==> v.Some?
  {
    SearchAppend(a, Tagged(tag, v), tag);
  }

  // ---------- The VLAN identifier at the end ----------

  function VlanPart(v: int32): string { VLAN_TAG + SignedDecimal(v) }

  ghost predicate EndsWithVlan(s: string) { exists rest: string, v: int32 :: s == rest + VlanPart(v) }

  lemma VlanPartHasOneSeparator(v: int32)
    ensures VlanPart(v)[0] == '|' && '|' !in VlanPart(v)[1..]
  {
    SignedDecimalCharacters(v, '|');
    assert VlanPart(v)[1..] == "vlanid=" + SignedDecimal(v);
  }

  lemma SameVlan(a: string, v: int32, b: string, w: int32)
    requires a + VlanPart(v) == b + VlanPart(w)
    ensures a == b && v == w
  {
    VlanPartHasOneSeparator(v);
    VlanPartHasOneSeparator(w);
    NoneBehind(a, VlanPart(v));
    NoneBehind(b, VlanPart(w));
    assert (a + VlanPart(v))[|a|] == '|' && (b + VlanPart(w))[|b|] == '|';
    SameHead(a, VlanPart(v), b, VlanPart(w));
    SameTail(VLAN_TAG, SignedDecimal(v), SignedDecimal(w));
    SignedDecimalInjective(v, w);
  }

  /** Behind the last separator there is none. */
  lemma NoneBehind(a: string, part: string)
    requires part != "" && '|' !in part[1..]
    ensures forall i :: |a| < i < |a + part| ==> (a + part)[i] != '|'
  {
    forall i | |a| < i < |a + part|
      ensures (a + part)[i] != '|'
    {
      assert (a + part)[i] == part[1..][i - |a| - 1];
    }
  }

  // ---------- Passwords ----------

  /** The text without its VLAN identifier. */
  function Body(p: SaePassword): string {
    p.credential + Tagged(ID_TAG, p.passwordId) + Tagged(MAC_TAG, p.peerMacAddress)
  }

  lemma TextIs(p: SaePassword)
    ensures SaePasswordText(p) == if p.vlanId.Some? then Body(p) + VlanPart(p.vlanId.value) else Body(p)
  {
    assert "|" + "id=" == ID_TAG && "|" + "mac=" == MAC_TAG && "|" + "vlanid=" == VLAN_TAG;
    assert OptionalText("id=", p.passwordId) == Tagged(ID_TAG, p.passwordId);
    assert OptionalText("mac=", p.peerMacAddress) == Tagged(MAC_TAG, p.peerMacAddress);
    if p.vlanId.Some? {
      assert OptionalText("vlanid=", VlanText(p.vlanId)) == VlanPart(p.vlanId.value);
    }
  }

  /** The field that ends the body. */
  function LastField(p: SaePassword): string {
    if p.peerMacAddress.Some? then p.peerMacAddress.value
    else if p.passwordId.Some? then p.passwordId.value
    else p.credential
  }

  /** No field holds a tag where it could be taken for the start of another field: what stands before the first
      "|id=" holds none, and what stands before the "|mac=" that follows holds none of that. */
  predicate HasTidyBody(p: SaePassword) {
    && !Holds(p.credential, ID_TAG)
    && (p.passwordId.Some? ==> !Holds(p.passwordId.value, MAC_TAG))
    && (p.passwordId.None? ==> !Holds(p.credential, MAC_TAG))
    && (p.passwordId.None? && p.peerMacAddress.Some? ==> !Holds(p.peerMacAddress.value, ID_TAG))
  }

  /** Nor, without a VLAN identifier, does the text end like one. */
  ghost predicate IsTidy(p: SaePassword) {
    HasTidyBody(p) && (p.vlanId.None? ==> !EndsWithVlan(LastField(p)))
  }

  lemma SeparatorFreeHoldsNoTag(s: string, tag: string)
    requires IsTag(tag) && '|' !in s
    ensures !Holds(s, tag)
  {
  }

  lemma SeparatorFreeHasNoVlan(s: string)
    requires '|' !in s
    ensures !EndsWithVlan(s)
  {
    forall rest: string, v: int32
      ensures s != rest + VlanPart(v)
    {
      assert (rest + VlanPart(v))[|rest|] == '|';
    }
  }

  /** Passwords without separators in their fields are tidy. */
  lemma SeparatorFreeIsTidy(p: SaePassword)
    requires SaeSeparatorFree(p)
    ensures IsTidy(p)
  {
    SeparatorFreeHoldsNoTag(p.credential, ID_TAG);
    SeparatorFreeHoldsNoTag(p.credential, MAC_TAG);
    if p.passwordId.Some? {
      SeparatorFreeHoldsNoTag(p.passwordId.value, MAC_TAG);
    }
    if p.peerMacAddress.Some? {
      SeparatorFreeHoldsNoTag(p.peerMacAddress.value, ID_TAG);
    }
    SeparatorFreeHasNoVlan(LastField(p));
  }

  // ---------- Taking the body apart ----------

  /** What stands before the first "|id=", and what behind it. */
  function BeforeId(p: SaePassword): string {
    if p.passwordId.Some? then p.credential else p.credential + Tagged(MAC_TAG, p.peerMacAddress)
  }

  function BehindId(p: SaePassword): Option<string> {
    if p.passwordId.Some? then Some(p.passwordId.value + Tagged(MAC_TAG, p.peerMacAddress)) else None
  }

  lemma BodyAtId(p: SaePassword)
    ensures Body(p) == BeforeId(p) + Tagged(ID_TAG, BehindId(p))
  {
    if p.passwordId.Some? {
      assert ID_TAG + p.passwordId.value + Tagged(MAC_TAG, p.peerMacAddress)
          == ID_TAG + (p.passwordId.value + Tagged(MAC_TAG, p.peerMacAddress));
    }
  }

  lemma NoIdBeforeId(p: SaePassword)
    requires IsTidy(p)
    ensures !Holds(BeforeId(p), ID_TAG)
  {
    if p.passwordId.None? && p.peerMacAddress.Some? {
      SearchAppend(p.credential, Tagged(MAC_TAG, p.peerMacAddress), ID_TAG);
      TagsDiffer();
      SearchBehind(ID_TAG, MAC_TAG, p.peerMacAddress.value);
    } else {
      assert p.credential + "" == p.credential;
    }
  }

  lemma TagsDiffer()
    ensures IsTag(ID_TAG) && IsTag(MAC_TAG) && !(ID_TAG <= MAC_TAG) && !(MAC_TAG <= ID_TAG)
  {
    assert ID_TAG[1] == 'i' && MAC_TAG[1] == 'm';
  }

  lemma SameBodies(p: SaePassword, q: SaePassword)
    requires IsTidy(p) && IsTidy(q) && Body(p) == Body(q)
    ensures p.credential == q.credential && p.passwordId == q.passwordId && p.peerMacAddress == q.peerMacAddress
  {
    BodyAtId(p);
    BodyAtId(q);
    NoIdBeforeId(p);
    NoIdBeforeId(q);
    SplitAtTag(ID_TAG, BeforeId(p), BehindId(p), BeforeId(q), BehindId(q));
    if p.passwordId.Some? {
      SplitAtTag(MAC_TAG, p.passwordId.value, p.peerMacAddress, q.passwordId.value, q.peerMacAddress);
    } else {
      SplitAtTag(MAC_TAG, p.credential, p.peerMacAddress, q.credential, q.peerMacAddress);
    }
  }

  /** A body ends like a VLAN identifier exactly when its last field does. */
  lemma LastFieldEndsBody(p: SaePassword)
    ensures EndsWithVlan(Body(p)) <==> EndsWithVlan(LastField(p))
  {
    BodyAtLastField(p);
    if rest: string, v: int32 :| LastField(p) == rest + VlanPart(v) {
      assert Body(p) == (BeforeLastField(p) + rest) + VlanPart(v);
    }
    if rest: string, v: int32 :| Body(p) == rest + VlanPart(v) {
      VlanBehindTag(p, rest, v);
      DropHead(BeforeLastField(p), LastField(p), rest, VlanPart(v));
    }
  }

  lemma DropHead(pre: string, f: string, rest: string, part: string)
    requires pre + f == rest + part && |pre| <= |rest|
    ensures f == rest[|pre|..] + part
  {
    assert f == (pre + f)[|pre|..];
  }

  function BeforeLastField(p: SaePassword): string {
    if p.peerMacAddress.Some? then p.credential + Tagged(ID_TAG, p.passwordId) + MAC_TAG
    else if p.passwordId.Some? then p.credential + ID_TAG
    else ""
  }

  lemma BodyAtLastField(p: SaePassword)
    ensures Body(p) == BeforeLastField(p) + LastField(p)
  {
  }

  /** The VLAN identifier does not start within the tag of the last field. */
  lemma VlanBehindTag(p: SaePassword, rest: string, v: int32)
    requires Body(p) == rest + VlanPart(v)
    ensures |BeforeLastField(p)| <= |rest|
  {
    if BeforeLastField(p) != "" {
      var tag := if p.peerMacAddress.Some? then MAC_TAG else ID_TAG;
      var before := BeforeLastField(p)[..|BeforeLastField(p)| - |tag|];
      BodyAtLastField(p);
      assert BeforeLastField(p) == before + tag && tag[1] in {'i', 'm'} && '|' !in tag[1..];
      VlanPartHasOneSeparator(v);
      AcrossTag(before, tag, LastField(p), rest, VlanPart(v));
    }
  }

  lemma AcrossTag(before: string, tag: string, f: string, rest: string, part: string)
    requires before + tag + f == rest + part && |tag| > 1 && |part| > 1
    requires tag[0] == part[0] == '|' && tag[1] != part[1] && '|' !in tag[1..] && '|' !in part[1..]
    ensures |before + tag| <= |rest|
  {
    var s := rest + part;
    NoneBehind(rest, part);
    assert s[|before|] == '|' && s[|before| + 1] == tag[1];
    assert s[|rest|] == '|' && s[|rest| + 1] == part[1];
    assert forall k :: |before| < k < |before + tag| ==> s[k] == tag[1..][k - |before| - 1];
  }

  // ---------- One tidy password for every text ----------

  /** Two tidy passwords with the same text are the same password ... */
  lemma TidyIsUnique(p: SaePassword, q: SaePassword)
    requires IsTidy(p) && IsTidy(q) && SaePasswordText(p) == SaePasswordText(q)
    ensures p == q
  {
    TextIs(p);
    TextIs(q);
    LastFieldEndsBody(p);
    LastFieldEndsBody(q);
    if p.vlanId.Some? && q.vlanId.Some? {
      SameVlan(Body(p), p.vlanId.value, Body(q), q.vlanId.value);
    }
    assert p.vlanId.Some? ==> EndsWithVlan(SaePasswordText(p));
    assert q.vlanId.Some? ==> EndsWithVlan(SaePasswordText(q));
    SameBodies(p, q);
  }

  function Before(s: string, tag: string): string
    requires tag != ""
  {
    s[..Search(s, tag)]
  }

  function Behind(s: string, tag: string): Option<string>
    requires tag != ""
  {
    var i := Search(s, tag);
    if i < |s| then Some(s[i + |tag|..]) else None
  }

  /** The credential, identifier and address that a body is read as: cut at the first "|id=", and then at the first
      "|mac=" of what remains. */
  function ReadBody(body: string): SaePassword {
    match Behind(body, ID_TAG)
    case Some(b) => SaePassword(Before(body, ID_TAG), Some(Before(b, MAC_TAG)), Behind(b, MAC_TAG), None)
    case None => SaePassword(Before(body, MAC_TAG), None, Behind(body, MAC_TAG), None)
  }

  /** Nothing is found before the first occurrence, and nothing in a part where nothing is found in the whole. */
  lemma {:induction false} BeforeFirst(s: string, tag: string)
    requires IsTag(tag)
    ensures !Holds(Before(s, tag), tag)
  {
    var i := Search(s, tag);
    if i < |s| {
      assert s == s[..i] + s[i..] && s[i..][..|tag|] == tag;
      SearchAppend(s[..i], s[i..], tag);
    } else {
      assert s[..i] == s;
    }
  }

  lemma NotInPart(a: string, other: string, x: string, tag: string)
    requires IsTag(tag) && IsTag(other) && !(tag <= other) && !(other <= tag) && !Holds(a + (other + x), tag)
    ensures !Holds(a, tag) && !Holds(x, tag)
  {
    SearchAppend(a, other + x, tag);
    SearchBehind(tag, other, x);
  }

  lemma Pieces(s: string, j: nat, tag: string)
    requires j < |s| ==> j + |tag| <= |s| && s[j..j + |tag|] == tag
    requires j <= |s|
    ensures j < |s| ==> s == s[..j] + (tag + s[j + |tag|..])
    ensures j == |s| ==> s == s[..j] + ""
  {
  }

  lemma AtFirst(s: string, tag: string)
    requires tag != ""
    ensures s == Before(s, tag) + Tagged(tag, Behind(s, tag))
  {
    Pieces(s, Search(s, tag), tag);
  }

  lemma BodyOf(credential: string, id: string, mac: Option<string>)
    ensures Body(SaePassword(credential, Some(id), mac, None))
         == credential + (ID_TAG + (id + Tagged(MAC_TAG, mac)))
    ensures Body(SaePassword(credential, None, mac, None)) == credential + Tagged(MAC_TAG, mac)
  {
    assert credential + "" == credential;
  }

  lemma ReadBodyIsBody(body: string)
    ensures Body(ReadBody(body)) == body && ReadBody(body).vlanId.None?
  {
    AtFirst(body, ID_TAG);
    match Behind(body, ID_TAG)
    case Some(b) =>
      AtFirst(b, MAC_TAG);
      BodyOf(Before(body, ID_TAG), Before(b, MAC_TAG), Behind(b, MAC_TAG));
    case None =>
      AtFirst(body, MAC_TAG);
      BodyOf(Before(body, MAC_TAG), "", Behind(body, MAC_TAG));
  }

  lemma ReadWithoutId(body: string)
    requires !Holds(body, ID_TAG)
    ensures HasTidyBody(ReadBody(body))
  {
    BeforeFirst(body, MAC_TAG);
    AtFirst(body, MAC_TAG);
    if Behind(body, MAC_TAG).Some? {
      TagsDiffer();
      NotInPart(Before(body, MAC_TAG), MAC_TAG, Behind(body, MAC_TAG).value, ID_TAG);
    } else {
      assert Before(body, MAC_TAG) == body;
    }
  }

  lemma ReadBodyFields(body: string)
    ensures HasTidyBody(ReadBody(body))
  {
    match Behind(body, ID_TAG)
    case Some(b) =>
      BeforeFirst(body, ID_TAG);
      BeforeFirst(b, MAC_TAG);
    case None => ReadWithoutId(body);
  }

  /** ... and every password shares its text with a tidy one. */
  lemma TidyExists(p: SaePassword) returns (q: SaePassword)
    ensures IsTidy(q) && SaePasswordText(q) == SaePasswordText(p)
  {
    var text := SaePasswordText(p);
    if rest: string, v: int32 :| text == rest + VlanPart(v) {
      q := ReadBody(rest).(vlanId := Some(v));
      ReadBodyIsBody(rest);
      ReadBodyFields(rest);
      assert Body(q) == Body(ReadBody(rest));
    } else {
      q := ReadBody(text);
      ReadBodyIsBody(text);
      ReadBodyFields(text);
      assert !EndsWithVlan(text);
      LastFieldEndsBody(q);
    }
    TextIs(q);
  }

  /** So being tidy is exactly what makes a text identify a password among the tidy ones: a password that is not
      tidy shares its text with one that is, and a tidy one with no other. */
  lemma TidyDecides(p: SaePassword)
    ensures IsTidy(p) <==> forall q :: IsTidy(q) && SaePasswordText(q) == SaePasswordText(p) ==> q == p
  {
    if IsTidy(p) {
      forall q | IsTidy(q) && SaePasswordText(q) == SaePasswordText(p)
        ensures q == p
      {
        TidyIsUnique(p, q);
      }
    } else {
      var q := TidyExists(p);
      assert IsTidy(q) && SaePasswordText(q) == SaePasswordText(p) && q != p;
    }
  }

  predicate HasOptionalFields(p: SaePassword) { p.passwordId.Some? || p.peerMacAddress.Some? || p.vlanId.Some? }

  /** A text stands for a single password of all if and only if that one has no optional fields and its credential
      holds no "|id=" and no "|mac=" and does not end like a VLAN identifier. */
  lemma TextIdentifiesExactly(p: SaePassword)
    ensures (forall q :: SaePasswordText(q) == SaePasswordText(p) ==> q == p)
        <==> !HasOptionalFields(p) && !Holds(p.credential, ID_TAG) && !Holds(p.credential, MAC_TAG)
             && !EndsWithVlan(p.credential)
  {
    if HasOptionalFields(p) {
      SaeSeparatorNeeded(p);
      assert SaePasswordText(SaePassword(SaePasswordText(p), None, None, None)) == SaePasswordText(p);
    } else if IsTidy(p) {
      forall q | SaePasswordText(q) == SaePasswordText(p)
        ensures q == p
      {
        NoOptionalFields(p, q);
      }
    } else {
      var q := TidyExists(p);
      assert q != p;
    }
  }

  lemma NoOptionalFields(p: SaePassword, q: SaePassword)
    requires IsTidy(p) && !HasOptionalFields(p) && SaePasswordText(q) == SaePasswordText(p)
    ensures q == p
  {
    TextIs(p);
    TextIs(q);
    assert Body(p) == p.credential;
    assert q.vlanId.Some? ==> EndsWithVlan(SaePasswordText(q));
    assert Body(q) == p.credential;
    BodyAtId(q);
    TagsDiffer();
    HoldsTagged(BeforeId(q), BehindId(q), ID_TAG);
    HoldsTagged(q.credential, q.peerMacAddress, MAC_TAG);
    assert q.passwordId.None? ==> Body(q) == q.credential + Tagged(MAC_TAG, q.peerMacAddress);
  }

  /** A text with a tagged part holds the tag. */
  lemma HoldsTagged(a: string, v: Option<string>, tag: string)
    requires IsTag(tag)
    ensures v.Some? ==> Holds(a + Tagged(tag, v), tag)
  {
    SearchAppend(a, Tagged(tag, v), tag);
  }
}
