/** The property texts that hostapd is sent: how they are built, and that they lose nothing. */
module PropertyCodecs {
  import opened Wrappers
  import opened Sequences
  import opened Text
  import opened HostapdProtocol

  // ---------- Key management lists ----------

  function KeyManagementTexts(ks: seq<WpaKeyManagement>): (texts: seq<string>)
    ensures |texts| == |ks|
  {
    Transform(WpaKeyManagementPropertyValue, ks)
  }

  /** The value of 'wpa_key_mgmt': the texts separated by single spaces. */
  function KeyManagementText(ks: seq<WpaKeyManagement>): string { Join(KeyManagementTexts(ks), ' ') }

  /** WpaKeyManagementsFromPropertyValue. */
  function KeyManagementsFromText(text: string): seq<WpaKeyManagement> {
    Transform(WpaKeyManagementFromPropertyValue, Split(text, ' '))
  }

  lemma KeyManagementToken(k: WpaKeyManagement)
    ensures ' ' !in WpaKeyManagementPropertyValue(k) && WpaKeyManagementPropertyValue(k) != ""
  {
  }

  lemma KeyManagementReadBack(k: WpaKeyManagement)
    requires IsValidKeyManagement(k)
    ensures WpaKeyManagementFromPropertyValue(WpaKeyManagementPropertyValue(k)) == k
  {
    var text := WpaKeyManagementPropertyValue(k);
    match |text|
    case 3 => assert k in {Sae, Owe, Dpp};
    case 4 => assert k in {Osen, Pasn};
    case 6 => assert k in {FtIeee8021x, FtPsk, FtSae};
    case 7 => assert k in {Ieee8021x, Psk};
    case 11 => assert k in {FilsSha256, FilsSha384};
    case 14 => assert k in {Ieee8021xSha256, PskSha256, FtFilsSha256, FtFilsSha384};
    case _ =>
  }

  lemma KeyManagementTokens(ks: seq<WpaKeyManagement>)
    ensures SeparatorFree(KeyManagementTexts(ks), ' ')
    ensures "" !in KeyManagementTexts(ks)
  {
    forall i | 0 <= i < |ks|
      ensures ' ' !in KeyManagementTexts(ks)[i] && KeyManagementTexts(ks)[i] != ""
    {
      TransformAt(WpaKeyManagementPropertyValue, ks, i);
      KeyManagementToken(ks[i]);
    }
  }

  lemma KeyManagementTextsReadBack(ks: seq<WpaKeyManagement>)
    requires forall k :: k in ks ==> IsValidKeyManagement(k)
    ensures Transform(WpaKeyManagementFromPropertyValue, KeyManagementTexts(ks)) == ks
  {
    forall i | 0 <= i < |ks|
      ensures Transform(WpaKeyManagementFromPropertyValue, KeyManagementTexts(ks))[i] == ks[i]
    {
      TransformAt(WpaKeyManagementPropertyValue, ks, i);
      TransformAt(WpaKeyManagementFromPropertyValue, KeyManagementTexts(ks), i);
      KeyManagementReadBack(ks[i]);
    }
  }

  lemma KeyManagementTextAppend(ks: seq<WpaKeyManagement>, k: WpaKeyManagement)
    ensures KeyManagementText(ks + [k])
         == (if ks == [] then "" else KeyManagementText(ks) + " ") + WpaKeyManagementPropertyValue(k)
  {
    TransformAppend(WpaKeyManagementPropertyValue, ks, [k]);
    assert KeyManagementTexts([k]) == [WpaKeyManagementPropertyValue(k)];
    if ks != [] {
      JoinSnoc(KeyManagementTexts(ks), WpaKeyManagementPropertyValue(k), ' ');
    }
  }

  /** Reading back what was written gives the same list in the same order. */
  lemma KeyManagementRoundTrip(ks: seq<WpaKeyManagement>)
    requires ks != [] && forall k :: k in ks ==> IsValidKeyManagement(k)
    ensures KeyManagementsFromText(KeyManagementText(ks)) == ks
  {
    KeyManagementTokens(ks);
    KeyManagementTextsReadBack(ks);
    assert KeyManagementTexts(ks)[0] in KeyManagementTexts(ks);
    SplitJoin(KeyManagementTexts(ks), ' ');
    JoinEmptyText(KeyManagementTexts(ks), ' ');
  }

  // ---------- Cipher lists ----------

  /** The value of 'wpa_pairwise' and 'rsn_pairwise': every text is followed by a space, the last one too. */
  function CipherText(cs: seq<WpaCipher>): string {
    if cs == [] then "" else WpaCipherPropertyValue(cs[0]) + " " + CipherText(cs[1..])
  }

  lemma CipherToken(a: WpaCipher, b: WpaCipher)
    requires IsValidCipher(a) && IsValidCipher(b)
    ensures ' ' !in WpaCipherPropertyValue(a)
    ensures WpaCipherPropertyValue(a) == WpaCipherPropertyValue(b) ==> a == b
  {
  }

  lemma Regroup(a: string, b: string, c: string, d: string)
    ensures a + (b + c + d) == a + b + c + d
  {
  }

  lemma {:induction false} CipherTextAppend(a: seq<WpaCipher>, c: WpaCipher)
    ensures CipherText(a + [c]) == CipherText(a) + WpaCipherPropertyValue(c) + " "
  {
    if a == [] {
      assert a + [c] == [c];
    } else {
      assert (a + [c])[1..] == a[1..] + [c];
      CipherTextAppend(a[1..], c);
      Regroup(WpaCipherPropertyValue(a[0]) + " ", CipherText(a[1..]), WpaCipherPropertyValue(c), " ");
    }
  }

  lemma FirstCipher(a: seq<WpaCipher>, b: seq<WpaCipher>)
    requires a != [] && b != [] && IsValidCipher(a[0]) && IsValidCipher(b[0]) && CipherText(a) == CipherText(b)
    ensures a[0] == b[0] && CipherText(a[1..]) == CipherText(b[1..])
  {
    var va, vb, text := WpaCipherPropertyValue(a[0]), WpaCipherPropertyValue(b[0]), CipherText(a);
    CipherToken(a[0], b[0]);
    CipherToken(b[0], a[0]);
    assert text[..|va|] == va && text[..|vb|] == vb && text[|va|] == ' ' && text[|vb|] == ' ';
    FindIs(text, ' ', |va|);
    FindIs(text, ' ', |vb|);
    assert text[|va| + 1..] == CipherText(a[1..]) && text[|va| + 1..] == CipherText(b[1..]);
  }

  /** The text determines the list, order included. */
  lemma {:induction false} CipherTextInjective(a: seq<WpaCipher>, b: seq<WpaCipher>)
    requires forall c :: c in a + b ==> IsValidCipher(c)
    requires CipherText(a) == CipherText(b)
    ensures a == b
  {
    if a != [] && b != [] {
      assert a[0] in a + b && b[0] in a + b;
      FirstCipher(a, b);
      CipherTextInjective(a[1..], b[1..]);
    }
  }

  // ---------- SAE passwords ----------

  const SAE_SEPARATOR := '|'

  function VlanText(vlanId: Option<int32>): Option<string> {
    if vlanId.Some? then Some(SignedDecimal(vlanId.value)) else None
  }

  function OptionalText(tag: string, value: Option<string>): string {
    if value.Some? then "|" + tag + value.value else ""
  }

  /** The value of 'sae_password' for one password. */
  function SaePasswordText(p: SaePassword): string {
    p.credential + OptionalText("id=", p.passwordId) + OptionalText("mac=", p.peerMacAddress)
    + OptionalText("vlanid=", VlanText(p.vlanId))
  }

  function OptionalField(tag: string, value: Option<string>): seq<string> {
    if value.Some? then [tag + value.value] else []
  }

  function SaeFields(p: SaePassword): seq<string> {
    [p.credential] + OptionalField("id=", p.passwordId) + OptionalField("mac=", p.peerMacAddress)
    + OptionalField("vlanid=", VlanText(p.vlanId))
  }

  /** No field of the password contains the separator. */
  predicate SaeSeparatorFree(p: SaePassword) {
    && SAE_SEPARATOR !in p.credential
    && (p.passwordId.Some? ==> SAE_SEPARATOR !in p.passwordId.value)
    && (p.peerMacAddress.Some? ==> SAE_SEPARATOR !in p.peerMacAddress.value)
  }

  lemma JoinOptional(fields: seq<string>, tag: string, value: Option<string>)
    requires fields != []
    ensures Join(fields + OptionalField(tag, value), '|') == Join(fields, '|') + OptionalText(tag, value)
  {
    if value.Some? {
      JoinSnoc(fields, tag + value.value, '|');
    } else {
      assert fields + [] == fields;
    }
  }

  lemma SaeTextIsJoin(p: SaePassword)
    ensures SaePasswordText(p) == Join(SaeFields(p), SAE_SEPARATOR)
  {
    var f1 := [p.credential] + OptionalField("id=", p.passwordId);
    var f2 := f1 + OptionalField("mac=", p.peerMacAddress);
    JoinOptional([p.credential], "id=", p.passwordId);
    JoinOptional(f1, "mac=", p.peerMacAddress);
    JoinOptional(f2, "vlanid=", VlanText(p.vlanId));
  }

  lemma SaeFieldsSeparatorFree(p: SaePassword)
    requires SaeSeparatorFree(p)
    ensures SeparatorFree(SaeFields(p), SAE_SEPARATOR)
  {
    if p.vlanId.Some? {
      SignedDecimalCharacters(p.vlanId.value, SAE_SEPARATOR);
    }
  }

  lemma SameTail(tag: string, a: string, b: string)
    requires tag + a == tag + b
    ensures a == b
  {
    assert a == (tag + a)[|tag|..] && b == (tag + b)[|tag|..];
  }

  function Present<T>(o: Option<T>): nat { if o.Some? then 1 else 0 }

  lemma SaeFieldsInjective(p: SaePassword, q: SaePassword)
    requires SaeFields(p) == SaeFields(q)
    ensures p == q
  {
    var f := SaeFields(p);
    assert f[0] == p.credential && f[0] == q.credential;
    // The optional fields are told apart by their first letter.
    assert p.passwordId.Some? <==> |f| > 1 && f[1][0] == 'i';
    assert q.passwordId.Some? <==> |f| > 1 && f[1][0] == 'i';
    assert p.vlanId.Some? <==> |f| > 1 && f[|f| - 1][0] == 'v';
    assert q.vlanId.Some? <==> |f| > 1 && f[|f| - 1][0] == 'v';
    // How many there are tells whether there is an address among them.
    assert |SaeFields(p)| == 1 + Present(p.passwordId) + Present(p.peerMacAddress) + Present(p.vlanId);
    assert |SaeFields(q)| == 1 + Present(q.passwordId) + Present(q.peerMacAddress) + Present(q.vlanId);
    if p.passwordId.Some? {
      SameTail("id=", p.passwordId.value, q.passwordId.value);
    }
    if p.peerMacAddress.Some? {
      var i := if p.passwordId.Some? then 2 else 1;
      assert f[i] == "mac=" + p.peerMacAddress.value && f[i] == "mac=" + q.peerMacAddress.value;
      SameTail("mac=", p.peerMacAddress.value, q.peerMacAddress.value);
    }
    if p.vlanId.Some? {
      assert f[|f| - 1] == "vlanid=" + SignedDecimal(p.vlanId.value);
      assert f[|f| - 1] == "vlanid=" + SignedDecimal(q.vlanId.value);
      SameTail("vlanid=", SignedDecimal(p.vlanId.value), SignedDecimal(q.vlanId.value));
      SignedDecimalInjective(p.vlanId.value, q.vlanId.value);
    }
  }

  /** Two passwords whose fields hold no separator have the same text only if they are the same password. */
  lemma SaePasswordTextInjective(p: SaePassword, q: SaePassword)
    requires SaeSeparatorFree(p) && SaeSeparatorFree(q)
    requires SaePasswordText(p) == SaePasswordText(q)
    ensures p == q
  {
    SaeTextIsJoin(p);
    SaeTextIsJoin(q);
    SaeFieldsSeparatorFree(p);
    SaeFieldsSeparatorFree(q);
    JoinInjective(SaeFields(p), SaeFields(q), SAE_SEPARATOR);
    SaeFieldsInjective(p, q);
  }

  /** The separator matters: every password with optional fields shares its text with one that has none and
      carries them inside its credential. */
  lemma SaeSeparatorNeeded(p: SaePassword)
    requires p.passwordId.Some? || p.peerMacAddress.Some? || p.vlanId.Some?
    ensures var q := SaePassword(SaePasswordText(p), None, None, None);
            SaePasswordText(q) == SaePasswordText(p) && q != p && !SaeSeparatorFree(q)
  {
  }
}
