/** What the operations of Hostapd guarantee whatever the daemon answers. */
module HostapdTransactions {
  import opened Wrappers
  import opened Text
  import opened BitMask
  import opened Daemon
  import opened HostapdProtocol
  import opened PropertyCodecs
  import opened HostapdPlans

  // ---------- Now and Defer ----------

  function PropertyPlans(settings: seq<Setting>, e: EnforceConfigurationChange): seq<Action> {
    if settings == [] then []
    else
      var n := |settings| - 1;
      PropertyPlans(settings[..n], e) + SetPropertyPlan(settings[n].name, settings[n].value, e)
  }

  lemma {:induction false} CommandsAppend(a: seq<Action>, b: seq<Action>)
    ensures Commands(a + b) == Commands(a) + Commands(b)
  {
    if a == [] {
      assert a + b == b;
    } else {
      assert (a + b)[0] == a[0] && (a + b)[1..] == a[1..] + b;
      CommandsAppend(a[1..], b);
      assert CommandOf(a[0]) + Commands(a[1..]) + Commands(b) == CommandOf(a[0]) + (Commands(a[1..]) + Commands(b));
    }
  }

  /** The settings of a plan that is one plan after the other. */
  lemma PlanSettingsAppend(a: seq<Action>, b: seq<Action>)
    ensures Settings(Commands(a + b)) == Settings(Commands(a)) + Settings(Commands(b))
  {
    CommandsAppend(a, b);
    SettingsAppend(Commands(a), Commands(b));
  }

  lemma PropertyPlanSettings(name: string, value: string, e: EnforceConfigurationChange)
    ensures Settings(Commands(SetPropertyPlan(name, value, e))) == [Setting(name, value)]
  {
    PlanSettingsAppend([Send(Set(name, value))], ReloadIf(e));
    assert Settings(Commands([Send(Set(name, value))])) == [Setting(name, value)];
    assert Settings(Commands([Send(Reload)])) == [];
  }

  lemma {:induction false} PropertyPlansSettings(settings: seq<Setting>, e: EnforceConfigurationChange)
    ensures Settings(Commands(PropertyPlans(settings, e))) == settings
  {
    if settings != [] {
      var n := |settings| - 1;
      var Setting(name, value) := settings[n];
      var first, last := PropertyPlans(settings[..n], e), SetPropertyPlan(name, value, e);
      PropertyPlansSettings(settings[..n], e);
      PropertyPlanSettings(name, value, e);
      PlanSettingsAppend(first, last);
      assert PropertyPlans(settings, e) == first + last;
      assert settings[..n] + [Setting(name, value)] == settings;
    }
  }

  /** A plan that succeeds and ends with RELOAD leaves active what is staged: all its settings. */
  lemma EndsWithReload(v: Verdicts, d: Daemon, plan: seq<Action>)
    requires Perform(v, d, plan + [Send(Reload)]).1
    ensures Perform(v, d, plan + [Send(Reload)]).0.active == d.staged + Settings(Commands(plan))
  {
    var whole := plan + [Send(Reload)];
    PerformAppend(v, d, plan, [Send(Reload)]);
    AcceptedIsPrefix(v, d, plan);
    StagedIsAccepted(v, d, plan);
    assert plan[..|plan|] == plan;
    PerformOne(v, Perform(v, d, plan).0, Reload);
  }

  /** Deferral preserves meaning: setting properties one by one with Now ends in the same active
      configuration as setting them all with Defer and reloading once. */
  lemma DeferralPreservesMeaning(v: Verdicts, w: Verdicts, d: Daemon, settings: seq<Setting>)
    requires settings != []
    requires Perform(v, d, PropertyPlans(settings, Now)).1
    requires Perform(w, d, PropertyPlans(settings, Defer) + [Send(Reload)]).1
    ensures Perform(v, d, PropertyPlans(settings, Now)).0.active
         == Perform(w, d, PropertyPlans(settings, Defer) + [Send(Reload)]).0.active
         == d.staged + settings
  {
    EndsWithReload(w, d, PropertyPlans(settings, Defer));
    PropertyPlansSettings(settings, Defer);

    var n := |settings| - 1;
    var init := PropertyPlans(settings[..n], Now) + [Send(Set(settings[n].name, settings[n].value))];
    assert PropertyPlans(settings, Now) == init + [Send(Reload)];
    EndsWithReload(v, d, init);
    PropertyPlansSettings(settings, Now);
    PlanSettingsAppend(init, [Send(Reload)]);
  }

  lemma {:induction false} DeferredPlansDoNotReload(settings: seq<Setting>)
    ensures forall i :: 0 <= i < |PropertyPlans(settings, Defer)| ==> PropertyPlans(settings, Defer)[i] != Send(Reload)
  {
    if settings != [] {
      DeferredPlansDoNotReload(settings[..|settings| - 1]);
    }
  }

  /** With Defer alone the active configuration never moves, accepted or not. */
  lemma DeferAloneChangesNothing(v: Verdicts, d: Daemon, settings: seq<Setting>)
    ensures Perform(v, d, PropertyPlans(settings, Defer)).0.active == d.active
  {
    DeferredPlansDoNotReload(settings);
    ActiveNeedsReload(v, d, PropertyPlans(settings, Defer));
  }

  /** One property: with Now it is in force exactly when both commands are accepted, with Defer it is only staged. */
  lemma PropertyOutcome(v: Verdicts, d: Daemon, name: string, value: string, e: EnforceConfigurationChange)
    ensures var (d', ok) := Perform(v, d, SetPropertyPlan(name, value, e));
            && (ok <==> AcceptsNext(v, |d.sent|, if e.Now? then 2 else 1))
            && (ok ==> d'.staged == d.staged + [Setting(name, value)])
            && d'.active == if ok && e.Now? then d'.staged else d.active
  {
    var command := Set(name, value);
    PerformAppend(v, d, [Send(command)], ReloadIf(e));
    PerformOne(v, d, command);
    if e.Now? {
      PerformOne(v, Exec(v, d, command), Reload);
    }
  }

  // ---------- SAE passwords ----------

  lemma {:induction false} SaeSetsShape(passwords: seq<SaePassword>)
    ensures forall i :: 0 <= i < |SaeSets(passwords)| ==>
              SaeSets(passwords)[i].Send? && SaeSets(passwords)[i] != Send(Reload)
    ensures |SaeSets(passwords)| == |passwords| + 1
  {
    if passwords != [] {
      SaeSetsShape(passwords[..|passwords| - 1]);
    }
  }

  function PasswordTexts(passwords: seq<SaePassword>): seq<string> {
    if passwords == [] then []
    else PasswordTexts(passwords[..|passwords| - 1]) + [SaePasswordText(passwords[|passwords| - 1])]
  }

  /** The SAE passwords that a configuration amounts to: setting the empty value clears all of them, setting
      any other value adds one. */
  function PasswordsOf(settings: seq<Setting>): seq<string> {
    if settings == [] then []
    else
      var n := |settings| - 1;
      var before := PasswordsOf(settings[..n]);
      if settings[n].name != "sae_password" then before
      else if settings[n].value == "" then []
      else before + [settings[n].value]
  }

  lemma PasswordsOfAppend(settings: seq<Setting>, value: string)
    ensures PasswordsOf(settings + [Setting("sae_password", value)])
         == if value == "" then [] else PasswordsOf(settings) + [value]
  {
  }

  /** Adding the texts one by one to no passwords at all. */
  function Kept(texts: seq<string>): (kept: seq<string>)
    ensures |kept| <= |texts|
  {
    if texts == [] then []
    else
      var n := |texts| - 1;
      if texts[n] == "" then [] else Kept(texts[..n]) + [texts[n]]
  }

  lemma {:induction false} KeptAll(texts: seq<string>)
    ensures Kept(texts) == texts <==> "" !in texts
  {
    if texts != [] {
      var n := |texts| - 1;
      KeptAll(texts[..n]);
      assert texts == texts[..n] + [texts[n]];
      if texts[n] != "" && Kept(texts) == texts {
        assert Kept(texts)[..|Kept(texts[..n])|] == Kept(texts[..n]);
      }
    }
  }

  lemma {:induction false} PasswordTextsCount(passwords: seq<SaePassword>)
    ensures |PasswordTexts(passwords)| == |passwords|
  {
    if passwords != [] {
      PasswordTextsCount(passwords[..|passwords| - 1]);
    }
  }

  /** The settings that clear the passwords and then add the given ones. */
  function SaeSettings(texts: seq<string>): seq<Setting> {
    if texts == [] then [Setting("sae_password", "")]
    else SaeSettings(texts[..|texts| - 1]) + [Setting("sae_password", texts[|texts| - 1])]
  }

  lemma {:induction false} SettingsOfSaeSets(passwords: seq<SaePassword>)
    ensures Settings(Commands(SaeSets(passwords))) == SaeSettings(PasswordTexts(passwords))
  {
    if passwords == [] {
      PropertyPlanSettings("sae_password", "", Defer);
      assert SetPropertyPlan("sae_password", "", Defer) == SaeSets([]);
    } else {
      var n := |passwords| - 1;
      var last := SetPropertyPlan("sae_password", SaePasswordText(passwords[n]), Defer);
      SettingsOfSaeSets(passwords[..n]);
      PlanSettingsAppend(SaeSets(passwords[..n]), last);
      PropertyPlanSettings("sae_password", SaePasswordText(passwords[n]), Defer);
      PasswordTextsCount(passwords[..n]);
      assert SaeSets(passwords) == SaeSets(passwords[..n]) + last;
      assert PasswordTexts(passwords)[..n] == PasswordTexts(passwords[..n]);
    }
  }

  lemma {:induction false} PasswordsOfSaeSettings(base: seq<Setting>, texts: seq<string>)
    ensures PasswordsOf(base + SaeSettings(texts)) == Kept(texts)
  {
    if texts == [] {
      PasswordsOfAppend(base, "");
    } else {
      var n := |texts| - 1;
      PasswordsOfSaeSettings(base, texts[..n]);
      PasswordsOfAppend(base + SaeSettings(texts[..n]), texts[n]);
      assert base + SaeSettings(texts) == (base + SaeSettings(texts[..n])) + [Setting("sae_password", texts[n])];
    }
  }

  /** SetSaePasswords with Now is a transaction: it succeeds exactly when the daemon accepts all its commands,
      one per password, the clearing and the reload; otherwise the active configuration is untouched. */
  lemma SaePasswordsTransaction(v: Verdicts, d: Daemon, passwords: seq<SaePassword>)
    ensures var (d', ok) := Perform(v, d, SaePasswordsPlan(passwords, Now));
            && (ok <==> forall n :: |d.sent| <= n < |d.sent| + |passwords| + 2 ==> n in v)
            && (!ok ==> d'.active == d.active)
  {
    var plan := SaePasswordsPlan(passwords, Now);
    SaeSetsShape(passwords);
    TransactionSafety(v, d, plan);
    assert forall i :: 0 <= i < |plan| ==> plan[i].Send?;
    if AllAccepted(v, |d.sent|, plan) {
      forall n | |d.sent| <= n < |d.sent| + |plan|
        ensures n in v
      {
        assert plan[n - |d.sent|].Send? && |d.sent| + (n - |d.sent|) in v;
      }
    }
  }

  /** With Defer it only stages: the active configuration does not move, whatever is accepted. */
  lemma SaePasswordsDeferred(v: Verdicts, d: Daemon, passwords: seq<SaePassword>)
    ensures var (d', ok) := Perform(v, d, SaePasswordsPlan(passwords, Defer));
            && (ok <==> AcceptsNext(v, |d.sent|, |passwords| + 1))
            && (ok ==> d'.staged == d.staged + SaeSettings(PasswordTexts(passwords)))
            && d'.active == d.active
  {
    var plan := SaePasswordsPlan(passwords, Defer);
    assert plan == SaeSets(passwords);
    SaeSetsShape(passwords);
    ActiveNeedsReload(v, d, plan);
    SucceedsExactly(v, d, plan);
    SettingsOfSaeSets(passwords);
    if AllAccepted(v, |d.sent|, plan) {
      forall n | |d.sent| <= n < |d.sent| + |plan|
        ensures n in v
      {
        assert plan[n - |d.sent|].Send? && |d.sent| + (n - |d.sent|) in v;
      }
    }
  }

  /** After a successful SetSaePasswords the passwords in force are exactly those given, in order and whatever
      was set before, if and only if none of them has an empty text: that one would clear those before it. */
  lemma SaePasswordsInForce(v: Verdicts, d: Daemon, passwords: seq<SaePassword>)
    requires Perform(v, d, SaePasswordsPlan(passwords, Now)).1
    ensures PasswordsOf(Perform(v, d, SaePasswordsPlan(passwords, Now)).0.active) == PasswordTexts(passwords)
            <==> "" !in PasswordTexts(passwords)
  {
    EndsWithReload(v, d, SaeSets(passwords));
    SettingsOfSaeSets(passwords);
    PasswordsOfSaeSettings(d.staged, PasswordTexts(passwords));
    KeptAll(PasswordTexts(passwords));
  }

  /** For example: a password whose text is empty takes the one before it away. */
  lemma EmptyPasswordClears(v: Verdicts, d: Daemon, p: SaePassword)
    requires var passwords := [p, SaePassword("", None, None, None)];
             Perform(v, d, SaePasswordsPlan(passwords, Now)).1
    ensures var passwords := [p, SaePassword("", None, None, None)];
            PasswordsOf(Perform(v, d, SaePasswordsPlan(passwords, Now)).0.active) == []
  {
    var passwords := [p, SaePassword("", None, None, None)];
    EndsWithReload(v, d, SaeSets(passwords));
    SettingsOfSaeSets(passwords);
    PasswordsOfSaeSettings(d.staged, PasswordTexts(passwords));
    PasswordTextsCount(passwords);
    PasswordTextsCount(passwords[..1]);
    assert PasswordTexts(passwords)[1] == "";
  }

  // ---------- Key management ----------

  /** A list with an invalid value, or none at all, is refused before any command is sent. */
  lemma KeyManagementRefused(
    v: Verdicts, d: Daemon, ks: seq<WpaKeyManagement>, nasId: string, e: EnforceConfigurationChange)
    ensures (ks == [] || exists k :: k in ks && !IsValidKeyManagement(k)) <==>
              KeyManagementPlan(ks, nasId, e) == [Throw]
    ensures KeyManagementPlan(ks, nasId, e) == [Throw] ==>
              Perform(v, d, KeyManagementPlan(ks, nasId, e)) == (d, false)
  {
    if KeyManagementPlan(ks, nasId, e) == [Throw] {
      PerformThrow(v, d);
    } else {
      assert AllValidKeyManagement(ks);
    }
    if ks != [] && AllValidKeyManagement(ks) {
      assert KeyManagementPlan(ks, nasId, e)[0].Send?;
    }
  }

  /** The suites for which the server identifier is set: plain 802.1X and all fast transition ones. */
  predicate NeedsServerId(text: string) { text == "WPA-EAP" || "FT-" <= text }

  /** The suites for which the 802.1X flag is set. */
  predicate NeedsDot1x(text: string) {
    "WPA-EAP" <= text || "FT-EAP" <= text || "FILS-" <= text || "FT-FILS-" <= text || text == "OSEN"
  }

  lemma ServerIdClass(k: WpaKeyManagement)
    requires IsValidKeyManagement(k)
    ensures IsKeyManagementFastTransition(k) <==> NeedsServerId(WpaKeyManagementPropertyValue(k))
  {
    var text := WpaKeyManagementPropertyValue(k);
    if IsKeyManagementFastTransition(k) && k != Ieee8021x {
      assert text[..3] == "FT-";
    } else {
      assert text[0] != 'F' || text[1] != 'T';
    }
  }

  lemma Dot1xClass(k: WpaKeyManagement)
    requires IsValidKeyManagement(k)
    ensures IsKeyManagementIeee8021x(k) <==> NeedsDot1x(WpaKeyManagementPropertyValue(k))
  {
    var text := WpaKeyManagementPropertyValue(k);
    match k
    case Ieee8021x => assert text[..7] == "WPA-EAP";
    case Ieee8021xSha256 => assert text[..7] == "WPA-EAP";
    case Ieee8021xSuiteB => assert text[..7] == "WPA-EAP";
    case Ieee8021xSuiteB192 => assert text[..7] == "WPA-EAP";
    case FtIeee8021x => assert text[..6] == "FT-EAP";
    case FtIeee8021xSha384 => assert text[..6] == "FT-EAP";
    case FilsSha256 => assert text[..5] == "FILS-";
    case FilsSha384 => assert text[..5] == "FILS-";
    case FtFilsSha256 => assert text[..8] == "FT-FILS-";
    case FtFilsSha384 => assert text[..8] == "FT-FILS-";
    case Osen =>
    case Psk => assert text[4] == 'P';
    case PskSha256 => assert text[4] == 'P';
    case FtPsk => assert text[1] == 'T' && text[3] == 'P';
    case FtSae => assert text[1] == 'T' && text[3] == 'S';
    case _ =>
  }

  const UNSUPPORTED: set<WpaKeyManagement> := {
    UnknownKeyManagement, NoKeyManagement, Ieee8021xNoWpa, WpaNone, Wps, WapiPsk, WapiCert, Cckm}

  lemma SupportedClass(k: WpaKeyManagement)
    ensures IsValidKeyManagement(k) <==> k !in UNSUPPORTED
  {
  }

  /** Among the texts of the list is one that needs the server identifier, or the flag. */
  predicate ListNeedsServerId(ks: seq<WpaKeyManagement>) {
    exists k :: k in ks && NeedsServerId(WpaKeyManagementPropertyValue(k))
  }

  predicate ListNeedsDot1x(ks: seq<WpaKeyManagement>) {
    exists k :: k in ks && NeedsDot1x(WpaKeyManagementPropertyValue(k))
  }

  predicate IsSupported(ks: seq<WpaKeyManagement>) { ks != [] && forall k :: k in ks ==> k !in UNSUPPORTED }

  lemma ListClasses(ks: seq<WpaKeyManagement>)
    ensures IsSupported(ks) <==> ks != [] && AllValidKeyManagement(ks)
    ensures AllValidKeyManagement(ks) ==>
              (AnyFastTransition(ks) <==> ListNeedsServerId(ks)) && (AnyIeee8021x(ks) <==> ListNeedsDot1x(ks))
  {
    forall k | k in ks
      ensures IsValidKeyManagement(k) <==> k !in UNSUPPORTED
      ensures IsValidKeyManagement(k) ==>
                && (IsKeyManagementFastTransition(k) <==> NeedsServerId(WpaKeyManagementPropertyValue(k)))
                && (IsKeyManagementIeee8021x(k) <==> NeedsDot1x(WpaKeyManagementPropertyValue(k)))
    {
      SupportedClass(k);
      if IsValidKeyManagement(k) {
        ServerIdClass(k);
        Dot1xClass(k);
      }
    }
  }

  /** SetKeyManagement is not a transaction when a fast transition suite is among its values: setting the
      network access server identifier reloads on its own. A failed call leaves the active configuration
      unchanged exactly when there is no such suite or that first reload was not accepted either. */
  lemma KeyManagementFailure(v: Verdicts, d: Daemon, ks: seq<WpaKeyManagement>, nasId: string)
    requires Consistent(d) && !Perform(v, d, KeyManagementPlan(ks, nasId, Now)).1
    ensures Perform(v, d, KeyManagementPlan(ks, nasId, Now)).0.active == d.active
            <==> !(IsSupported(ks) && ListNeedsServerId(ks) && |d.sent| in v && |d.sent| + 1 in v)
  {
    ListClasses(ks);
    if IsSupported(ks) {
      SupportedFailure(v, d, ks, nasId);
    } else {
      PerformThrow(v, d);
    }
  }

  lemma SupportedFailure(v: Verdicts, d: Daemon, ks: seq<WpaKeyManagement>, nasId: string)
    requires ks != [] && AllValidKeyManagement(ks)
    requires Consistent(d) && !Perform(v, d, KeyManagementPlan(ks, nasId, Now)).1
    ensures Perform(v, d, KeyManagementPlan(ks, nasId, Now)).0.active == d.active
            <==> !(AnyFastTransition(ks) && |d.sent| in v && |d.sent| + 1 in v)
  {
    var nas := NasPlan(ks, nasId);
    var tail := Ieee8021xPlan(ks) + [Send(Set("wpa_key_mgmt", KeyManagementText(ks)))] + [Send(Reload)];
    assert KeyManagementPlan(ks, nasId, Now) == nas + tail;
    PerformAppend(v, d, nas, tail);
    NasOutcome(v, d, ks, nasId);
    if Perform(v, d, nas).1 {
      assert IsTransaction(tail);
      TransactionSafety(v, Perform(v, d, nas).0, tail);
    }
  }

  /** The part that comes first: it moves the active configuration exactly when it is there and its SET and RELOAD
      are both accepted. */
  lemma NasOutcome(v: Verdicts, d: Daemon, ks: seq<WpaKeyManagement>, nasId: string)
    requires Consistent(d)
    ensures var (d', ok) := Perform(v, d, NasPlan(ks, nasId));
            && (ok <==> AnyFastTransition(ks) ==> |d.sent| in v && |d.sent| + 1 in v)
            && (d'.active == d.active <==> !(AnyFastTransition(ks) && ok))
  {
    if AnyFastTransition(ks) {
      var command := Set("nas_identifier", nasId);
      PerformOne(v, d, command);
      PerformAppend(v, d, [Send(command)], [Send(Reload)]);
      PerformOne(v, Exec(v, d, command), Reload);
      InForceIsPrefix(d.accepted);
    }
  }

  /** For example: the list itself is rejected, and yet the server identifier is active. */
  lemma FailedKeyManagementIsActive(nasId: string)
    ensures var v: Verdicts := iset{0, 1};
            var (d', ok) := Perform(v, NEW_DAEMON, KeyManagementPlan([FtPsk], nasId, Now));
            !ok && d'.active == [Setting("nas_identifier", nasId)]
  {
    var v: Verdicts := iset{0, 1};
    assert FtPsk in [FtPsk] && IsKeyManagementFastTransition(FtPsk);
    assert !AnyIeee8021x([FtPsk]) by { assert forall k :: k in [FtPsk] ==> !IsKeyManagementIeee8021x(k); }
    var set1, set2 := Set("nas_identifier", nasId), Set("wpa_key_mgmt", KeyManagementText([FtPsk]));
    assert KeyManagementPlan([FtPsk], nasId, Now) == [Send(set1)] + ([Send(Reload)] + ([Send(set2)] + [Send(Reload)]));
    var d1 := Exec(v, NEW_DAEMON, set1);
    var d2 := Exec(v, d1, Reload);
    PerformAppend(v, NEW_DAEMON, [Send(set1)], [Send(Reload)] + ([Send(set2)] + [Send(Reload)]));
    PerformOne(v, NEW_DAEMON, set1);
    PerformAppend(v, d1, [Send(Reload)], [Send(set2)] + [Send(Reload)]);
    PerformOne(v, d1, Reload);
    PerformAppend(v, d2, [Send(set2)], [Send(Reload)]);
    PerformOne(v, d2, set2);
  }

  function KeyManagementSettings(ks: seq<WpaKeyManagement>, nasId: string): seq<Setting> {
    (if ListNeedsServerId(ks) then [Setting("nas_identifier", nasId)] else [])
    + (if ListNeedsDot1x(ks) then [Setting("ieee8021x", "1")] else [])
    + [Setting("wpa_key_mgmt", KeyManagementText(ks))]
  }

  lemma KeyManagementPlanSettings(ks: seq<WpaKeyManagement>, nasId: string)
    requires AllValidKeyManagement(ks)
    ensures Settings(Commands(NasPlan(ks, nasId) + Ieee8021xPlan(ks)
                              + SetPropertyPlan("wpa_key_mgmt", KeyManagementText(ks), Defer)))
         == KeyManagementSettings(ks, nasId)
  {
    var nas, dot1x := NasPlan(ks, nasId), Ieee8021xPlan(ks);
    ListClasses(ks);
    PropertyPlanSettings("nas_identifier", nasId, Now);
    PropertyPlanSettings("ieee8021x", "1", Defer);
    PropertyPlanSettings("wpa_key_mgmt", KeyManagementText(ks), Defer);
    PlanSettingsAppend(nas, dot1x);
    PlanSettingsAppend(nas + dot1x, SetPropertyPlan("wpa_key_mgmt", KeyManagementText(ks), Defer));
  }

  /** After a successful call with Now the side settings that the list needs and the list itself are in force, and
      the list can be read back from its property. */
  lemma KeyManagementInForce(v: Verdicts, d: Daemon, ks: seq<WpaKeyManagement>, nasId: string)
    requires Perform(v, d, KeyManagementPlan(ks, nasId, Now)).1
    ensures Perform(v, d, KeyManagementPlan(ks, nasId, Now)).0.active == d.staged + KeyManagementSettings(ks, nasId)
    ensures KeyManagementsFromText(KeyManagementText(ks)) == ks
  {
    PerformThrow(v, d);
    var init := NasPlan(ks, nasId) + Ieee8021xPlan(ks) + SetPropertyPlan("wpa_key_mgmt", KeyManagementText(ks), Defer);
    assert KeyManagementPlan(ks, nasId, Now) == init + [Send(Reload)];
    KeyManagementPlanSettings(ks, nasId);
    EndsWithReload(v, d, init);
    KeyManagementRoundTrip(ks);
  }

  /** One property after others: how far the commands must be accepted, and what is staged then. */
  lemma NextProperty(v: Verdicts, d: Daemon, first: seq<Action>, count: nat, name: string, value: string,
                     e: EnforceConfigurationChange)
    requires Perform(v, d, first).1 <==> AcceptsNext(v, |d.sent|, count)
    requires Perform(v, d, first).1 ==> |Perform(v, d, first).0.sent| == |d.sent| + count
    ensures var (d', ok) := Perform(v, d, first + SetPropertyPlan(name, value, e));
            var more := if e.Now? then 2 else 1;
            && (ok <==> AcceptsNext(v, |d.sent|, count + more))
            && (ok ==> |d'.sent| == |d.sent| + count + more)
            && d'.active == if ok && e.Now? then d'.staged else Perform(v, d, first).0.active
  {
    var (d1, ok1) := Perform(v, d, first);
    PerformAppend(v, d, first, SetPropertyPlan(name, value, e));
    if ok1 {
      PropertyOutcome(v, d1, name, value, e);
      SentByProperty(v, d1, name, value, e);
    }
  }

  lemma SentByProperty(v: Verdicts, d: Daemon, name: string, value: string, e: EnforceConfigurationChange)
    ensures var (d', ok) := Perform(v, d, SetPropertyPlan(name, value, e));
            ok ==> |d'.sent| == |d.sent| + if e.Now? then 2 else 1
  {
    PerformAppend(v, d, [Send(Set(name, value))], ReloadIf(e));
    PerformOne(v, d, Set(name, value));
    if e.Now? {
      PerformOne(v, Exec(v, d, Set(name, value)), Reload);
    }
  }

  /** How many commands setting a list takes. */
  function KeyManagementCommands(ks: seq<WpaKeyManagement>, e: EnforceConfigurationChange): nat {
    (if ListNeedsServerId(ks) then 2 else 0) + (if ListNeedsDot1x(ks) then 1 else 0) + (if e.Now? then 2 else 1)
  }

  /** SetKeyManagement succeeds exactly for a list of supported suites, not empty, whose commands are all accepted. Even
      with Defer the server identifier is put into force, and nothing else is. */
  lemma KeyManagementAccepted(
    v: Verdicts, d: Daemon, ks: seq<WpaKeyManagement>, nasId: string, e: EnforceConfigurationChange)
    ensures var (d', ok) := Perform(v, d, KeyManagementPlan(ks, nasId, e));
            && (ok <==> IsSupported(ks) && AcceptsNext(v, |d.sent|, KeyManagementCommands(ks, e)))
            && (ok && e.Defer? ==>
                  d'.active == if ListNeedsServerId(ks) then d.staged + [Setting("nas_identifier", nasId)]
                               else d.active)
  {
    ListClasses(ks);
    PerformThrow(v, d);
    if IsSupported(ks) {
      var nas, dot1x := NasPlan(ks, nasId), Ieee8021xPlan(ks);
      var first := if ListNeedsServerId(ks) then 2 else 0;
      if ListNeedsServerId(ks) {
        PropertyOutcome(v, d, "nas_identifier", nasId, Now);
        SentByProperty(v, d, "nas_identifier", nasId, Now);
      }
      if ListNeedsDot1x(ks) {
        NextProperty(v, d, nas, first, "ieee8021x", "1", Defer);
      } else {
        assert nas + dot1x == nas;
      }
      NextProperty(v, d, nas + dot1x, first + (if ListNeedsDot1x(ks) then 1 else 0),
                   "wpa_key_mgmt", KeyManagementText(ks), e);
    }
  }

  // ---------- Bit masks ----------

  /** Refusal is decided before any command is sent; otherwise a single SET carries a decimal number whose bits
      are those of the values. */
  lemma MaskPlanMeaning(
    v: Verdicts, d: Daemon, name: string, values: seq<nat>, mask: nat, e: EnforceConfigurationChange)
    ensures (values == [] || exists x :: x in values && !Within(x, mask)) ==>
              Perform(v, d, MaskPlan(name, values, mask, e)) == (d, false)
    ensures values != [] && (forall x :: x in values ==> Within(x, mask)) ==>
              && MaskPlan(name, values, mask, e)[0].Send?
              && var c := MaskPlan(name, values, mask, e)[0].command;
                 && c.Set? && c.name == name && (forall digit :: digit in c.value ==> IsDigit(digit))
                 && forall b: nat :: Bit(DigitsValue(c.value), b) <==> exists x :: x in values && Bit(x, b)
  {
    if values == [] || !AllWithin(values, mask) {
      PerformThrow(v, d);
    } else {
      DecimalValue(OrAll(values));
      forall b: nat
        ensures Bit(OrAll(values), b) <==> exists x :: x in values && Bit(x, b)
      {
        OrAllBit(values, b);
      }
    }
  }

  /** The OR of numbers below 4, from which of them occur. */
  lemma OrOfSmall(values: seq<nat>)
    requires forall x :: x in values ==> x < 4
    ensures OrAll(values)
         == (if 1 in values || 3 in values then 1 else 0) + (if 2 in values || 3 in values then 2 else 0)
  {
    var n := (if 1 in values || 3 in values then 1 else 0) + (if 2 in values || 3 in values then 2 else 0);
    forall b: nat
      ensures Bit(OrAll(values), b) <==> Bit(n, b)
    {
      OrAllBit(values, b);
      forall x: nat | x < 4
        ensures Bit(x, b) <==> (b == 0 && (x == 1 || x == 3)) || (b == 1 && (x == 2 || x == 3))
      {
        SmallBits(x, b);
      }
    }
    SameBits(OrAll(values), n);
  }

  lemma SmallBits(x: nat, b: nat)
    requires x < 4
    ensures Bit(x, b) <==> (b == 0 && (x == 1 || x == 3)) || (b == 1 && (x == 2 || x == 3))
  {
    if b > 1 {
      assert Bit(x, b) == Bit(x / 2 / 2, b - 2);
      ZeroBits(b - 2);
    }
  }

  /** What a mask of two values is sent as. */
  function TwoBits(low: bool, high: bool): string {
    if low && high then "3" else if high then "2" else if low then "1" else "0"
  }

  lemma SmallDecimals()
    ensures Decimal(0) == "0" && Decimal(1) == "1" && Decimal(2) == "2" && Decimal(3) == "3"
  {
  }

  lemma AlgorithmsText(algorithms: seq<WpaAuthenticationAlgorithm>)
    requires forall a :: a in algorithms ==> a in {Invalid, OpenSystem, SharedKey}
    ensures Decimal(OrAll(AlgorithmValues(algorithms))) == TwoBits(OpenSystem in algorithms, SharedKey in algorithms)
  {
    var values := AlgorithmValues(algorithms);
    forall i | 0 <= i < |values|
      ensures values[i] == if algorithms[i] == OpenSystem then 1 else if algorithms[i] == SharedKey then 2 else 0
    {
      assert algorithms[i] in algorithms;
    }
    assert 1 in values <==> OpenSystem in algorithms;
    assert 2 in values <==> SharedKey in algorithms;
    OrOfSmall(values);
    SmallDecimals();
  }

  /** SetAuthenticationAlgorithms with Now succeeds exactly for a list of open system, shared key and Invalid whose two
      commands are accepted; then "auth_algs" is in force with 1 for open system plus 2 for shared key. Otherwise the
      active configuration is what it was. */
  lemma AlgorithmsInForce(v: Verdicts, d: Daemon, algorithms: seq<WpaAuthenticationAlgorithm>)
    ensures var plan := MaskPlan("auth_algs", AlgorithmValues(algorithms), WPA_AUTHENTICATION_ALGORITHM_MASK, Now);
            var (d', ok) := Perform(v, d, plan);
            && (ok <==> algorithms != [] && (forall a :: a in algorithms ==> a in {Invalid, OpenSystem, SharedKey})
                        && AcceptsNext(v, |d.sent|, 2))
            && d'.active == if !ok then d.active else
                 d.staged + [Setting("auth_algs", TwoBits(OpenSystem in algorithms, SharedKey in algorithms))]
  {
    PerformThrow(v, d);
    PropertyOutcome(v, d, "auth_algs", Decimal(OrAll(AlgorithmValues(algorithms))), Now);
    if algorithms != [] {
      AlgorithmsAccepted(algorithms, Now);
    }
    if forall a :: a in algorithms ==> a in {Invalid, OpenSystem, SharedKey} {
      AlgorithmsText(algorithms);
    }
    assert SetPropertyPlan("auth_algs", Decimal(OrAll(AlgorithmValues(algorithms))), Now)[0].Send?;
  }

  lemma ProtocolsText(protocols: seq<WpaSecurityProtocol>)
    ensures Decimal(OrAll(ProtocolValues(protocols))) == TwoBits(Wpa in protocols, Wpa2 in protocols)
  {
    var values := ProtocolValues(protocols);
    assert forall i :: 0 <= i < |values| ==>
        values[i] == if protocols[i] == Wpa then 1 else if protocols[i] == Wpa2 then 2 else 0;
    assert 1 in values <==> Wpa in protocols;
    assert 2 in values <==> Wpa2 in protocols;
    OrOfSmall(values);
    SmallDecimals();
  }

  /** SetWpaSecurityProtocols with Now succeeds exactly for a list that is not empty and whose two commands are
      accepted; then "wpa" is in force with 1 for WPA plus 2 for WPA2, which is also WPA3. */
  lemma ProtocolsInForce(v: Verdicts, d: Daemon, protocols: seq<WpaSecurityProtocol>)
    ensures var (d', ok) := Perform(v, d, MaskPlan("wpa", ProtocolValues(protocols), WPA_SECURITY_PROTOCOL_MASK, Now));
            && (ok <==> protocols != [] && AcceptsNext(v, |d.sent|, 2))
            && d'.active == if !ok then d.active else
                 d.staged + [Setting("wpa", TwoBits(Wpa in protocols, Wpa2 in protocols))]
  {
    PerformThrow(v, d);
    PropertyOutcome(v, d, "wpa", Decimal(OrAll(ProtocolValues(protocols))), Now);
    ProtocolsAccepted(protocols, Now);
    ProtocolsText(protocols);
    assert SetPropertyPlan("wpa", Decimal(OrAll(ProtocolValues(protocols))), Now)[0].Send?;
  }

  /** Reordering or repeating the values changes nothing of what is sent. */
  lemma MaskPlanOfSameValues(name: string, u: seq<nat>, w: seq<nat>, mask: nat, e: EnforceConfigurationChange)
    requires forall x :: x in u <==> x in w
    ensures MaskPlan(name, u, mask, e) == MaskPlan(name, w, mask, e)
  {
    OrAllOfSameValues(u, w);
    if u != [] {
      assert u[0] in w;
    }
    if w != [] {
      assert w[0] in u;
    }
  }

  /** Which algorithms are refused: those other than open system and shared key, except that the Invalid
      enumerator, being 0, passes the mask and is sent as 0. */
  lemma AlgorithmsAccepted(algorithms: seq<WpaAuthenticationAlgorithm>, e: EnforceConfigurationChange)
    requires algorithms != []
    ensures MaskPlan("auth_algs", AlgorithmValues(algorithms), WPA_AUTHENTICATION_ALGORITHM_MASK, e) != [Throw]
            <==> forall a :: a in algorithms ==> a in {Invalid, OpenSystem, SharedKey}
    ensures MaskPlan("auth_algs", AlgorithmValues([Invalid]), WPA_AUTHENTICATION_ALGORITHM_MASK, e)
         == SetPropertyPlan("auth_algs", "0", e)
  {
    var values := AlgorithmValues(algorithms);
    forall a: WpaAuthenticationAlgorithm
      ensures Within(WpaAuthenticationAlgorithmPropertyValue(a), 3) <==> a in {Invalid, OpenSystem, SharedKey}
    {
      SmallMask(WpaAuthenticationAlgorithmPropertyValue(a));
    }
    if forall a :: a in algorithms ==> a in {Invalid, OpenSystem, SharedKey} {
      forall x | x in values
        ensures Within(x, 3)
      {
        var i :| 0 <= i < |values| && values[i] == x;
        assert algorithms[i] in algorithms;
      }
      assert AllWithin(values, WPA_AUTHENTICATION_ALGORITHM_MASK);
    } else {
      var i :| 0 <= i < |algorithms| && algorithms[i] !in {Invalid, OpenSystem, SharedKey};
      assert values[i] in values && !Within(values[i], 3);
    }
    assert SetPropertyPlan("auth_algs", Decimal(OrAll(values)), e)[0].Send?;
    assert AlgorithmValues([Invalid]) == [0];
    assert OrAll([0]) == 0 by { assert [0][..0] == []; }
    assert Decimal(0) == "0";
  }

  /** Every list of protocols but the empty one is accepted: Unknown is 0 and passes the mask too, alone it is sent
      as 0. */
  lemma ProtocolsAccepted(protocols: seq<WpaSecurityProtocol>, e: EnforceConfigurationChange)
    ensures MaskPlan("wpa", ProtocolValues(protocols), WPA_SECURITY_PROTOCOL_MASK, e) == [Throw] <==> protocols == []
    ensures MaskPlan("wpa", ProtocolValues([UnknownProtocol]), WPA_SECURITY_PROTOCOL_MASK, e)
         == SetPropertyPlan("wpa", "0", e)
  {
    var values := ProtocolValues(protocols);
    forall x | x in values
      ensures Within(x, WPA_SECURITY_PROTOCOL_MASK)
    {
      SmallMask(x);
    }
    assert SetPropertyPlan("wpa", Decimal(OrAll(values)), e)[0].Send?;
    assert ProtocolValues([UnknownProtocol]) == [0];
    assert OrAll([0]) == 0 by { assert [0][..0] == []; }
    SmallMask(0);
    assert Decimal(0) == "0";
  }

  /** The numbers that fit in the two low bits. */
  lemma SmallMask(x: nat)
    ensures Within(x, 3) <==> x < 4
  {
    assert AndNot(x, 3) == Digit(Odd(x) && !Odd(3)) + 2 * AndNot(x / 2, 1);
    assert AndNot(x / 2, 1) == Digit(Odd(x / 2) && !Odd(1)) + 2 * AndNot(x / 2 / 2, 0);
    NothingMasked(x / 2 / 2);
  }

  lemma {:induction false} NothingMasked(x: nat)
    ensures AndNot(x, 0) == x
  {
    if x > 0 {
      NothingMasked(x / 2);
    }
  }
}
