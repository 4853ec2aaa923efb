/** The controller of an access point as a record that each call replaces one entry of, and sequences of calls. */
module AccessPointControl {
  import opened Wrappers
  import opened CipherSuites
  import Radius = RadiusConfiguration

  datatype Code =
    | UnknownCode | Succeeded | InvalidParameter | AccessPointInvalid | AccessPointNotEnabled | OperationNotSupported
    | InternalError

  datatype PhyType = UnknownPhy | B | G | N | A | Ac | Ad | Ax | Be

  datatype FrequencyBand = UnknownBand | TwoPointFourGHz | FiveGHz | SixGHz

  datatype AuthenticationAlgorithm =
    | UnknownAlgorithm | OpenSystem | SharedKey | FastBssTransition | Sae | Fils | FilsPfs | FilsPublicKey
    | VendorSpecific

  /** An AKM suite, by its suite type in IEEE 802.11-2020 section 9.4.2.24.3. */
  datatype AkmSuite = UnknownAkm | Akm(suiteType: nat)

  datatype PskValue = NoPskValue | Hex(hex: string) | Raw(raw: string)

  datatype Psk = NoPsk | Passphrase(passphrase: string) | Value(value: PskValue)

  /** Authentication data as requested: PSK data, which may lack its key, and SAE passwords. */
  datatype AuthenticationData = AuthenticationData(psk: Option<Option<Psk>>, sae: Option<seq<string>>)

  type CipherTable = Ieee80211Ciphers

  datatype Capabilities = Capabilities(phyTypes: seq<PhyType>, frequencyBands: seq<FrequencyBand>)

  /** The record behind the controller; None is an entry that was never set. */
  datatype Record = Record(
    phyType: Option<PhyType>,
    radius: Option<Radius.Configuration>,
    algorithms: Option<seq<AuthenticationAlgorithm>>,
    authenticationData: Option<AuthenticationData>,
    akmSuites: Option<seq<AkmSuite>>,
    cipherSuites: Option<CipherTable>,
    ssid: Option<string>,
    frequencyBands: Option<seq<FrequencyBand>>,
    networkBridge: Option<string>,
    isEnabled: bool)

  const NEW_RECORD := Record(None, None, None, None, None, None, None, None, None, false)

  datatype Call =
    | GetCapabilities
    | GetOperationalState
    | SetPhyType(phyType: PhyType)
    | SetRadiusConfiguration(radius: Radius.Configuration)
    | SetAuthenticationAlgorithms(algorithms: seq<AuthenticationAlgorithm>)
    | SetAuthenticationData(authenticationData: AuthenticationData)
    | SetAkmSuites(akmSuites: seq<AkmSuite>)
    | SetPairwiseCipherSuites(cipherSuites: CipherTable)
    | SetSsid(ssid: string)
    | SetFrequencyBands(frequencyBands: seq<FrequencyBand>)
    | SetNetworkBridge(networkBridge: string)
    | SetOperationalState(isEnabled: bool)

  predicate IsSetter(c: Call) { !c.GetCapabilities? && !c.GetOperationalState? }

  function Stored(r: Record, c: Call): Record {
    match c
    case SetPhyType(x) => r.(phyType := Some(x))
    case SetRadiusConfiguration(x) => r.(radius := Some(x))
    case SetAuthenticationAlgorithms(x) => r.(algorithms := Some(x))
    case SetAuthenticationData(x) => r.(authenticationData := Some(x))
    case SetAkmSuites(x) => r.(akmSuites := Some(x))
    case SetPairwiseCipherSuites(x) => r.(cipherSuites := Some(x))
    case SetSsid(x) => r.(ssid := Some(x))
    case SetFrequencyBands(x) => r.(frequencyBands := Some(x))
    case SetNetworkBridge(x) => r.(networkBridge := Some(x))
    case SetOperationalState(x) => r.(isEnabled := x)
    case GetCapabilities => r
    case GetOperationalState => r
  }

  /** The code that each call to the controller ends with, by number; arbitrary. A call that does not succeed
      changes nothing. */
  type Answers = nat -> Code

  datatype State = State(record: Record, calls: seq<Call>)

  function Execute(answers: Answers, s: State, c: Call): State {
    State(if answers(|s.calls|) == Succeeded then Stored(s.record, c) else s.record, s.calls + [c])
  }

  class AccessPointController {
    const capabilities: Capabilities
    const answers: Answers
    var record: Record
    var calls: seq<Call>

    function Now(): State
      reads this
    {
      State(record, calls)
    }

    constructor (capabilities: Capabilities, answers: Answers)
      ensures this.capabilities == capabilities && this.answers == answers && Now() == State(NEW_RECORD, [])
    {
      this.capabilities, this.answers, record, calls := capabilities, answers, NEW_RECORD, [];
    }

    method Invoke(call: Call) returns (code: Code)
      modifies this
      ensures Now() == Execute(answers, old(Now()), call)
      ensures code == answers(|old(calls)|)
    {
      code := answers(|calls|);
      if code == Succeeded {
        record := Stored(record, call);
      }
      calls := calls + [call];
    }
  }

  // ---------- Sequences of calls ----------

  /** A step of a service operation: a call to the controller, or the refusal of the request. */
  datatype Step = Ask(call: Call) | Refuse(code: Code)

  /** The operation that takes these steps until one does not succeed, and the code it ends with. */
  function Perform(answers: Answers, s: State, plan: seq<Step>): (State, Code)
    decreases |plan|
  {
    if plan == [] then (s, Succeeded)
    else
      match plan[0]
      case Refuse(code) => (s, code)
      case Ask(call) =>
        var code := answers(|s.calls|);
        if code == Succeeded then Perform(answers, Execute(answers, s, call), plan[1..])
        else (Execute(answers, s, call), code)
  }

  lemma {:induction false} PerformAppend(answers: Answers, s: State, a: seq<Step>, b: seq<Step>)
    requires Refusals(a)
    ensures Perform(answers, s, a + b)
         == if Perform(answers, s, a).1 == Succeeded then Perform(answers, Perform(answers, s, a).0, b)
            else Perform(answers, s, a)
    decreases |a|
  {
    if a == [] {
      assert a + b == b;
    } else {
      assert (a + b)[0] == a[0] && (a + b)[1..] == a[1..] + b;
      if a[0].Ask? {
        PerformAppend(answers, Execute(answers, s, a[0].call), a[1..], b);
      }
    }
  }

  /** No refusal carries the code of a success. */
  predicate Refusals(plan: seq<Step>) { Refuse(Succeeded) !in plan }

  lemma PerformRefuse(answers: Answers, s: State, code: Code)
    ensures Perform(answers, s, [Refuse(code)]) == (s, code)
  {
  }

  lemma PerformAsk(answers: Answers, s: State, call: Call)
    ensures Perform(answers, s, [Ask(call)]) == (Execute(answers, s, call), answers(|s.calls|))
  {
  }

  /** The rest of a plan after its first call. */
  lemma AskFirst(answers: Answers, s: State, call: Call, rest: seq<Step>)
    ensures Perform(answers, s, [Ask(call)] + rest)
         == if answers(|s.calls|) == Succeeded then Perform(answers, Execute(answers, s, call), rest)
            else (Execute(answers, s, call), answers(|s.calls|))
  {
  }

  // ---------- Which calls are made ----------

  predicate HasRefusal(plan: seq<Step>) { exists step :: step in plan && step.Refuse? }

  /** The calls of a plan, up to its first refusal. */
  function CallsOf(plan: seq<Step>): seq<Call> {
    if plan == [] || plan[0].Refuse? then [] else [plan[0].call] + CallsOf(plan[1..])
  }

  function Setters(calls: seq<Call>): seq<Call> {
    if calls == [] then [] else (if IsSetter(calls[0]) then [calls[0]] else []) + Setters(calls[1..])
  }

  function StoredAll(r: Record, calls: seq<Call>): Record
    decreases |calls|
  {
    if calls == [] then r else StoredAll(Stored(r, calls[0]), calls[1..])
  }

  /** The calls that an operation made. */
  function Made(before: State, after: State): seq<Call>
    requires before.calls <= after.calls
  {
    after.calls[|before.calls|..]
  }

  /** The calls made from `s` on are the first one and those made after it. */
  lemma MadeFirst(s: State, next: State, after: State, call: Call)
    requires next.calls == s.calls + [call] && next.calls <= after.calls
    ensures s.calls <= after.calls && Made(s, after) == [call] + Made(next, after)
  {
    assert after.calls[|s.calls|] == next.calls[|s.calls|];
  }

  lemma {:induction false} SettersAppend(a: seq<Call>, b: seq<Call>)
    ensures Setters(a + b) == Setters(a) + Setters(b)
  {
    if a == [] {
      assert a + b == b;
    } else {
      assert (a + b)[0] == a[0] && (a + b)[1..] == a[1..] + b;
      SettersAppend(a[1..], b);
    }
  }

  lemma SettersPrefix(a: seq<Call>, b: seq<Call>)
    requires a <= b
    ensures Setters(a) <= Setters(b)
  {
  }

  /** Whatever the controller answers: the calls made are a prefix of those of the plan, and all of them when the
      operation succeeds. */
  lemma {:induction false} CallsArePrefix(answers: Answers, s: State, plan: seq<Step>)
    requires Refusals(plan)
    ensures s.calls <= Perform(answers, s, plan).0.calls
    ensures Made(s, Perform(answers, s, plan).0) <= CallsOf(plan)
    ensures Perform(answers, s, plan).1 == Succeeded ==> Made(s, Perform(answers, s, plan).0) == CallsOf(plan)
    decreases |plan|
  {
    if plan != [] && plan[0].Ask? {
      var call, next := plan[0].call, Execute(answers, s, plan[0].call);
      var after := Perform(answers, next, plan[1..]).0;
      CallsArePrefix(answers, next, plan[1..]);
      MadeFirst(s, next, if answers(|s.calls|) == Succeeded then after else next, call);
    }
  }

  /** Every call that was made succeeded. */
  ghost predicate AllAnswered(answers: Answers, before: State, after: State) {
    forall n :: |before.calls| <= n < |after.calls| ==> answers(n) == Succeeded
  }

  lemma RefusalFirst(plan: seq<Step>)
    requires plan != []
    ensures HasRefusal(plan) <==> plan[0].Refuse? || HasRefusal(plan[1..])
  {
    assert forall step :: step in plan <==> step == plan[0] || step in plan[1..];
  }

  /** A call is made only when those before it succeeded, and the operation succeeds exactly when the plan refuses
      nothing and all calls made succeeded. */
  lemma {:induction false} CallsStopAtFailure(answers: Answers, s: State, plan: seq<Step>)
    requires Refusals(plan)
    ensures var (after, code) := Perform(answers, s, plan);
            && s.calls <= after.calls
            && (forall n :: |s.calls| <= n < |after.calls| - 1 ==> answers(n) == Succeeded)
            && (code == Succeeded <==> !HasRefusal(plan) && AllAnswered(answers, s, after))
    decreases |plan|
  {
    if plan != [] {
      RefusalFirst(plan);
      if plan[0].Ask? {
        var next := Execute(answers, s, plan[0].call);
        if answers(|s.calls|) == Succeeded {
          CallsStopAtFailure(answers, next, plan[1..]);
        } else {
          assert !AllAnswered(answers, s, next);
        }
      }
    }
  }

  lemma StoredFirst(r: Record, call: Call, rest: seq<Call>)
    ensures StoredAll(r, [call] + rest) == StoredAll(Stored(r, call), rest)
    ensures rest != [] ==> StoredAll(r, ([call] + rest)[..|rest|]) == StoredAll(Stored(r, call), rest[..|rest| - 1])
  {
    assert ([call] + rest)[1..] == rest;
    if rest != [] {
      assert ([call] + rest)[..|rest|][1..] == rest[..|rest| - 1];
    }
  }

  /** All calls that were made are stored, except a last one that failed. */
  lemma {:induction false} CallsAreStored(answers: Answers, s: State, plan: seq<Step>)
    ensures var after := Perform(answers, s, plan).0;
            && s.calls <= after.calls
            && (AllAnswered(answers, s, after) ==> after.record == StoredAll(s.record, Made(s, after)))
            && (!AllAnswered(answers, s, after) ==>
                  && |s.calls| < |after.calls|
                  && after.record == StoredAll(s.record, Made(s, after)[..|Made(s, after)| - 1]))
    decreases |plan|
  {
    if plan != [] && plan[0].Ask? {
      var call, next := plan[0].call, Execute(answers, s, plan[0].call);
      if answers(|s.calls|) == Succeeded {
        var after := Perform(answers, next, plan[1..]).0;
        CallsAreStored(answers, next, plan[1..]);
        MadeFirst(s, next, after, call);
        StoredFirst(s.record, call, Made(next, after));
        assert AllAnswered(answers, s, after) <==> AllAnswered(answers, next, after);
      } else {
        MadeFirst(s, next, next, call);
        assert Made(s, next)[..0] == [];
        assert !AllAnswered(answers, s, next);
      }
    }
  }

  lemma {:induction false} GettersStoreNothing(r: Record, calls: seq<Call>)
    ensures StoredAll(r, calls) == StoredAll(r, Setters(calls))
    decreases |calls|
  {
    if calls != [] {
      GettersStoreNothing(Stored(r, calls[0]), calls[1..]);
      var rest := Setters(calls[1..]);
      if IsSetter(calls[0]) {
        assert Setters(calls) == [calls[0]] + rest;
      } else {
        assert Setters(calls) == rest;
        assert Stored(r, calls[0]) == r;
      }
    }
  }

  // ---------- What every run keeps ----------

  const PASSPHRASE_LENGTH_MINIMUM: nat := 8
  const PASSPHRASE_LENGTH_MAXIMUM: nat := 63
  const PSK_LENGTH: nat := 32

  predicate IsValidPsk(psk: Psk) {
    match psk
    case NoPsk => false
    case Passphrase(text) => PASSPHRASE_LENGTH_MINIMUM <= |text| <= PASSPHRASE_LENGTH_MAXIMUM
    case Value(NoPskValue) => false
    case Value(Hex(text)) => |text| == PSK_LENGTH * 2
    case Value(Raw(bytes)) => |bytes| == PSK_LENGTH
  }

  predicate IsValidData(d: AuthenticationData) {
    && (d.psk.Some? || d.sae.Some?)
    && (d.psk.Some? ==> d.psk.value.Some? && IsValidPsk(d.psk.value.value))
    && (d.sae.Some? ==> d.sae.value != [])
  }

  /** The same with the lengths written out. */
  predicate IsKey(key: Psk) {
    match key
    case NoPsk => false
    case Passphrase(text) => 8 <= |text| <= 63
    case Value(NoPskValue) => false
    case Value(Hex(text)) => |text| == 64
    case Value(Raw(bytes)) => |bytes| == 32
  }

  predicate CanSetData(d: AuthenticationData) {
    && (d.psk.Some? || d.sae.Some?)
    && (d.psk.Some? ==> d.psk.value.Some? && IsKey(d.psk.value.value))
    && (d.sae.Some? ==> d.sae.value != [])
  }

  predicate IsCompleteServer(s: Radius.Server) { s.address != "" && s.sharedSecret != "" }

  /** What an entry of the record may be set to. */
  predicate IsSound(c: Capabilities, call: Call) {
    match call
    case SetPhyType(x) => x in c.phyTypes
    case SetRadiusConfiguration(x) => forall s :: s in Radius.Servers(x) ==> IsCompleteServer(s)
    case SetAuthenticationAlgorithms(x) => x != [] && UnknownAlgorithm !in x
    case SetAuthenticationData(x) => CanSetData(x)
    case SetAkmSuites(x) => x != [] && UnknownAkm !in x
    case SetPairwiseCipherSuites(x) => x != map[] && UnknownSecurity !in x
    case SetFrequencyBands(x) => x != [] && forall b :: b in x ==> b in c.frequencyBands
    case _ => true
  }

  /** The entries of the record that are not free text. */
  datatype Field =
    | PhyTypeField | RadiusField | AlgorithmsField | AuthenticationDataField | AkmSuitesField | CipherSuitesField
    | FrequencyBandsField

  /** The call that would set an entry to what it is; none when it was never set. */
  function EntryOf(r: Record, f: Field): Option<Call> {
    match f
    case PhyTypeField => if r.phyType.Some? then Some(SetPhyType(r.phyType.value)) else None
    case RadiusField => if r.radius.Some? then Some(SetRadiusConfiguration(r.radius.value)) else None
    case AlgorithmsField =>
      if r.algorithms.Some? then Some(SetAuthenticationAlgorithms(r.algorithms.value)) else None
    case AuthenticationDataField =>
      if r.authenticationData.Some? then Some(SetAuthenticationData(r.authenticationData.value)) else None
    case AkmSuitesField => if r.akmSuites.Some? then Some(SetAkmSuites(r.akmSuites.value)) else None
    case CipherSuitesField => if r.cipherSuites.Some? then Some(SetPairwiseCipherSuites(r.cipherSuites.value)) else None
    case FrequencyBandsField =>
      if r.frequencyBands.Some? then Some(SetFrequencyBands(r.frequencyBands.value)) else None
  }

  /** Every entry that was set is sound. */
  ghost predicate IsSoundRecord(c: Capabilities, r: Record) {
    forall f :: EntryOf(r, f).Some? ==> IsSound(c, EntryOf(r, f).value)
  }

  predicate AllSound(c: Capabilities, plan: seq<Step>) {
    forall step :: step in plan && step.Ask? ==> IsSound(c, step.call)
  }

  lemma StoredEntry(r: Record, call: Call, f: Field)
    ensures EntryOf(Stored(r, call), f) == Some(call) || EntryOf(Stored(r, call), f) == EntryOf(r, f)
  {
  }

  lemma StoredIsSound(c: Capabilities, r: Record, call: Call)
    requires IsSoundRecord(c, r) && IsSound(c, call)
    ensures IsSoundRecord(c, Stored(r, call))
  {
    forall f | EntryOf(Stored(r, call), f).Some?
      ensures IsSound(c, EntryOf(Stored(r, call), f).value)
    {
      StoredEntry(r, call, f);
    }
  }

  lemma {:induction false} SoundPlansKeepRecordsSound(c: Capabilities, answers: Answers, s: State, plan: seq<Step>)
    requires IsSoundRecord(c, s.record) && AllSound(c, plan)
    ensures IsSoundRecord(c, Perform(answers, s, plan).0.record)
    decreases |plan|
  {
    if plan != [] && plan[0].Ask? {
      assert plan[0] in plan;
      assert forall step :: step in plan[1..] ==> step in plan;
      StoredIsSound(c, s.record, plan[0].call);
      SoundPlansKeepRecordsSound(c, answers, Execute(answers, s, plan[0].call), plan[1..]);
    }
  }

  predicate KeepsOperationalState(plan: seq<Step>) {
    forall step :: step in plan ==> !(step.Ask? && step.call.SetOperationalState?)
  }

  lemma {:induction false} OperationalStateKept(answers: Answers, s: State, plan: seq<Step>)
    requires KeepsOperationalState(plan)
    ensures Perform(answers, s, plan).0.record.isEnabled == s.record.isEnabled
    decreases |plan|
  {
    if plan != [] && plan[0].Ask? {
      assert plan[0] in plan;
      assert forall step :: step in plan[1..] ==> step in plan;
      OperationalStateKept(answers, Execute(answers, s, plan[0].call), plan[1..]);
    }
  }
}
