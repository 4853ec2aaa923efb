/** What a download sends, told from the request and the callbacks alone, message by message. */
module DownloadMessages {
  import opened DataStream
  import opened DownloadReactor
  import opened DownloadRuns

  /** How many writes were reported successful before anything else happened. */
  function Lead(es: seq<Event>): (n: nat)
    ensures n <= |es|
    ensures forall i :: 0 <= i < n ==> Sent(es[i])
    ensures n < |es| ==> !Sent(es[n])
  {
    if es == [] || !Sent(es[0]) then 0 else 1 + Lead(es[1..])
  }

  predicate IsRefused(p: Properties) {
    match p.streamType
    case TypeFixed => !p.typeProperties.Fixed?
    case TypeContinuous => !p.typeProperties.Continuous?
    case _ => true
  }

  predicate IsEmptyStream(p: Properties) { p.streamType == TypeFixed && p.typeProperties == Fixed(0) }

  function Failure(message: string): DownloadData { DownloadData(OperationStatus(Failed, message), "", 0) }

  /** The first message: a refusal, or the first block. */
  function FirstMessage(p: Properties, first: string): DownloadData {
    if IsRefused(p) then
      match p.streamType
      case TypeFixed =>
        Failure("Invalid properties for this streaming type. Expected Fixed for DataStreamTypeFixed")
      case TypeContinuous =>
        Failure("Invalid properties for this streaming type. Expected Continuous for DataStreamTypeContinuous")
      case TypeUnknown => Failure("Invalid streaming type: DataStreamTypeUnknown")
      case TypeOther(_) => Failure("Invalid streaming type: ")
    else
      match p.pattern
      case PatternConstant => DownloadData(OperationStatus(Unknown, "No data sent yet"), first, 1)
      case PatternUnknown => Failure("Unexpected data stream pattern DataStreamPatternUnknown")
      case PatternOther(_) => Failure("Unexpected data stream pattern ")
  }

  /** The message that answers callback `k - 1`: the next block after a success, the last one again after a
      failure. */
  function Message(p: Properties, first: string, es: seq<Event>, k: nat): DownloadData
    requires k <= |es|
  {
    if k == 0 then FirstMessage(p, first)
    else
      match es[k - 1]
      case WriteDone(true, block) =>
        DownloadData(OperationStatus(Succeeded, "Data write successful"), block, (k + 1) % 0x1_0000_0000)
      case _ => Message(p, first, es, k - 1).(status := OperationStatus(Failed, "Data write failed"))
  }

  /** How many messages there are. */
  function Count(p: Properties, es: seq<Event>): nat {
    if IsRefused(p) then 1
    else if IsEmptyStream(p) then 0
    else if p.pattern != PatternConstant then 1
    else
      var n := Lead(es);
      if p.typeProperties.Fixed? && n >= p.typeProperties.numberOfDataBlocksToStream
      then p.typeProperties.numberOfDataBlocksToStream
      else if n < |es| && es[n].WriteDone? then n + 2 else n + 1
  }

  /** No callback adds another message. */
  predicate Settled(p: Properties, es: seq<Event>) {
    || IsRefused(p) || IsEmptyStream(p) || p.pattern != PatternConstant || Lead(es) < |es|
    || (p.typeProperties.Fixed? && |es| >= p.typeProperties.numberOfDataBlocksToStream)
  }

  lemma LeadIs(es: seq<Event>, n: nat)
    requires n <= |es| && (forall i :: 0 <= i < n ==> Sent(es[i])) && (n < |es| ==> !Sent(es[n]))
    ensures Lead(es) == n
  {
  }

  lemma LeadSnoc(es: seq<Event>, e: Event)
    ensures Lead(es + [e]) == if Lead(es) == |es| && Sent(e) then |es| + 1 else Lead(es)
  {
    LeadIs(es + [e], if Lead(es) == |es| && Sent(e) then |es| + 1 else Lead(es));
  }

  lemma SettledStays(p: Properties, es: seq<Event>, e: Event)
    requires Settled(p, es)
    ensures Count(p, es + [e]) == Count(p, es)
  {
    LeadSnoc(es, e);
    assert Lead(es) < |es| ==> (es + [e])[Lead(es)] == es[Lead(es)];
  }

  lemma {:induction false} MessagePrefix(p: Properties, first: string, es: seq<Event>, e: Event, k: nat)
    requires k <= |es|
    ensures Message(p, first, es + [e], k) == Message(p, first, es, k)
    decreases k
  {
    if k > 0 {
      assert (es + [e])[k - 1] == es[k - 1];
      MessagePrefix(p, first, es, e, k - 1);
    }
  }

  /** A reactor that goes on writing, and one that does not. */
  lemma StreamingOrSettled(r: Reactor, p: Properties, es: seq<Event>)
    requires Control(r, p, es)
    ensures Streaming(r, p, es) <==> !Settled(p, es)
  {
    if Streaming(r, p, es) {
      assert forall i :: 0 <= i < |es| ==> es[i] in es;
      LeadIs(es, |es|);
    } else if StreamedOut(p, es) {
      LeadAtLeast(es, BlocksRequested(p));
    }
  }

  lemma LeadAtLeast(es: seq<Event>, n: nat)
    requires n <= |es| && forall i :: 0 <= i < n ==> Sent(es[i])
    ensures Lead(es) >= n
  {
  }

  lemma NothingWrittenAnyMore(r: Reactor, p: Properties, es: seq<Event>, e: Event)
    requires Control(r, p, es) && !Streaming(r, p, es) && Enabled(r, e)
    ensures Step(r, e).writes == r.writes
  {
  }

  ghost predicate AreWritten(r: Reactor, p: Properties, first: string, es: seq<Event>) {
    && |r.writes| == Count(p, es) <= |es| + 1
    && forall k :: 0 <= k < |r.writes| ==> r.writes[k] == Message(p, first, es, k)
  }

  /** While it streams, the fields of the reactor are those of its last message. */
  ghost predicate FollowsLast(r: Reactor, es: seq<Event>) {
    && r.writes != [] && r.data == r.writes[|r.writes| - 1]
    && r.blocksWritten == (|es| + 1) % 0x1_0000_0000
  }

  predicate IsNext(before: Reactor, after: Reactor, p: Properties, first: string, es: seq<Event>) {
    && es != [] && before.writes <= after.writes && |after.writes| == Count(p, es) <= |es| + 1
    && forall k :: |before.writes| <= k < |after.writes| ==> after.writes[k] == Message(p, first, es, k)
  }

  lemma CancelStep(r: Reactor, p: Properties, first: string, es: seq<Event>)
    requires Control(r, p, es) && Streaming(r, p, es) && AreWritten(r, p, first, es)
    ensures IsNext(r, Step(r, Cancel), p, first, es + [Cancel]) && Settled(p, es + [Cancel])
  {
    StreamingOrSettled(r, p, es);
    LeadSnoc(es, Cancel);
    assert (es + [Cancel])[|es|] == Cancel;
  }

  lemma FailedStep(r: Reactor, p: Properties, first: string, es: seq<Event>, block: string)
    requires Control(r, p, es) && Streaming(r, p, es) && AreWritten(r, p, first, es) && FollowsLast(r, es)
    ensures var longer := es + [WriteDone(false, block)];
            IsNext(r, Step(r, WriteDone(false, block)), p, first, longer) && Settled(p, longer)
  {
    StreamingOrSettled(r, p, es);
    LeadSnoc(es, WriteDone(false, block));
    assert (es + [WriteDone(false, block)])[|es|] == WriteDone(false, block);
    MessagePrefix(p, first, es, WriteDone(false, block), |es|);
  }

  lemma SentWrites(r: Reactor, p: Properties, es: seq<Event>, block: string)
    requires Control(r, p, es) && Streaming(r, p, es)
    ensures var after := Step(r, WriteDone(true, block));
            var m := DownloadData(OperationStatus(Succeeded, "Data write successful"), block,
                                  Increment(r.blocksWritten));
            if p.streamType == TypeFixed && |es| + 1 == BlocksRequested(p) then after.writes == r.writes
            else after.writes == r.writes + [m] && after.data == m && after.blocksWritten == m.sequenceNumber
  {
  }

  lemma SentStep(r: Reactor, p: Properties, first: string, es: seq<Event>, block: string)
    requires Control(r, p, es) && Streaming(r, p, es) && AreWritten(r, p, first, es) && FollowsLast(r, es)
    ensures var after, longer := Step(r, WriteDone(true, block)), es + [WriteDone(true, block)];
            IsNext(r, after, p, first, longer) && (!Settled(p, longer) ==> FollowsLast(after, longer))
  {
    var after, longer := Step(r, WriteDone(true, block)), es + [WriteDone(true, block)];
    SentWrites(r, p, es, block);
    StreamingOrSettled(r, p, es);
    LeadSnoc(es, WriteDone(true, block));
    SentCounts(p, es, block);
    assert longer[|es|] == WriteDone(true, block);
    SentNext(r, after, p, first, longer);
  }

  lemma SentCounts(p: Properties, es: seq<Event>, block: string)
    requires !Settled(p, es)
    ensures Count(p, es) == |es| + 1
    ensures var longer := es + [WriteDone(true, block)];
            if p.typeProperties.Fixed? && |es| + 1 == p.typeProperties.numberOfDataBlocksToStream
            then Count(p, longer) == |es| + 1 && Settled(p, longer)
            else Count(p, longer) == |es| + 2
  {
    LeadSnoc(es, WriteDone(true, block));
  }

  lemma SentNext(r: Reactor, after: Reactor, p: Properties, first: string, longer: seq<Event>)
    requires longer != [] && Sent(longer[|longer| - 1])
    requires |r.writes| == |longer| && r.blocksWritten == |longer| % 0x1_0000_0000
    requires Count(p, longer) == if after.writes == r.writes then |longer| else |longer| + 1
    requires || (after.writes == r.writes && Settled(p, longer))
             || var m := DownloadData(OperationStatus(Succeeded, "Data write successful"), longer[|longer| - 1].block,
                                      Increment(r.blocksWritten));
                after.writes == r.writes + [m] && after.data == m && after.blocksWritten == m.sequenceNumber
    ensures IsNext(r, after, p, first, longer) && (!Settled(p, longer) ==> FollowsLast(after, longer))
  {
    assert Increment(r.blocksWritten) == (|longer| + 1) % 0x1_0000_0000;
  }

  lemma MessageStep(r: Reactor, p: Properties, first: string, es: seq<Event>, e: Event)
    requires Control(r, p, es) && Streaming(r, p, es) && Enabled(r, e)
    requires AreWritten(r, p, first, es) && FollowsLast(r, es)
    ensures IsNext(r, Step(r, e), p, first, es + [e])
    ensures !Settled(p, es + [e]) ==> FollowsLast(Step(r, e), es + [e])
  {
    match e
    case Cancel => CancelStep(r, p, first, es);
    case WriteDone(true, block) => SentStep(r, p, first, es, block);
    case WriteDone(false, block) => FailedStep(r, p, first, es, block);
  }

  lemma RefusalText(p: Properties, first: string)
    requires IsRefused(p)
    ensures FirstMessage(p, first) == Failure(RefusalMessage(p))
  {
    assert "Invalid streaming type: " + "DataStreamTypeUnknown" == "Invalid streaming type: DataStreamTypeUnknown";
    assert "Invalid streaming type: " + "" == "Invalid streaming type: ";
  }

  lemma PatternText(p: Properties, first: string)
    requires !IsRefused(p) && p.pattern != PatternConstant
    ensures FirstMessage(p, first) == Failure("Unexpected data stream pattern " + PatternName(p.pattern))
  {
    assert "Unexpected data stream pattern " + "DataStreamPatternUnknown"
        == "Unexpected data stream pattern DataStreamPatternUnknown";
    assert "Unexpected data stream pattern " + "" == "Unexpected data stream pattern ";
  }

  lemma CreateFails(p: Properties, first: string)
    requires !IsEmptyStream(p) && (IsRefused(p) || p.pattern != PatternConstant)
    ensures Create(p, first).writes == [FirstMessage(p, first)]
  {
    if IsRefused(p) {
      RefusalText(p, first);
    } else {
      PatternText(p, first);
    }
  }

  lemma CreateStreams(p: Properties, first: string)
    requires !IsRefused(p) && (IsEmptyStream(p) || p.pattern == PatternConstant)
    ensures AreWritten(Create(p, first), p, first, [])
    ensures !Settled(p, []) ==> FollowsLast(Create(p, first), [])
  {
  }

  lemma CreateWrites(p: Properties, first: string)
    ensures AreWritten(Create(p, first), p, first, [])
    ensures !Settled(p, []) ==> FollowsLast(Create(p, first), [])
  {
    if !IsEmptyStream(p) && (IsRefused(p) || p.pattern != PatternConstant) {
      CreateFails(p, first);
    } else {
      CreateStreams(p, first);
    }
  }

  lemma {:induction false} WrittenAlways(p: Properties, first: string, es: seq<Event>)
    requires Legal(p, first, es)
    ensures AreWritten(After(p, first, es), p, first, es)
    ensures !Settled(p, es) ==> FollowsLast(After(p, first, es), es)
    decreases |es|
  {
    if es == [] {
      CreateWrites(p, first);
    } else {
      var prefix, e := es[..|es| - 1], es[|es| - 1];
      var r := After(p, first, prefix);
      assert es == prefix + [e];
      WrittenAlways(p, first, prefix);
      ControlAlways(p, first, prefix);
      StreamingOrSettled(r, p, prefix);
      forall k | 0 <= k <= |prefix|
        ensures Message(p, first, es, k) == Message(p, first, prefix, k)
      {
        MessagePrefix(p, first, prefix, e, k);
      }
      if Streaming(r, p, prefix) {
        MessageStep(r, p, first, prefix, e);
      } else {
        NothingWrittenAnyMore(r, p, prefix, e);
        SettledStays(p, prefix, e);
        SettledSnoc(p, prefix, e);
      }
    }
  }

  lemma SettledSnoc(p: Properties, es: seq<Event>, e: Event)
    requires Settled(p, es)
    ensures Settled(p, es + [e])
  {
    LeadSnoc(es, e);
  }

  /** In every run the messages are exactly these: the first one, then one for each successful write until something
      else happens or the stream has been sent, and a last one when that something is a failed write. */
  lemma MessagesExactly(p: Properties, first: string, es: seq<Event>)
    requires Legal(p, first, es)
    ensures var writes := After(p, first, es).writes;
            && |writes| == Count(p, es) <= |es| + 1
            && forall k :: 0 <= k < |writes| ==> writes[k] == Message(p, first, es, k)
  {
    WrittenAlways(p, first, es);
  }
}
