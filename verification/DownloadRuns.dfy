/** Whole runs of a download, with each callback one atomic step: any mix of successful and failed
    writes and of cancellations, in any order gRPC may deliver them. */
module DownloadRuns {
  import opened DataStream
  import opened DownloadReactor

  datatype Event = WriteDone(isOk: bool, block: string) | Cancel

  predicate Sent(e: Event) { e.WriteDone? && e.isOk }

  /** gRPC's side of the protocol: one OnWriteDone per outstanding write, OnCancel at any time. */
  predicate Enabled(r: Reactor, e: Event) { e.WriteDone? ==> r.outstanding > 0 }

  function Step(r: Reactor, e: Event): Reactor
    requires Enabled(r, e)
  {
    match e
    case WriteDone(isOk, block) => r.OnWriteDone(isOk, block)
    case Cancel => r.OnCancel()
  }

  /** The events `es` can follow the construction of a reactor for request `p`, in this order. */
  predicate Legal(p: Properties, first: string, es: seq<Event>)
    decreases |es|, 0
  {
    es == [] || (Legal(p, first, es[..|es| - 1]) && Enabled(After(p, first, es[..|es| - 1]), es[|es| - 1]))
  }

  function After(p: Properties, first: string, es: seq<Event>): Reactor
    requires Legal(p, first, es)
    decreases |es|, 1
  {
    if es == [] then Create(p, first) else Step(After(p, first, es[..|es| - 1]), es[|es| - 1])
  }

  /** OnWriteDone callbacks so far. */
  function Completions(es: seq<Event>): nat {
    if es == [] then 0 else Completions(es[..|es| - 1]) + if es[|es| - 1].WriteDone? then 1 else 0
  }

  /** A successful write that is reported to a reactor that is still streaming acknowledges a block. */
  function AcknowledgedBy(r: Reactor, e: Event): nat {
    if Sent(e) && !r.isCanceled && r.writeStatus.code != Failed then 1 else 0
  }

  /** Blocks acknowledged so far. */
  function Acknowledged(p: Properties, first: string, es: seq<Event>): nat
    requires Legal(p, first, es)
  {
    if es == [] then 0
    else
      var n := |es| - 1;
      Acknowledged(p, first, es[..n]) + AcknowledgedBy(After(p, first, es[..n]), es[n])
  }

  predicate FixedStream(p: Properties) { Accepted(p) && p.streamType == TypeFixed }

  /** The request and the callbacks alone say whether the stream was sent to its end: a fixed stream whose
      every block is reported written before anything else happens. */
  predicate StreamedOut(p: Properties, es: seq<Event>) {
    && FixedStream(p)
    && BlocksRequested(p) <= |es|
    && (BlocksRequested(p) > 0 ==> p.pattern == PatternConstant)
    && forall i :: 0 <= i < BlocksRequested(p) ==> Sent(es[i])
  }

  /** ... and whether it can no longer be. */
  predicate Broken(p: Properties, es: seq<Event>) {
    || !Accepted(p)
    || ((p.streamType == TypeFixed ==> BlocksRequested(p) > 0) && p.pattern != PatternConstant)
    || exists i :: 0 <= i < |es| && !Sent(es[i]) && (p.streamType == TypeFixed ==> i < BlocksRequested(p))
  }

  // ---------- Completion ----------

  /** A reactor that writes block after block. */
  ghost predicate Streaming(r: Reactor, p: Properties, es: seq<Event>) {
    && r.finishes == [] && r.outstanding == 1 && !r.isCanceled && !r.isCompleted && r.writeStatus.code != Failed
    && Accepted(p) && p.pattern == PatternConstant
    && (forall e :: e in es ==> Sent(e))
    && (p.streamType == TypeFixed ==> r.blocksToStream == BlocksRequested(p) - |es| > 0)
  }

  /** A reactor whose last write reports a failure to the client. */
  ghost predicate Failing(r: Reactor, p: Properties, es: seq<Event>) {
    && r.finishes == [] && r.outstanding == 1 && !r.isCanceled && !r.isCompleted && r.writeStatus.code == Failed
    && Broken(p, es)
  }

  ghost predicate FailedAndFinished(r: Reactor, p: Properties, es: seq<Event>) {
    && r.finishes == [OK] && r.outstanding == 0 && r.isCompleted && r.writeStatus.code == Failed
    && Broken(p, es)
  }

  ghost predicate CanceledInTime(r: Reactor, p: Properties, es: seq<Event>) {
    && r.finishes == [CANCELLED] && r.outstanding <= 1 && r.isCanceled && !r.isCompleted
    && Broken(p, es)
  }

  /** Streamed to the end; every later event can only be a cancellation, and the first one finishes again. */
  ghost predicate FinishedNormally(r: Reactor, p: Properties, es: seq<Event>) {
    && StreamedOut(p, es)
    && r.outstanding == 0 && !r.isCompleted && r.writeStatus.code != Failed
    && r.isCanceled == (|es| > BlocksRequested(p))
    && r.finishes == if r.isCanceled then [OK, CANCELLED] else [OK]
  }

  ghost predicate Control(r: Reactor, p: Properties, es: seq<Event>) {
    && r.properties == p
    && (|| Streaming(r, p, es) || Failing(r, p, es) || FailedAndFinished(r, p, es)
        || CanceledInTime(r, p, es) || FinishedNormally(r, p, es))
  }

  lemma BrokenStays(p: Properties, es: seq<Event>, e: Event)
    requires Broken(p, es)
    ensures Broken(p, es + [e])
  {
    if i :| 0 <= i < |es| && !Sent(es[i]) && (p.streamType == TypeFixed ==> i < BlocksRequested(p)) {
      assert (es + [e])[i] == es[i];
    }
  }

  lemma ControlStep(r: Reactor, p: Properties, es: seq<Event>, e: Event)
    requires Control(r, p, es) && Enabled(r, e)
    ensures Control(Step(r, e), p, es + [e])
  {
    var longer := es + [e];
    assert longer[|es|] == e;
    if Broken(p, es) {
      BrokenStays(p, es, e);
    } else if Streaming(r, p, es) && !Sent(e) {
      assert Broken(p, longer);
    }
  }

  lemma {:induction false} ControlAlways(p: Properties, first: string, es: seq<Event>)
    requires Legal(p, first, es)
    ensures Control(After(p, first, es), p, es)
    decreases |es|
  {
    if es != [] {
      ControlAlways(p, first, es[..|es| - 1]);
      ControlStep(After(p, first, es[..|es| - 1]), p, es[..|es| - 1], es[|es| - 1]);
      assert es == es[..|es| - 1] + [es[|es| - 1]];
    }
  }

  /** Exactly-once completion. In every run Finish is called at most twice, and twice exactly when an
      OnCancel follows the Finish of a stream that was sent to its end; whenever no write is outstanding
      the RPC has been finished. */
  lemma CompletedExactlyOnce(p: Properties, first: string, es: seq<Event>)
    requires Legal(p, first, es)
    ensures var r := After(p, first, es);
            && r.outstanding <= 1
            && (r.outstanding == 0 ==> r.finishes != [])
            && |r.finishes| <= 2
            && (|r.finishes| == 2 <==> StreamedOut(p, es) && |es| > BlocksRequested(p))
            && (|r.finishes| == 2 ==> r.finishes == [OK, CANCELLED])
  {
    ControlAlways(p, first, es);
    if Broken(p, es) && StreamedOut(p, es) {
      assert false;
    }
  }

  /** A run without a late cancellation that leaves no write outstanding has called Finish exactly once,
      with CANCELLED exactly when the cancellation came while the RPC was still open. */
  lemma FinishedExactlyOnce(p: Properties, first: string, es: seq<Event>)
    requires Legal(p, first, es) && After(p, first, es).outstanding == 0
    requires !(StreamedOut(p, es) && |es| > BlocksRequested(p))
    ensures var r := After(p, first, es);
            r.finishes == if r.isCanceled && !r.isCompleted then [CANCELLED] else [OK]
  {
    ControlAlways(p, first, es);
  }

  /** It takes no more than a fixed stream of no blocks, which is finished when it is created, and a cancellation. */
  lemma EmptyStreamFinishedTwice(first: string)
    ensures var p := Properties(TypeFixed, PatternConstant, Fixed(0));
            Legal(p, first, [Cancel]) && After(p, first, [Cancel]).finishes == [OK, CANCELLED]
  {
    var p := Properties(TypeFixed, PatternConstant, Fixed(0));
    assert [Cancel][..0] == [];
    assert After(p, first, []).finishes == [OK];
  }

  // ---------- Numbering ----------

  ghost predicate Numbering(r: Reactor) {
    && Numbered(r.writes)
    && r.blocksWritten == r.data.sequenceNumber == Wrap(DataMessages(r.writes))
    && (forall i :: 0 <= i < |r.writes| - 1 ==> r.writes[i].status.code != Failed)
    && (r.writeStatus.code == Failed <==> r.writes != [] && r.writes[|r.writes| - 1].status.code == Failed)
  }

  lemma NumberingWrite(r: Reactor, m: DownloadData)
    requires Numbering(r) && r.writeStatus.code != Failed
    requires m.sequenceNumber == Wrap(DataMessages(r.writes) + if m.status.code == Failed then 0 else 1)
    ensures Numbering(r.(data := m, blocksWritten := m.sequenceNumber, writeStatus := m.status).StartWrite())
  {
    NumberedAppend(r.writes, m);
  }

  lemma NumberingFailure(r: Reactor, message: string)
    requires Numbering(r) && r.writeStatus.code != Failed
    ensures Numbering(r.HandleFailure(message))
  {
    var status := OperationStatus(Failed, message);
    NumberingWrite(r, r.data.(status := status));
  }

  lemma NumberingNextWrite(r: Reactor, block: string)
    requires Numbering(r) && r.writeStatus.code != Failed
    ensures Numbering(r.NextWrite(block))
  {
    if !r.isCanceled && r.HasMoreToWrite() {
      if r.properties.pattern == PatternConstant {
        NumberingWrite(r, DownloadData(r.writeStatus, block, Increment(r.blocksWritten)));
      } else {
        NumberingFailure(r, "Unexpected data stream pattern " + PatternName(r.properties.pattern));
      }
    }
  }

  /** Numbering speaks of four fields only. */
  lemma NumberingFrame(r: Reactor, r': Reactor)
    requires Numbering(r)
    requires r'.writes == r.writes && r'.blocksWritten == r.blocksWritten && r'.data == r.data
    requires r'.writeStatus.code == Failed <==> r.writeStatus.code == Failed
    ensures Numbering(r')
  {
  }

  lemma NumberingSent(r: Reactor, block: string)
    requires Numbering(r) && r.outstanding > 0 && !r.isCanceled && r.writeStatus.code != Failed
    ensures Numbering(r.OnWriteDone(true, block))
  {
    var r' := r.(outstanding := r.outstanding - 1);
    NumberingFrame(r, r'.Acknowledge());
    NumberingNextWrite(r'.Acknowledge(), block);
    assert r.OnWriteDone(true, block) == r'.Acknowledge().NextWrite(block);
  }

  lemma NumberingNotSent(r: Reactor, block: string)
    requires Numbering(r) && r.outstanding > 0 && !r.isCanceled && r.writeStatus.code != Failed
    ensures Numbering(r.OnWriteDone(false, block))
  {
    var r' := r.(outstanding := r.outstanding - 1);
    NumberingFrame(r, r');
    NumberingFailure(r', WRITE_FAILED);
    assert r.OnWriteDone(false, block) == r'.HandleFailure(WRITE_FAILED);
  }

  lemma NumberingStep(r: Reactor, e: Event)
    requires Numbering(r) && Enabled(r, e)
    ensures Numbering(Step(r, e))
  {
    if e.Cancel? || r.isCanceled || r.writeStatus.code == Failed {
      NumberingFrame(r, Step(r, e));
    } else if e.isOk {
      NumberingSent(r, e.block);
    } else {
      NumberingNotSent(r, e.block);
    }
  }

  lemma NumberingCreate(p: Properties, first: string)
    ensures Numbering(Create(p, first))
  {
  }

  /** Sequence numbering: data messages are numbered 1, 2, 3, ... modulo 2^32; a failure message repeats the
      last number, there is at most one and it is the last message. */
  lemma {:induction false} NumberedInOrder(p: Properties, first: string, es: seq<Event>)
    requires Legal(p, first, es)
    ensures Numbering(After(p, first, es))
    decreases |es|
  {
    if es == [] {
      NumberingCreate(p, first);
    } else {
      NumberedInOrder(p, first, es[..|es| - 1]);
      NumberingStep(After(p, first, es[..|es| - 1]), es[|es| - 1]);
    }
  }

  lemma OutstandingStep(r: Reactor, e: Event)
    requires Enabled(r, e)
    ensures var after := Step(r, e);
            after.outstanding + (if e.WriteDone? then 1 else 0) + |r.writes| == r.outstanding + |after.writes|
  {
  }

  /** Every write is either reported done or still outstanding. */
  lemma {:induction false} WritesAccountedFor(p: Properties, first: string, es: seq<Event>)
    requires Legal(p, first, es)
    ensures After(p, first, es).outstanding + Completions(es) == |After(p, first, es).writes|
    decreases |es|
  {
    if es != [] {
      var n := |es| - 1;
      WritesAccountedFor(p, first, es[..n]);
      OutstandingStep(After(p, first, es[..n]), es[n]);
    }
  }

  // ---------- Conservation of blocks ----------

  /** What one step does to the blocks to stream, and to the data messages. */
  lemma BlocksStep(r: Reactor, p: Properties, es: seq<Event>, e: Event)
    requires Control(r, p, es) && FixedStream(p) && Enabled(r, e)
    ensures Step(r, e).blocksToStream == r.blocksToStream - AcknowledgedBy(r, e)
  {
  }

  /** Fixed streams: no block is lost or counted twice, and the counter never passes zero. */
  lemma {:induction false} BlocksConserved(p: Properties, first: string, es: seq<Event>)
    requires Legal(p, first, es) && FixedStream(p)
    ensures Acknowledged(p, first, es) + After(p, first, es).blocksToStream == BlocksRequested(p)
    decreases |es|
  {
    if es != [] {
      var n := |es| - 1;
      BlocksConserved(p, first, es[..n]);
      ControlAlways(p, first, es[..n]);
      BlocksStep(After(p, first, es[..n]), p, es[..n], es[n]);
    }
  }

  lemma DataStep(r: Reactor, p: Properties, es: seq<Event>, e: Event)
    requires Control(r, p, es) && FixedStream(p) && Enabled(r, e)
    ensures DataMessages(Step(r, e).writes)
         <= DataMessages(r.writes) + if Step(r, e).blocksToStream > 0 then AcknowledgedBy(r, e) else 0
  {
  }

  /** No more data messages are written than blocks were acknowledged, but for the one under way. */
  lemma {:induction false} DataMessagesBounded(p: Properties, first: string, es: seq<Event>)
    requires Legal(p, first, es) && FixedStream(p)
    ensures var r := After(p, first, es);
            DataMessages(r.writes) <= Acknowledged(p, first, es) + if r.blocksToStream > 0 then 1 else 0
    decreases |es|
  {
    if es == [] {
      assert After(p, first, es).writes[..0] == [];
    } else {
      var n := |es| - 1;
      DataMessagesBounded(p, first, es[..n]);
      ControlAlways(p, first, es[..n]);
      BlocksStep(After(p, first, es[..n]), p, es[..n], es[n]);
      DataStep(After(p, first, es[..n]), p, es[..n], es[n]);
    }
  }

  /** A failure message is at most the last one, so nearly all messages carry data. */
  lemma {:induction false} MessageCount(log: seq<DownloadData>)
    requires forall i :: 0 <= i < |log| - 1 ==> log[i].status.code != Failed
    ensures |log| == DataMessages(log) + if log != [] && log[|log| - 1].status.code == Failed then 1 else 0
  {
    if log != [] {
      MessageCount(log[..|log| - 1]);
    }
  }

  /** Any run of a stream of N blocks makes at most N + 1 StartWrite calls, so at most N + 1 OnWriteDone
      callbacks follow: the download ends. */
  lemma WritesBounded(p: Properties, first: string, es: seq<Event>)
    requires Legal(p, first, es) && FixedStream(p)
    ensures |After(p, first, es).writes| <= BlocksRequested(p) + 1
    ensures Completions(es) <= BlocksRequested(p) + 1
  {
    BlocksConserved(p, first, es);
    DataMessagesBounded(p, first, es);
    NumberedInOrder(p, first, es);
    WritesAccountedFor(p, first, es);
    MessageCount(After(p, first, es).writes);
  }

  function BlockOf(e: Event): string { if e.WriteDone? then e.block else "" }

  /** The message that carries block `k`, for the blocks handed to the reactor in order. */
  function DataMessage(first: string, es: seq<Event>, k: nat): DownloadData
    requires k <= |es|
  {
    if k == 0 then DownloadData(NOT_SENT, first, 1)
    else DownloadData(SENT, BlockOf(es[k - 1]), Wrap(k + 1))
  }

  predicate AtEnd(p: Properties, n: nat) { p.streamType == TypeFixed && n == BlocksRequested(p) }

  /** A reactor all of whose `n` callbacks reported success. */
  ghost predicate StreamedSoFar(r: Reactor, p: Properties, n: nat) {
    && r.properties == p && !r.isCanceled
    && r.writeStatus == (if n == 0 then NOT_SENT else SENT)
    && r.outstanding == (if AtEnd(p, n) then 0 else 1)
    && r.finishes == (if AtEnd(p, n) then [OK] else [])
    && (p.streamType == TypeFixed ==> r.blocksToStream == BlocksRequested(p) - n)
    && |r.writes| == (if AtEnd(p, n) then n else n + 1)
    && r.blocksWritten == Wrap(|r.writes|)
  }

  lemma StreamedStep(r: Reactor, p: Properties, n: nat, block: string)
    requires Accepted(p) && p.pattern == PatternConstant
    requires StreamedSoFar(r, p, n) && !AtEnd(p, n)
    ensures StreamedSoFar(r.OnWriteDone(true, block), p, n + 1)
    ensures r.OnWriteDone(true, block).writes
         == if AtEnd(p, n + 1) then r.writes else r.writes + [DownloadData(SENT, block, Wrap(n + 2))]
  {
  }

  lemma StreamedFirst(p: Properties, first: string)
    requires Accepted(p) && p.pattern == PatternConstant
    ensures StreamedSoFar(Create(p, first), p, 0)
    ensures Create(p, first).writes == if AtEnd(p, 0) then [] else [DownloadData(NOT_SENT, first, 1)]
  {
  }

  /** The state of a reactor when every callback so far reported success ... */
  lemma {:induction false} AllWritesOk(p: Properties, first: string, es: seq<Event>)
    requires Accepted(p) && p.pattern == PatternConstant
    requires p.streamType == TypeFixed ==> |es| <= BlocksRequested(p)
    requires forall e :: e in es ==> Sent(e)
    ensures Legal(p, first, es) && StreamedSoFar(After(p, first, es), p, |es|)
    decreases |es|
  {
    if es == [] {
      StreamedFirst(p, first);
    } else {
      var prefix, e := es[..|es| - 1], es[|es| - 1];
      AllWritesOk(p, first, prefix);
      assert Sent(e);
      StreamedStep(After(p, first, prefix), p, |prefix|, e.block);
      assert Step(After(p, first, prefix), e) == After(p, first, prefix).OnWriteDone(true, e.block);
    }
  }

  lemma OrderStep(before: Reactor, p: Properties, first: string, es: seq<Event>, k: nat)
    requires Accepted(p) && p.pattern == PatternConstant && es != [] && Sent(es[|es| - 1])
    requires StreamedSoFar(before, p, |es| - 1) && !AtEnd(p, |es| - 1)
    requires k < |before.OnWriteDone(true, BlockOf(es[|es| - 1])).writes|
    requires k < |before.writes| ==> k <= |es| - 1 && before.writes[k] == DataMessage(first, es[..|es| - 1], k)
    ensures k <= |es| && before.OnWriteDone(true, BlockOf(es[|es| - 1])).writes[k] == DataMessage(first, es, k)
  {
    StreamedStep(before, p, |es| - 1, BlockOf(es[|es| - 1]));
  }

  /** ... and what it has written. */
  lemma {:induction false} AllWritesInOrder(p: Properties, first: string, es: seq<Event>, k: nat)
    requires Accepted(p) && p.pattern == PatternConstant
    requires p.streamType == TypeFixed ==> |es| <= BlocksRequested(p)
    requires (forall e :: e in es ==> Sent(e)) && Legal(p, first, es) && k < |After(p, first, es).writes|
    ensures k <= |es| && After(p, first, es).writes[k] == DataMessage(first, es, k)
    decreases |es|
  {
    if es == [] {
      StreamedFirst(p, first);
    } else {
      var n := |es| - 1;
      var before := After(p, first, es[..n]);
      AllWritesOk(p, first, es[..n]);
      assert Sent(es[n]);
      if k < |before.writes| {
        AllWritesInOrder(p, first, es[..n], k);
      }
      OrderStep(before, p, first, es, k);
    }
  }

  /** A fixed stream of N blocks with no failed write and no cancellation sends exactly the N blocks it was
      given, numbered 1 to N, and then finishes with OK. */
  lemma FixedStreamDelivered(p: Properties, first: string, es: seq<Event>)
    requires FixedStream(p) && p.pattern == PatternConstant
    requires |es| == BlocksRequested(p) && forall e :: e in es ==> Sent(e)
    ensures Legal(p, first, es)
    ensures var r := After(p, first, es);
            && r.finishes == [OK] && r.outstanding == 0 && r.blocksToStream == 0
            && |r.writes| == BlocksRequested(p)
            && forall k :: 0 <= k < |r.writes| ==>
                 && r.writes[k].sequenceNumber == k + 1
                 && r.writes[k].data == (if k == 0 then first else BlockOf(es[k - 1]))
                 && r.writes[k].status == (if k == 0 then OperationStatus(Unknown, "No data sent yet")
                                           else OperationStatus(Succeeded, "Data write successful"))
  {
    AllWritesOk(p, first, es);
    forall k | 0 <= k < |After(p, first, es).writes|
      ensures var m := After(p, first, es).writes[k];
              && m.sequenceNumber == k + 1 && m.data == (if k == 0 then first else BlockOf(es[k - 1]))
              && m.status == (if k == 0 then OperationStatus(Unknown, "No data sent yet")
                              else OperationStatus(Succeeded, "Data write successful"))
    {
      AllWritesInOrder(p, first, es, k);
      SmallNumber(k + 1);
    }
  }

  lemma SmallNumber(n: nat)
    requires n < 0x1_0000_0000
    ensures Wrap(n) == n
  {
  }
}
