/** The server side of a bidirectional stream: DataStreamReaderWriter. */
module DuplexReactor {
  import opened DataStream

  datatype Duplex = Duplex(
    blocksReceived: uint32,
    blocksWritten: uint32,
    writeData: DownloadData,
    status: OperationStatus,
    isCanceled: bool,
    readsDone: bool,
    writes: seq<DownloadData>,
    finishes: seq<GrpcStatus>,
    outstandingWrites: nat,
    outstandingReads: nat)
  {
    function StartRead(): Duplex { this.(outstandingReads := outstandingReads + 1) }

    function StartWrite(): Duplex {
      this.(writes := writes + [writeData], outstandingWrites := outstandingWrites + 1)
    }

    function Finish(s: GrpcStatus): Duplex { this.(finishes := finishes + [s]) }

    function NextWrite(block: string): Duplex {
      if isCanceled then this
      else
        var number := Increment(blocksWritten);
        this.(blocksWritten := number, writeData := DownloadData(status, block, number)).StartWrite()
    }

    function HandleFailure(message: string): Duplex {
      var failure := OperationStatus(Failed, message);
      this.(status := failure, writeData := writeData.(status := failure)).StartWrite()
    }

    function OnReadDone(isOk: bool): Duplex
      requires outstandingReads > 0
    {
      var d := this.(outstandingReads := outstandingReads - 1);
      if isOk then
        d.(blocksReceived := Increment(blocksReceived),
           status := OperationStatus(Succeeded, "Data read successful")).StartRead()
      else if readsDone then d
      else d.(readsDone := true).Finish(OK)
    }

    function OnWriteDone(isOk: bool, block: string): Duplex
      requires outstandingWrites > 0
    {
      var d := this.(outstandingWrites := outstandingWrites - 1);
      if isCanceled then d
      else if status.code == Failed then d.Finish(OK)
      else if isOk then d.(status := OperationStatus(Succeeded, "Data write successful")).NextWrite(block)
      else if readsDone then d
      else d.HandleFailure("Data write failed")
    }

    function OnCancel(): Duplex { this.(isCanceled := true) }
  }

  function Create(block: string): Duplex {
    Duplex(0, 0, EMPTY_MESSAGE, OperationStatus(Unknown, "No data sent yet"), false, false, [], [], 0, 0)
    .StartRead().NextWrite(block)
  }

  class DataStreamReaderWriter {
    var numberOfDataBlocksReceived: uint32
    var numberOfDataBlocksWritten: uint32
    var writeData: DownloadData
    var status: OperationStatus
    var isCanceled: bool
    var readsDone: bool
    ghost var writes: seq<DownloadData>
    ghost var finishes: seq<GrpcStatus>
    ghost var outstandingWrites: nat
    ghost var outstandingReads: nat

    ghost function State(): Duplex
      reads this
    {
      Duplex(numberOfDataBlocksReceived, numberOfDataBlocksWritten, writeData, status, isCanceled, readsDone,
             writes, finishes, outstandingWrites, outstandingReads)
    }

    constructor (block: string)
      ensures State() == Create(block)
    {
      numberOfDataBlocksReceived, numberOfDataBlocksWritten := 0, 0;
      writeData, status := EMPTY_MESSAGE, OperationStatus(Unknown, "No data sent yet");
      isCanceled, readsDone := false, false;
      writes, finishes, outstandingWrites, outstandingReads := [], [], 0, 0;
      new;
      StartRead();
      NextWrite(block);
    }

    method OnReadDone(isOk: bool)
      requires outstandingReads > 0
      modifies this
      ensures State() == old(State()).OnReadDone(isOk)
    {
      outstandingReads := outstandingReads - 1;
      if isOk {
        numberOfDataBlocksReceived := Increment(numberOfDataBlocksReceived);
        status := OperationStatus(Succeeded, "Data read successful");
        StartRead();
      } else if !readsDone {
        readsDone := true;
        Finish(OK);
      }
    }

    method OnWriteDone(isOk: bool, block: string)
      requires outstandingWrites > 0
      modifies this
      ensures State() == old(State()).OnWriteDone(isOk, block)
    {
      outstandingWrites := outstandingWrites - 1;
      if isCanceled {
        return;
      }
      if status.code == Failed {
        Finish(OK);
        return;
      }
      if isOk {
        status := OperationStatus(Succeeded, "Data write successful");
        NextWrite(block);
      } else if !readsDone {
        HandleFailure("Data write failed");
      }
    }

    method OnCancel()
      modifies this
      ensures State() == old(State()).OnCancel()
    {
      isCanceled := true;
    }

    method NextWrite(block: string)
      modifies this
      ensures State() == old(State()).NextWrite(block)
    {
      if isCanceled {
        return;
      }
      numberOfDataBlocksWritten := Increment(numberOfDataBlocksWritten);
      writeData := writeData.(data := block);
      writeData := writeData.(sequenceNumber := numberOfDataBlocksWritten);
      writeData := writeData.(status := status);
      StartWrite();
    }

    method HandleFailure(message: string)
      modifies this
      ensures State() == old(State()).HandleFailure(message)
    {
      status := OperationStatus(Failed, message);
      writeData := writeData.(status := status);
      StartWrite();
    }

    method StartRead()
      modifies this`outstandingReads
      ensures State() == old(State()).StartRead()
    {
      outstandingReads := outstandingReads + 1;
    }

    method StartWrite()
      modifies this`writes, this`outstandingWrites
      ensures State() == old(State()).StartWrite()
    {
      writes := writes + [writeData];
      outstandingWrites := outstandingWrites + 1;
    }

    method Finish(s: GrpcStatus)
      modifies this`finishes
      ensures State() == old(State()).Finish(s)
    {
      finishes := finishes + [s];
    }
  }

  // ---------- Whole runs ----------

  datatype Event = ReadDone(isOk: bool) | WriteDone(isOk: bool, block: string) | Cancel

  predicate Enabled(d: Duplex, e: Event) {
    && (e.ReadDone? ==> d.outstandingReads > 0)
    && (e.WriteDone? ==> d.outstandingWrites > 0)
  }

  function Step(d: Duplex, e: Event): Duplex
    requires Enabled(d, e)
  {
    match e
    case ReadDone(isOk) => d.OnReadDone(isOk)
    case WriteDone(isOk, block) => d.OnWriteDone(isOk, block)
    case Cancel => d.OnCancel()
  }

  predicate Legal(first: string, es: seq<Event>)
    decreases |es|, 0
  {
    es == [] || (Legal(first, es[..|es| - 1]) && Enabled(After(first, es[..|es| - 1]), es[|es| - 1]))
  }

  function After(first: string, es: seq<Event>): Duplex
    requires Legal(first, es)
    decreases |es|, 1
  {
    if es == [] then Create(first) else Step(After(first, es[..|es| - 1]), es[|es| - 1])
  }

  function SuccessfulReads(es: seq<Event>): nat {
    if es == [] then 0
    else SuccessfulReads(es[..|es| - 1]) + if es[|es| - 1] == ReadDone(true) then 1 else 0
  }

  /** Position of the first cancellation, or |es|. */
  function FirstCancel(es: seq<Event>): (i: nat)
    ensures i <= |es|
  {
    if es == [] then 0
    else
      var i := FirstCancel(es[..|es| - 1]);
      if i < |es| - 1 || es[|es| - 1].Cancel? then i else |es|
  }

  ghost predicate Invariant(d: Duplex, received: nat) {
    && Numbered(d.writes)
    && d.blocksWritten == d.writeData.sequenceNumber == Wrap(DataMessages(d.writes))
    && d.blocksReceived == Wrap(received)
    && d.outstandingWrites <= 1
    && d.outstandingReads == (if d.readsDone then 0 else 1)
  }

  lemma InvariantWrite(d: Duplex, m: DownloadData, received: nat)
    requires Invariant(d, received) && d.outstandingWrites == 0
    requires m.sequenceNumber == Wrap(DataMessages(d.writes) + if m.status.code == Failed then 0 else 1)
    ensures Invariant(d.(writeData := m, blocksWritten := m.sequenceNumber, status := m.status).StartWrite(), received)
  {
    NumberedAppend(d.writes, m);
  }

  lemma InvariantNotWritten(d: Duplex, received: nat, e: Event)
    requires Invariant(d, received) && Enabled(d, e) && !e.WriteDone?
    ensures Invariant(Step(d, e), if e == ReadDone(true) then received + 1 else received)
  {
  }

  lemma InvariantWritten(d: Duplex, received: nat, isOk: bool, block: string)
    requires Invariant(d, received) && d.outstandingWrites > 0
    ensures Invariant(d.OnWriteDone(isOk, block), received)
  {
    var d' := d.(outstandingWrites := d.outstandingWrites - 1);
    assert Invariant(d', received);
    if !d.isCanceled && d.status.code != Failed {
      if isOk {
        var sent := OperationStatus(Succeeded, "Data write successful");
        InvariantWrite(d', DownloadData(sent, block, Increment(d.blocksWritten)), received);
      } else if !d.readsDone {
        InvariantWrite(d', d.writeData.(status := OperationStatus(Failed, "Data write failed")), received);
      }
    }
  }

  lemma InvariantStep(d: Duplex, received: nat, e: Event)
    requires Invariant(d, received) && Enabled(d, e)
    ensures Invariant(Step(d, e), if e == ReadDone(true) then received + 1 else received)
  {
    if e.WriteDone? {
      InvariantWritten(d, received, e.isOk, e.block);
    } else {
      InvariantNotWritten(d, received, e);
    }
  }

  /** In every run at most one write and one read are outstanding, the messages are numbered without a gap (a
      failure message repeats the last number), and the reactor has counted the reads that succeeded. */
  lemma {:induction false} NumberedInOrder(first: string, es: seq<Event>)
    requires Legal(first, es)
    ensures Invariant(After(first, es), SuccessfulReads(es))
    decreases |es|
  {
    if es == [] {
      var d := Duplex(0, 0, EMPTY_MESSAGE, OperationStatus(Unknown, "No data sent yet"), false, false, [], [], 0, 1);
      InvariantWrite(d, DownloadData(d.status, first, 1), 0);
    } else {
      var prefix := es[..|es| - 1];
      NumberedInOrder(first, prefix);
      InvariantStep(After(first, prefix), SuccessfulReads(prefix), es[|es| - 1]);
    }
  }

  /** Nothing is written after a cancellation: the messages are those written before the first one. */
  lemma {:induction false} CancelStopsWriting(first: string, es: seq<Event>)
    requires Legal(first, es)
    ensures Legal(first, es[..FirstCancel(es)])
    ensures After(first, es).isCanceled <==> FirstCancel(es) < |es|
    ensures After(first, es).writes == After(first, es[..FirstCancel(es)]).writes
    decreases |es|
  {
    if es == [] {
      assert es[..0] == es;
    } else {
      var prefix, i := es[..|es| - 1], FirstCancel(es);
      CancelStopsWriting(first, prefix);
      if i == |es| {
        assert es[..i] == es;
      } else {
        assert es[..i] == prefix[..i];
        assert prefix[..|prefix|] == prefix;
      }
    }
  }

  // ---------- How often it is finished ----------

  predicate IsFailedWrite(e: Event) { e.WriteDone? && !e.isOk }

  /** The failure of event `i` is told to the client: the reads had not ended, nothing has been canceled, and up to `k`
      no successful read has replaced the status and no write was reported done. */
  ghost predicate Pending(es: seq<Event>, i: nat, k: nat) {
    && i < k <= |es| && IsFailedWrite(es[i])
    && (forall j :: 0 <= j < i ==> es[j] != ReadDone(false))
    && (forall j :: 0 <= j < k ==> !es[j].Cancel?)
    && (forall j :: i < j < k ==> es[j] == ReadDone(false))
  }

  ghost predicate IsPending(es: seq<Event>) { exists i: nat :: Pending(es, i, |es|) }

  /** The message about such a failure was reported done. */
  ghost predicate IsReported(es: seq<Event>) {
    exists i: nat, k: nat :: Pending(es, i, k) && k < |es| && es[k].WriteDone?
  }

  lemma PendingPrefix(es: seq<Event>, e: Event, i: nat, k: nat)
    requires k <= |es|
    ensures Pending(es + [e], i, k) <==> Pending(es, i, k)
  {
    if i < k {
      assert forall j :: 0 <= j < k ==> (es + [e])[j] == es[j];
    }
  }

  lemma PendingSnoc(es: seq<Event>, e: Event)
    ensures IsPending(es + [e])
        <==> Cancel !in es && if e == ReadDone(false) then IsPending(es) else IsFailedWrite(e) && ReadDone(false) !in es
  {
    var after, n := es + [e], |es|;
    if IsPending(after) {
      var i: nat :| Pending(after, i, n + 1);
      assert forall j :: 0 <= j < n ==> after[j] == es[j];
      assert after[n] == e;
      if i < n {
        PendingPrefix(es, e, i, n);
        assert Pending(after, i, n);
      }
    }
    if Cancel !in es && e == ReadDone(false) && IsPending(es) {
      var i: nat :| Pending(es, i, n);
      PendingPrefix(es, e, i, n);
      assert Pending(after, i, n + 1);
    }
    if Cancel !in es && IsFailedWrite(e) && ReadDone(false) !in es {
      assert forall j :: 0 <= j < n ==> after[j] == es[j];
      assert Pending(after, n, n + 1);
    }
  }

  lemma ReportedSnoc(es: seq<Event>, e: Event)
    ensures IsReported(es + [e]) <==> IsReported(es) || (e.WriteDone? && IsPending(es))
  {
    var after, n := es + [e], |es|;
    if IsReported(after) {
      var i: nat, k: nat :| Pending(after, i, k) && k < |after| && after[k].WriteDone?;
      PendingPrefix(es, e, i, k);
    }
    if IsReported(es) {
      var i: nat, k: nat :| Pending(es, i, k) && k < n && es[k].WriteDone?;
      PendingPrefix(es, e, i, k);
      assert after[k].WriteDone?;
    }
    if e.WriteDone? && IsPending(es) {
      var i: nat :| Pending(es, i, n);
      PendingPrefix(es, e, i, n);
      assert after[n].WriteDone?;
    }
  }

  ghost predicate FinishInvariant(d: Duplex, es: seq<Event>) {
    && (d.readsDone <==> ReadDone(false) in es)
    && (d.isCanceled <==> Cancel in es)
    && d.outstandingWrites <= 1
    && (d.outstandingWrites == 1 && !d.isCanceled ==> (d.status.code == Failed <==> IsPending(es)))
    && (IsReported(es) ==> d.outstandingWrites == 0)
    && |d.finishes| == (if ReadDone(false) in es then 1 else 0) + (if IsReported(es) then 1 else 0)
  }

  lemma FinishStep(d: Duplex, es: seq<Event>, e: Event)
    requires FinishInvariant(d, es) && Enabled(d, e)
    ensures FinishInvariant(Step(d, e), es + [e])
  {
    PendingSnoc(es, e);
    ReportedSnoc(es, e);
    assert forall x :: x in es + [e] <==> x in es || x == e;
  }

  /** In every run Finish is called once for the end of the reads and once for a failed write whose message was
      reported done, each at most once, and not at all otherwise. */
  lemma {:induction false} FinishedExactly(first: string, es: seq<Event>)
    requires Legal(first, es)
    ensures FinishInvariant(After(first, es), es)
    ensures |After(first, es).finishes| == 2 <==> ReadDone(false) in es && IsReported(es)
    decreases |es|
  {
    if es != [] {
      var prefix, e := es[..|es| - 1], es[|es| - 1];
      FinishedExactly(first, prefix);
      FinishStep(After(first, prefix), prefix, e);
      assert prefix + [e] == es;
    }
  }

  lemma OneMore(first: string, es: seq<Event>, e: Event)
    requires Legal(first, es) && Enabled(After(first, es), e)
    ensures Legal(first, es + [e]) && After(first, es + [e]) == Step(After(first, es), e)
  {
    assert (es + [e])[..|es|] == es;
  }

  lemma ThreeEvents(first: string, x: Event, y: Event, z: Event)
    requires Enabled(Create(first), x) && Enabled(Step(Create(first), x), y)
    requires Enabled(Step(Step(Create(first), x), y), z)
    ensures Legal(first, [x, y, z]) && After(first, [x, y, z]) == Step(Step(Step(Create(first), x), y), z)
  {
    OneMore(first, [], x);
    OneMore(first, [] + [x], y);
    OneMore(first, [] + [x] + [y], z);
    assert [] + [x] + [y] + [z] == [x, y, z];
  }

  /** The reactor's message is the last one it wrote. */
  ghost predicate KeepsLast(d: Duplex, first: string) {
    && d.writes != [] && d.writeData == d.writes[|d.writes| - 1]
    && d.writes[0] == DownloadData(OperationStatus(Unknown, "No data sent yet"), first, 1)
  }

  lemma KeepsLastStep(d: Duplex, first: string, e: Event)
    requires KeepsLast(d, first) && Enabled(d, e)
    ensures KeepsLast(Step(d, e), first)
  {
  }

  lemma {:induction false} KeepsLastAlways(first: string, es: seq<Event>)
    requires Legal(first, es)
    ensures KeepsLast(After(first, es), first)
    decreases |es|
  {
    if es != [] {
      KeepsLastAlways(first, es[..|es| - 1]);
      KeepsLastStep(After(first, es[..|es| - 1]), first, es[|es| - 1]);
    }
  }

  /** The message, if any, that an event leads to. */
  ghost predicate Answers(before: seq<DownloadData>, after: seq<DownloadData>, es: seq<Event>, e: Event) {
    before != [] &&
    after == before +
      if !e.WriteDone? || Cancel in es || IsPending(es) || (!e.isOk && ReadDone(false) in es) then []
      else if e.isOk then
        [DownloadData(OperationStatus(Succeeded, "Data write successful"), e.block,
                      (DataMessages(before) + 1) % 0x1_0000_0000)]
      else [before[|before| - 1].(status := OperationStatus(Failed, "Data write failed"))]
  }

  lemma AnswersStep(d: Duplex, first: string, es: seq<Event>, e: Event)
    requires FinishInvariant(d, es) && KeepsLast(d, first) && Enabled(d, e)
    requires d.blocksWritten == Wrap(DataMessages(d.writes))
    ensures Answers(d.writes, Step(d, e).writes, es, e)
  {
    assert Increment(d.blocksWritten) == (DataMessages(d.writes) + 1) % 0x1_0000_0000;
  }

  /** In every run the first message carries the first block, and an event is followed by another message exactly when
      it reports a write done, nothing has been canceled, no failure was pending, and it is no failure after the end
      of the reads. That message is the next block after a success, and the last message again after a failure. */
  lemma WritesAgainExactly(first: string, es: seq<Event>, e: Event)
    requires Legal(first, es + [e])
    ensures (es + [e])[..|es|] == es && Legal(first, es) && After(first, es).writes != []
    ensures After(first, es).writes[0] == DownloadData(OperationStatus(Unknown, "No data sent yet"), first, 1)
    ensures Answers(After(first, es).writes, After(first, es + [e]).writes, es, e)
  {
    assert (es + [e])[..|es|] == es && (es + [e])[|es|] == e;
    FinishedExactly(first, es);
    NumberedInOrder(first, es);
    KeepsLastAlways(first, es);
    AnswersStep(After(first, es), first, es, e);
  }

  /** So the message about a failure need not be the last: a successful read makes the reactor forget it. */
  lemma FailureForgotten(first: string, block: string)
    ensures var es := [WriteDone(false, ""), ReadDone(true), WriteDone(true, block)];
            && Legal(first, es) && After(first, es).finishes == []
            && After(first, es).writes == [
                 DownloadData(OperationStatus(Unknown, "No data sent yet"), first, 1),
                 DownloadData(OperationStatus(Failed, "Data write failed"), first, 1),
                 DownloadData(OperationStatus(Succeeded, "Data write successful"), block, 2)]
  {
    ThreeEvents(first, WriteDone(false, ""), ReadDone(true), WriteDone(true, block));
  }

  /** It can be finished twice: a write fails, the message about it is reported done, and then the reads end. */
  lemma FinishedTwice(first: string)
    ensures var es := [WriteDone(false, ""), WriteDone(true, ""), ReadDone(false)];
            Legal(first, es) && After(first, es).finishes == [OK, OK]
  {
    ThreeEvents(first, WriteDone(false, ""), WriteDone(true, ""), ReadDone(false));
  }
}
