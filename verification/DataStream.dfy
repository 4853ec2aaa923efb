/** Messages and statuses of the data streaming service (NetRemoteDataStream.proto). */
module DataStream {
  /** uint32_t; arithmetic on it wraps. */
  type uint32 = x: int | 0 <= x < 0x1_0000_0000

  function Wrap(n: nat): uint32 { n % 0x1_0000_0000 }

  function Increment(x: uint32): uint32 { if x == 0xFFFF_FFFF then 0 else x + 1 }

  function Decrement(x: uint32): uint32 { if x == 0 then 0xFFFF_FFFF else x - 1 }

  datatype StatusCode = Unknown | Succeeded | Failed | Canceled | TimedOut
  datatype OperationStatus = OperationStatus(code: StatusCode, message: string)
  datatype DownloadData = DownloadData(status: OperationStatus, data: string, sequenceNumber: uint32)
  datatype GrpcStatus = OK | CANCELLED

  const EMPTY_MESSAGE := DownloadData(OperationStatus(Unknown, ""), "", 0)

  /** The number of data messages in a log: those that do not report a failure. */
  function DataMessages(log: seq<DownloadData>): nat {
    if log == [] then 0
    else DataMessages(log[..|log| - 1]) + if log[|log| - 1].status.code == Failed then 0 else 1
  }

  /** Every message carries the number of data messages up to and including itself, modulo 2^32. */
  ghost predicate Numbered(log: seq<DownloadData>) {
    log == [] || (Numbered(log[..|log| - 1])
                  && log[|log| - 1].sequenceNumber == Wrap(DataMessages(log)))
  }

  lemma NumberedAppend(log: seq<DownloadData>, m: DownloadData)
    requires Numbered(log)
    requires m.sequenceNumber == Wrap(DataMessages(log) + if m.status.code == Failed then 0 else 1)
    ensures DataMessages(log + [m]) == DataMessages(log) + if m.status.code == Failed then 0 else 1
    ensures Numbered(log + [m])
  {
  }

  /** Message by message: data messages are numbered 1, 2, 3, ... without a gap (modulo 2^32), and a failure
      message repeats the number of the message before it, or 0 when it is the first. */
  lemma {:induction false} NumberedWithoutGap(log: seq<DownloadData>, i: nat)
    requires Numbered(log) && i < |log|
    ensures var previous := if i == 0 then 0 else log[i - 1].sequenceNumber;
            log[i].sequenceNumber == if log[i].status.code == Failed then previous else Increment(previous)
    decreases |log|
  {
    var init := log[..|log| - 1];
    if i < |init| {
      NumberedWithoutGap(init, i);
    } else if i > 0 {
      assert init[i - 1] == log[i - 1];
    }
  }
}
