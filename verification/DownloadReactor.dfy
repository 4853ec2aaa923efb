/** The server side of a download: DataStreamWriter, a gRPC write reactor driven by callbacks. */
module DownloadReactor {
  import opened DataStream

  datatype StreamType = TypeUnknown | TypeFixed | TypeContinuous | TypeOther(value: int)
  datatype Pattern = PatternUnknown | PatternConstant | PatternOther(value: int)
  datatype TypeProperties = NotSet | Fixed(numberOfDataBlocksToStream: uint32) | Continuous
  datatype Properties = Properties(streamType: StreamType, pattern: Pattern, typeProperties: TypeProperties)

  /** magic_enum::enum_name: empty for a value outside the enumeration. */
  function StreamTypeName(t: StreamType): string {
    match t
    case TypeUnknown => "DataStreamTypeUnknown"
    case TypeFixed => "DataStreamTypeFixed"
    case TypeContinuous => "DataStreamTypeContinuous"
    case TypeOther(_) => ""
  }

  function PatternName(p: Pattern): string {
    match p
    case PatternUnknown => "DataStreamPatternUnknown"
    case PatternConstant => "DataStreamPatternConstant"
    case PatternOther(_) => ""
  }

  const NOT_SENT := OperationStatus(Unknown, "No data sent yet")
  const SENT := OperationStatus(Succeeded, "Data write successful")
  const WRITE_FAILED := "Data write failed"

  /** The reactor's fields, followed by what it did to the RPC: the messages handed to StartWrite, the
      statuses handed to Finish and the number of writes whose OnWriteDone is still to come. */
  datatype Reactor = Reactor(
    properties: Properties,
    blocksToStream: uint32,
    blocksWritten: uint32,
    data: DownloadData,
    writeStatus: OperationStatus,
    isCanceled: bool,
    isCompleted: bool,
    writes: seq<DownloadData>,
    finishes: seq<GrpcStatus>,
    outstanding: nat)
  {
    // What each function of the source does to that state.

    function StartWrite(): Reactor {
      this.(writes := writes + [data], outstanding := outstanding + 1)
    }

    function Finish(status: GrpcStatus): Reactor {
      this.(finishes := finishes + [status])
    }

    function HandleFailure(message: string): Reactor {
      var status := OperationStatus(Failed, message);
      this.(writeStatus := status, data := data.(status := status)).StartWrite()
    }

    predicate HasMoreToWrite() {
      || properties.streamType == TypeContinuous
      || (properties.streamType == TypeFixed && blocksToStream > 0)
    }

    /** NextWrite after its cancellation check; `block` is the random data generated for the write. */
    function WriteOrFinish(block: string): Reactor {
      if HasMoreToWrite() then
        if properties.pattern == PatternConstant then
          var number := Increment(blocksWritten);
          this.(blocksWritten := number, data := DownloadData(writeStatus, block, number)).StartWrite()
        else
          HandleFailure("Unexpected data stream pattern " + PatternName(properties.pattern))
      else
        Finish(OK)
    }

    function NextWrite(block: string): Reactor {
      if isCanceled then this else WriteOrFinish(block)
    }

    /** The bookkeeping after a successful write. */
    function Acknowledge(): Reactor {
      this.(blocksToStream := if properties.streamType == TypeFixed then Decrement(blocksToStream) else blocksToStream,
            writeStatus := SENT)
    }

    function OnWriteDone(isOk: bool, block: string): Reactor
      requires outstanding > 0
    {
      var r := this.(outstanding := outstanding - 1);
      if isCanceled then r
      else if writeStatus.code == Failed then
        if isCompleted then r else r.(isCompleted := true).Finish(OK)
      else if isOk then r.Acknowledge().NextWrite(block)
      else r.HandleFailure(WRITE_FAILED)
    }

    function OnCancel(): Reactor {
      if isCanceled then this
      else
        var r := this.(isCanceled := true);
        if isCompleted then r else r.Finish(CANCELLED)
    }
  }

  function Fresh(p: Properties): Reactor {
    Reactor(p, 0, 0, EMPTY_MESSAGE, OperationStatus(Unknown, ""), false, false, [], [], 0)
  }

  /** The constructor accepts a request whose properties are those of its type. */
  predicate Accepted(p: Properties) {
    || (p.streamType == TypeFixed && p.typeProperties.Fixed?)
    || (p.streamType == TypeContinuous && p.typeProperties.Continuous?)
  }

  const FIXED_EXPECTED := "Invalid properties for this streaming type. Expected Fixed for DataStreamTypeFixed"
  const CONTINUOUS_EXPECTED :=
    "Invalid properties for this streaming type. Expected Continuous for DataStreamTypeContinuous"

  function RefusalMessage(p: Properties): string {
    match p.streamType
    case TypeFixed => FIXED_EXPECTED
    case TypeContinuous => CONTINUOUS_EXPECTED
    case _ => "Invalid streaming type: " + StreamTypeName(p.streamType)
  }

  /** The blocks still to stream before the first write. */
  function BlocksRequested(p: Properties): uint32 {
    if p.typeProperties.Fixed? then p.typeProperties.numberOfDataBlocksToStream else 0
  }

  /** The reactor when its constructor returns. */
  function Create(p: Properties, block: string): Reactor {
    if Accepted(p) then
      Fresh(p).(blocksToStream := BlocksRequested(p), writeStatus := NOT_SENT).NextWrite(block)
    else
      Fresh(p).HandleFailure(RefusalMessage(p))
  }

  // ---------- The reactor itself ----------

  class DataStreamWriter {
    const properties: Properties
    var numberOfDataBlocksToStream: uint32
    var numberOfDataBlocksWritten: uint32
    var data: DownloadData
    var writeStatus: OperationStatus
    var isCanceled: bool
    var isCompleted: bool
    ghost var writes: seq<DownloadData>
    ghost var finishes: seq<GrpcStatus>
    ghost var outstanding: nat

    ghost function State(): Reactor
      reads this
    {
      Reactor(properties, numberOfDataBlocksToStream, numberOfDataBlocksWritten, data, writeStatus,
              isCanceled, isCompleted, writes, finishes, outstanding)
    }

    constructor (properties: Properties, block: string)
      ensures State() == Create(properties, block)
    {
      this.properties := properties;
      numberOfDataBlocksToStream, numberOfDataBlocksWritten := 0, 0;
      data, writeStatus := EMPTY_MESSAGE, OperationStatus(Unknown, "");
      isCanceled, isCompleted := false, false;
      writes, finishes, outstanding := [], [], 0;
      new;
      var ok := Prepare();
      if !ok {
        return;
      }
      writeStatus := OperationStatus(Unknown, "No data sent yet");
      NextWrite(block);
    }

    /** The part of the constructor that looks at the request. */
    method Prepare() returns (ok: bool)
      requires State() == Fresh(properties)
      modifies this
      ensures ok == Accepted(properties)
      ensures State() == if ok then Fresh(properties).(blocksToStream := BlocksRequested(properties))
                         else Fresh(properties).HandleFailure(RefusalMessage(properties))
    {
      match properties.streamType {
        case TypeFixed =>
          if properties.typeProperties.Fixed? {
            numberOfDataBlocksToStream := properties.typeProperties.numberOfDataBlocksToStream;
          } else {
            HandleFailure(FIXED_EXPECTED);
            return false;
          }
        case TypeContinuous =>
          if properties.typeProperties.Continuous? {
            numberOfDataBlocksToStream := 0;
          } else {
            HandleFailure(CONTINUOUS_EXPECTED);
            return false;
          }
        case _ =>
          HandleFailure("Invalid streaming type: " + StreamTypeName(properties.streamType));
          return false;
      }
      return true;
    }

    method OnWriteDone(isOk: bool, block: string)
      requires outstanding > 0
      modifies this
      ensures State() == old(State()).OnWriteDone(isOk, block)
    {
      outstanding := outstanding - 1;
      if isCanceled {
        return;
      }
      if writeStatus.code == Failed {
        if !isCompleted {
          isCompleted := true;
          Finish(OK);
        }
        return;
      }
      if isOk {
        if properties.streamType == TypeFixed {
          numberOfDataBlocksToStream := Decrement(numberOfDataBlocksToStream);
        }
        writeStatus := SENT;
        NextWrite(block);
      } else {
        HandleFailure(WRITE_FAILED);
      }
    }

    method OnCancel()
      modifies this
      ensures State() == old(State()).OnCancel()
    {
      if !isCanceled {
        isCanceled := true;
        if !isCompleted {
          Finish(CANCELLED);
        }
      }
    }

    method NextWrite(block: string)
      modifies this
      ensures State() == old(State()).NextWrite(block)
    {
      if isCanceled {
        return;
      }
      if || properties.streamType == TypeContinuous
         || (properties.streamType == TypeFixed && numberOfDataBlocksToStream > 0) {
        match properties.pattern {
          case PatternConstant =>
            numberOfDataBlocksWritten := Increment(numberOfDataBlocksWritten);
            data := data.(data := block);
            data := data.(sequenceNumber := numberOfDataBlocksWritten);
            data := data.(status := writeStatus);
            StartWrite();
          case _ =>
            HandleFailure("Unexpected data stream pattern " + PatternName(properties.pattern));
        }
      } else {
        Finish(OK);
      }
    }

    method HandleFailure(message: string)
      modifies this
      ensures State() == old(State()).HandleFailure(message)
    {
      writeStatus := OperationStatus(Failed, message);
      data := data.(status := writeStatus);
      StartWrite();
    }

    /** gRPC: the message is handed over and one OnWriteDone will follow. */
    method StartWrite()
      modifies this`writes, this`outstanding
      ensures State() == old(State()).StartWrite()
    {
      writes := writes + [data];
      outstanding := outstanding + 1;
    }

    /** gRPC: the RPC is completed with the given status. */
    method Finish(status: GrpcStatus)
      modifies this`finishes
      ensures State() == old(State()).Finish(status)
    {
      finishes := finishes + [status];
    }
  }
}
