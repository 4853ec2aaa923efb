/** A download with the atomic operations of OnCancel and of the running callback as separate steps, under
    every interleaving. */
module DownloadCancelRace {
  import opened DataStream
  import opened DownloadReactor

  /** Where the thread that runs the constructor or OnWriteDone stands; the name of each state says what it
      does next. */
  datatype Callback =
    | Idle
    | LoadCanceled(isOk: bool, block: string)
    | CheckStatus(isOk: bool, block: string)
    | ClaimCompletion
    | FinishOk
    | LoadCanceledAgain(block: string)
    | WriteNext(block: string)
    | ReportFailure(message: string)

  /** Where OnCancel stands. */
  datatype Cancellation = SetCanceled | LoadCompleted | FinishCanceled | Returned

  /** `writesAtCancel` records how many writes had been started when the cancel flag was set. */
  datatype System = System(r: Reactor, callback: Callback, cancellation: Cancellation, writesAtCancel: nat)

  datatype Move = Deliver(isOk: bool, block: string) | CallbackMove | CancelMove

  function Start(p: Properties, first: string): System {
    if Accepted(p) then
      System(Fresh(p).(blocksToStream := BlocksRequested(p), writeStatus := NOT_SENT),
             LoadCanceledAgain(first), SetCanceled, 0)
    else
      System(Fresh(p), ReportFailure(RefusalMessage(p)), SetCanceled, 0)
  }

  predicate CanMove(s: System, m: Move) {
    match m
    case Deliver(_, _) => s.callback.Idle? && s.r.outstanding > 0
    case CallbackMove => !s.callback.Idle?
    case CancelMove => !s.cancellation.Returned?
  }

  /** One step of the constructor or OnWriteDone: at most one access to an atomic flag, or one gRPC call. */
  function CallbackStep(r: Reactor, c: Callback): (Reactor, Callback) {
    match c
    case Idle => (r, Idle)
    case LoadCanceled(isOk, block) => (r, if r.isCanceled then Idle else CheckStatus(isOk, block))
    case CheckStatus(isOk, block) =>
      if r.writeStatus.code == Failed then (r, ClaimCompletion)
      else if isOk then (r.Acknowledge(), LoadCanceledAgain(block))
      else (r, ReportFailure(WRITE_FAILED))
    case ClaimCompletion => if r.isCompleted then (r, Idle) else (r.(isCompleted := true), FinishOk)
    case FinishOk => (r.Finish(OK), Idle)
    case LoadCanceledAgain(block) => (r, if r.isCanceled then Idle else WriteNext(block))
    case WriteNext(block) => (r.WriteOrFinish(block), Idle)
    case ReportFailure(message) => (r.HandleFailure(message), Idle)
  }

  function CancelStep(r: Reactor, c: Cancellation): (Reactor, Cancellation) {
    match c
    case SetCanceled => (r.(isCanceled := true), LoadCompleted)
    case LoadCompleted => (r, if r.isCompleted then Returned else FinishCanceled)
    case FinishCanceled => (r.Finish(CANCELLED), Returned)
    case Returned => (r, Returned)
  }

  function Do(s: System, m: Move): System
    requires CanMove(s, m)
  {
    match m
    case Deliver(isOk, block) =>
      s.(r := s.r.(outstanding := s.r.outstanding - 1), callback := LoadCanceled(isOk, block))
    case CallbackMove =>
      var (r, c) := CallbackStep(s.r, s.callback);
      s.(r := r, callback := c)
    case CancelMove =>
      var (r, c) := CancelStep(s.r, s.cancellation);
      s.(r := r, cancellation := c,
         writesAtCancel := if s.cancellation.SetCanceled? then |s.r.writes| else s.writesAtCancel)
  }

  /** Move i leads from state i to the next. */
  predicate IsStep(states: seq<System>, moves: seq<Move>, i: nat)
    requires i < |moves| < |states|
  {
    CanMove(states[i], moves[i]) && states[i + 1] == Do(states[i], moves[i])
  }

  /** The states that a schedule of moves leads through. */
  ghost predicate Execution(states: seq<System>, moves: seq<Move>) {
    && |states| == |moves| + 1
    && forall i {:trigger IsStep(states, moves, i)} :: 0 <= i < |moves| ==> IsStep(states, moves, i)
  }

  /** States past the last check of the cancel flag that can still start a write. */
  predicate MayStillWrite(c: Callback) { c.CheckStatus? || c.WriteNext? || c.ReportFailure? }

  /** At most one write is outstanding, and at most one is started after the cancel flag was set. */
  ghost predicate WriteInvariant(s: System) {
    && s.r.outstanding <= (if s.callback.Idle? then 1 else 0)
    && (s.r.isCanceled <==> !s.cancellation.SetCanceled?)
    && (s.r.isCanceled ==>
          |s.r.writes| + (if MayStillWrite(s.callback) then 1 else 0) <= s.writesAtCancel + 1)
  }

  ghost predicate FinishInvariant(s: System) {
    // At most one Finish(OK), after which the callback side is over, and at most one Finish(CANCELLED).
    && multiset(s.r.finishes)[CANCELLED] <= (if s.cancellation.Returned? then 1 else 0)
    && multiset(s.r.finishes)[OK] <= (if s.callback.Idle? && s.r.outstanding == 0 then 1 else 0)
    // Completion is claimed before it is carried out, and nothing is left pending without a Finish.
    && (s.r.isCompleted ==> s.callback.FinishOk? || OK in s.r.finishes)
    && (s.callback.Idle? && s.r.outstanding == 0 && !s.r.isCanceled ==> OK in s.r.finishes)
    && (s.cancellation.Returned? ==> s.r.isCompleted || CANCELLED in s.r.finishes)
  }

  ghost predicate Invariant(s: System) { WriteInvariant(s) && FinishInvariant(s) }

  lemma OneMoreFinish(before: seq<GrpcStatus>, status: GrpcStatus)
    ensures multiset(before + [status]) == multiset(before) + multiset{status}
    ensures status in before + [status]
    ensures forall f :: f in before ==> f in before + [status]
  {
  }

  lemma CancelKeepsInvariant(s: System)
    requires Invariant(s) && CanMove(s, CancelMove)
    ensures Invariant(Do(s, CancelMove))
  {
    if s.cancellation.FinishCanceled? {
      OneMoreFinish(s.r.finishes, CANCELLED);
    }
  }

  lemma CallbackKeepsWrites(s: System)
    requires WriteInvariant(s) && CanMove(s, CallbackMove)
    ensures WriteInvariant(Do(s, CallbackMove))
  {
  }

  /** What a step of a callback does to the parts of a reactor that completion depends on. */
  predicate Changes(r: Reactor, c: Callback, r': Reactor, c': Callback) {
    var finished := c.FinishOk? || (c.WriteNext? && !r.HasMoreToWrite());
    && r'.finishes == (if finished then r.finishes + [OK] else r.finishes)
    && r'.isCanceled == r.isCanceled
    && r'.isCompleted == (r.isCompleted || c.ClaimCompletion?)
    && (c'.FinishOk? <==> c.ClaimCompletion? && !r.isCompleted)
    && (c'.Idle? && r'.outstanding == 0 && !finished ==>
          || c.Idle?
          || ((c.LoadCanceled? || c.LoadCanceledAgain?) && r.isCanceled)
          || (c.ClaimCompletion? && r.isCompleted))
    && (finished ==> c'.Idle? && r'.outstanding == r.outstanding)
  }

  lemma CallbackChanges(r: Reactor, c: Callback)
    ensures Changes(r, c, CallbackStep(r, c).0, CallbackStep(r, c).1)
  {
  }

  lemma CallbackKeepsFinishes(s: System, s': System)
    requires Invariant(s) && !s.callback.Idle? && s'.cancellation == s.cancellation
    requires Changes(s.r, s.callback, s'.r, s'.callback)
    ensures FinishInvariant(s')
  {
    OneMoreFinish(s.r.finishes, OK);
  }

  lemma InvariantStep(s: System, m: Move)
    requires Invariant(s) && CanMove(s, m)
    ensures Invariant(Do(s, m))
  {
    match m
    case Deliver(_, _) =>
    case CallbackMove =>
      CallbackKeepsWrites(s);
      CallbackChanges(s.r, s.callback);
      CallbackKeepsFinishes(s, Do(s, m));
    case CancelMove => CancelKeepsInvariant(s);
  }

  lemma {:induction false} InvariantAlways(states: seq<System>, moves: seq<Move>, i: nat)
    requires Execution(states, moves) && Invariant(states[0]) && i <= |moves|
    ensures Invariant(states[i])
  {
    if i > 0 {
      InvariantAlways(states, moves, i - 1);
      assert IsStep(states, moves, i - 1);
      InvariantStep(states[i - 1], moves[i - 1]);
    }
  }

  lemma {:induction false} FinishesByKind(finishes: seq<GrpcStatus>)
    ensures |finishes| == multiset(finishes)[OK] + multiset(finishes)[CANCELLED]
  {
    if finishes == [] {
      assert multiset(finishes) == multiset{};
    } else {
      var n := |finishes| - 1;
      FinishesByKind(finishes[..n]);
      assert finishes == finishes[..n] + [finishes[n]];
      assert finishes[n] == OK || finishes[n] == CANCELLED;
    }
  }

  /** However the steps of OnCancel interleave with those of the constructor and of OnWriteDone: at most one
      StartWrite follows the setting of the cancel flag, Finish is called at most twice, and it has been
      called once nothing is running or outstanding. */
  lemma CancellationStopsWriting(p: Properties, first: string, states: seq<System>, moves: seq<Move>)
    requires Execution(states, moves) && states[0] == Start(p, first)
    ensures var s := states[|moves|];
            && (s.r.isCanceled ==> |s.r.writes| <= s.writesAtCancel + 1)
            && s.r.outstanding <= 1
            && |s.r.finishes| <= 2
            && (s.callback.Idle? && s.r.outstanding == 0 && (s.cancellation.SetCanceled? || s.cancellation.Returned?)
                ==> s.r.finishes != [])
  {
    InvariantAlways(states, moves, |moves|);
    FinishesByKind(states[|moves|].r.finishes);
  }

  // ---------- When Finish is called twice ----------

  /** A callback that is bound to call Finish(OK), whatever the cancel flag becomes. */
  predicate WillFinish(r: Reactor, c: Callback) {
    || c.ClaimCompletion?
    || c.FinishOk?
    || (c.CheckStatus? && r.writeStatus.code == Failed)
    || (c.WriteNext? && !r.HasMoreToWrite())
  }

  /** The callback side has finished the RPC or is bound to. */
  predicate Committed(s: System) { OK in s.r.finishes || WillFinish(s.r, s.callback) }

  /** OnCancel has finished the RPC or is bound to. */
  predicate Canceling(s: System) { CANCELLED in s.r.finishes || s.cancellation.FinishCanceled? }

  /** Once the cancel flag is set the callback side commits to nothing new and gives up nothing. */
  lemma CommitmentKept(s: System, m: Move)
    requires Invariant(s) && CanMove(s, m) && s.r.isCanceled
    ensures Do(s, m).r.isCanceled && (Committed(Do(s, m)) <==> Committed(s))
  {
  }

  lemma {:induction false} CommitmentKeptFrom(states: seq<System>, moves: seq<Move>, i: nat, k: nat)
    requires Execution(states, moves) && Invariant(states[0])
    requires i <= k <= |moves| && states[i].r.isCanceled
    ensures states[k].r.isCanceled && (Committed(states[k]) <==> Committed(states[i]))
  {
    if k > i {
      CommitmentKeptFrom(states, moves, i, k - 1);
      InvariantAlways(states, moves, k - 1);
      assert IsStep(states, moves, k - 1);
      CommitmentKept(states[k - 1], moves[k - 1]);
    }
  }

  lemma {:induction false} CancelingKeptFrom(states: seq<System>, moves: seq<Move>, j: nat, k: nat)
    requires Execution(states, moves) && Invariant(states[0]) && j < k <= |moves|
    requires moves[j] == CancelMove && states[j].cancellation.LoadCompleted?
    ensures states[k].cancellation.FinishCanceled? || states[k].cancellation.Returned?
    ensures Canceling(states[k]) <==> !states[j].r.isCompleted
  {
    assert IsStep(states, moves, k - 1);
    if k == j + 1 {
      InvariantAlways(states, moves, j);
    } else {
      CancelingKeptFrom(states, moves, j, k - 1);
      CancelingKept(states[k - 1], moves[k - 1]);
    }
  }

  lemma CancelingKept(s: System, m: Move)
    requires CanMove(s, m) && (s.cancellation.FinishCanceled? || s.cancellation.Returned?)
    ensures Canceling(Do(s, m)) <==> Canceling(s)
  {
    OneMoreFinish(s.r.finishes, OK);
    OneMoreFinish(s.r.finishes, CANCELLED);
  }

  /** Which Finish calls a run with a cancellation has made once nothing runs any more: Finish(OK) exactly when the
      callback side had made it or was bound to when the cancel flag was set (move i), Finish(CANCELLED) exactly
      when the completion flag was not set when OnCancel read it (move j). So it is finished twice if and only
      if both hold. */
  lemma FinishedTwiceExactly(p: Properties, first: string, states: seq<System>, moves: seq<Move>, i: nat, j: nat)
    requires Execution(states, moves) && states[0] == Start(p, first)
    requires i < |moves| && moves[i] == CancelMove && states[i].cancellation.SetCanceled?
    requires j < |moves| && moves[j] == CancelMove && states[j].cancellation.LoadCompleted?
    requires states[|moves|].callback.Idle? && states[|moves|].cancellation.Returned?
    ensures var finishes := states[|moves|].r.finishes;
            && (OK in finishes <==> Committed(states[i]))
            && (CANCELLED in finishes <==> !states[j].r.isCompleted)
            && (|finishes| == 2 <==> Committed(states[i]) && !states[j].r.isCompleted)
            && |finishes| <= 2
  {
    var last := states[|moves|];
    assert IsStep(states, moves, i);
    CommitmentKeptFrom(states, moves, i + 1, |moves|);
    CancelingKeptFrom(states, moves, j, |moves|);
    InvariantAlways(states, moves, |moves|);
    FinishesByKind(last.r.finishes);
  }

  /** A run that is not canceled calls Finish at most once, and exactly once when nothing runs or is outstanding. */
  lemma FinishedOnceWithoutCancel(p: Properties, first: string, states: seq<System>, moves: seq<Move>)
    requires Execution(states, moves) && states[0] == Start(p, first)
    requires states[|moves|].cancellation.SetCanceled?
    ensures |states[|moves|].r.finishes| <= 1
    ensures states[|moves|].callback.Idle? && states[|moves|].r.outstanding == 0 ==> states[|moves|].r.finishes == [OK]
  {
    var last := states[|moves|];
    InvariantAlways(states, moves, |moves|);
    FinishesByKind(last.r.finishes);
  }

  /** The steps of a callback taken one after the other, `fuel` of them at most. */
  function RunCallback(r: Reactor, c: Callback, fuel: nat): (Reactor, Callback)
    decreases fuel
  {
    if fuel == 0 || c.Idle? then (r, c)
    else
      var (r', c') := CallbackStep(r, c);
      RunCallback(r', c', fuel - 1)
  }

  /** Without interference the steps make up OnWriteDone ... */
  lemma UninterruptedWriteDone(r: Reactor, isOk: bool, block: string)
    requires r.outstanding > 0
    ensures RunCallback(r.(outstanding := r.outstanding - 1), LoadCanceled(isOk, block), 4)
         == (r.OnWriteDone(isOk, block), Idle)
  {
  }

  /** ... the constructor ... */
  lemma UninterruptedStart(p: Properties, block: string)
    ensures RunCallback(Start(p, block).r, Start(p, block).callback, 2) == (Create(p, block), Idle)
  {
  }

  /** ... and OnCancel. */
  lemma UninterruptedCancel(r: Reactor)
    requires !r.isCanceled
    ensures var (r1, c1) := CancelStep(r, SetCanceled);
            var (r2, c2) := CancelStep(r1, c1);
            CancelStep(r2, c2) == (r.OnCancel(), Returned)
  {
  }

  const REFUSED := Properties(TypeUnknown, PatternConstant, NotSet)

  /** With callbacks as atomic steps a refused request is finished once whatever is canceled
      (DownloadRuns.CompletedExactlyOnce); step by step it is not. OnCancel may read the completion flag
      between the callback's check of the cancel flag and its claim of the completion. */
  lemma RaceFinishesTwice(block: string) returns (states: seq<System>, moves: seq<Move>)
    ensures Execution(states, moves) && states[0] == Start(REFUSED, block)
    ensures states[|moves|].r.isCompleted && states[|moves|].r.finishes == [OK, CANCELLED]
  {
    var s0 := Start(REFUSED, block);
    var s1 := Do(s0, CallbackMove);
    var s2 := Do(s1, Deliver(true, block));
    var s3 := Do(s2, CallbackMove);
    var s4 := Do(s3, CallbackMove);
    var s5 := Do(s4, CancelMove);
    var s6 := Do(s5, CancelMove);
    var s7 := Do(s6, CallbackMove);
    var s8 := Do(s7, CallbackMove);
    var s9 := Do(s8, CancelMove);
    states := [s0, s1, s2, s3, s4, s5, s6, s7, s8, s9];
    moves := [CallbackMove, Deliver(true, block), CallbackMove, CallbackMove, CancelMove, CancelMove,
              CallbackMove, CallbackMove, CancelMove];
  }
}
