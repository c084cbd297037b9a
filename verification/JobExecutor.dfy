/** One job: the worker thread, any number of concurrent cancels and the workflow waiting for the job
    (crates/bridge/src/jobs.rs, crates/bridge/src/completion.rs). A step is one atomic access to shared state:
    the slot under its lock, one database statement, or one event outside the program. */
module JobExecutor {
  // ---- Completion signals ----

  datatype Outcome = Completed | Failed | TimedOut | Cancelled
  datatype SignalKind = ProcessExit | ScannerTimeout | StopHook | ManualCancel
  datatype Signal = Signal(kind: SignalKind, outcome: Outcome)

  datatype FinalState = SucceededJob | FailedJob | CancelledJob
  datatype Final = Final(state: FinalState, reason: string)

  /** `canonical_completed_reason` */
  function CompletedReason(signal: Signal): string {
    match signal.outcome
    case Cancelled => "cancelled"
    case TimedOut => "scanner_timeout"
    case Failed =>
      (match signal.kind
       case ProcessExit => "process_exit_nonzero"
       case ScannerTimeout => "scanner_timeout"
       case _ => "failed")
    case Completed =>
      (match signal.kind
       case StopHook => "stop_hook"
       case ProcessExit => "process_exit"
       case _ => "completed")
  }

  /** The row `CompletionSink::apply` writes. */
  function FinalOf(signal: Signal): Final {
    var state := match signal.outcome
      case Completed => SucceededJob
      case Failed => FailedJob
      case TimedOut => FailedJob
      case Cancelled => CancelledJob;
    Final(state, CompletedReason(signal))
  }

  const MANUAL_CANCELLED := Signal(ManualCancel, Cancelled)

  /** `signal_from_exit_status` */
  function SignalFromExit(success: bool): Signal {
    Signal(ProcessExit, if success then Completed else Failed)
  }

  /** `signal_for_killed` */
  function SignalForKilled(cancelled: bool): Signal {
    if cancelled then MANUAL_CANCELLED else Signal(ScannerTimeout, Failed)
  }

  // ---- State ----

  datatype Status = Queued | Running | Observing | Done(final: Final)

  datatype Child = NotSpawned | Alive | Exited(success: bool)

  datatype Pc =
    | Opening | Marking | Spawning | Recording | Registering
    | Polling | Confirming(left: nat) | Watching | StopCheck | IdleCheck
    | Killing | Raising | Taking | Applying | Notifying | Ended

  /** The locals of `exec_job`. `sender` says that it holds the completion sender itself. */
  datatype Worker = Worker(pc: Pc, spawnFailed: bool, timedOut: bool, stopRequested: bool, exit: ExitSeen,
                           observing: bool, cancelFlag: bool, sender: bool)

  datatype Cancel =
    | Locking(pidKnown: bool)
    | Writing(route: Route)
    | Refused
    | Succeeded(route: Route)

  /** How a cancel got to write the row: over a queued row, by emptying the slot, or, finding the slot empty, without
      and with a process to kill in the row it read. */
  datatype Route = QueuedRow | TookSlot | NoProcess | KnownProcess

  datatype Waiter = Waiting | Received | Read(status: Status)

  datatype ExitSeen = NoExit | Exit(success: bool)
  datatype Slot = Vacant | Occupied(sender: bool)
  datatype Emptying = Untouched | Emptied(at: Pc)
  datatype Writer = Nobody | ByWorker | ByCancel

  /** `slot` is the shared `running` slot: empty, or holding the job with or without a completion sender.
      The last four fields are history: the database failed before the start, `try_wait` failed, where the worker was
      when a cancel emptied the slot, and who wrote the terminal row. */
  datatype State = State(status: Status, stopMarker: bool, pidRecorded: bool, child: Child,
                         slot: Slot, sent: nat, worker: Worker, cancels: map<nat, Cancel>, waiter: Waiter,
                         startFailed: bool, waitFailed: bool, emptiedAt: Emptying, writer: Writer)

  /** A workflow step has a completion channel, a plain job has none. */
  function Init(channel: bool): State {
    State(Queued, false, false, NotSpawned, Vacant, 0,
          Worker(Opening, false, false, false, NoExit, false, false, channel), map[], Waiting, false, false,
          Untouched, Nobody)
  }

  /** A terminal status is only written over a job that is still active. */
  function Finish(status: Status, final: Final): Status {
    if status.Done? then status else Done(final)
  }

  function FirstWriter(s: State, writer: Writer): Writer {
    if s.status.Done? then s.writer else writer
  }

  function WorkerSignal(w: Worker): Signal {
    if w.spawnFailed then Signal(ProcessExit, Failed)
    else if w.timedOut then Signal(ScannerTimeout, TimedOut)
    else if w.stopRequested then Signal(StopHook, Completed)
    else if w.exit.Exit? then SignalFromExit(w.exit.success)
    else SignalForKilled(w.cancelFlag)
  }

  function Send(s: State, holds: bool): State {
    if holds then s.(sent := s.sent + 1) else s
  }

  function Killed(child: Child, success: bool): Child {
    if child.Alive? then Exited(success) else child
  }

  // ---- Steps ----

  datatype Idleness = Active | SoftIdle | HardIdle

  datatype Action =
    | Open(ok: bool) | MarkStarted(ok: bool) | Spawn(ok: bool) | RecordProcess | Register
    | Poll(waitOk: bool) | Confirm(readOk: bool) | Watch(changed: bool) | CheckStop(look: bool)
    | CheckIdle(idle: Idleness)
    | KillChild(success: bool) | RaiseFlag | TakeSlot | ApplySignal | Notify
    | CancelRead(id: nat) | CancelLock(id: nat, success: bool) | CancelWrite(id: nat)
    | ChildExits(success: bool) | RequestStop | Receive | ReadStatus

  predicate WorkerAction(a: Action) {
    !(a.CancelRead? || a.CancelLock? || a.CancelWrite? || a.ChildExits? || a.RequestStop? || a.Receive?
      || a.ReadStatus?)
  }

  function At(s: State, pc: Pc): State {
    s.(worker := s.worker.(pc := pc))
  }

  /** Leave through an early return, after the completion sender was used. */
  function EndEarly(s: State): State {
    var s := Send(s, s.worker.sender);
    s.(worker := s.worker.(pc := Ended, sender := false))
  }

  /** `exec_job` up to the point where the child is registered in the slot. */
  function StartStep(s: State, a: Action): State {
    var w := s.worker;
    match a
    case Open(ok) =>
      if !w.pc.Opening? then s
      else if ok then At(s, Marking)
      else EndEarly(s).(startFailed := true)
    case MarkStarted(ok) =>
      if !w.pc.Marking? then s
      else if !ok then EndEarly(s).(startFailed := true)
      else if !s.status.Queued? then EndEarly(s)
      else At(s, Spawning).(status := Running)
    case Spawn(ok) =>
      if !w.pc.Spawning? then s
      else if ok then At(s, Recording).(child := Alive)
      else s.(worker := w.(pc := Applying, spawnFailed := true))
    case RecordProcess =>
      if !w.pc.Recording? then s
      else At(s, Registering).(pidRecorded := s.status.Running?)
    case Register =>
      if !w.pc.Registering? then s
      else s.(slot := Occupied(w.sender), worker := w.(pc := Polling, sender := false))
    case _ => s
  }

  /** The watchdog loop. */
  function LoopStep(s: State, a: Action): State {
    var w := s.worker;
    match a
    case Poll(waitOk) =>
      if !w.pc.Polling? then s
      else if w.cancelFlag || s.slot.Vacant? then At(s, Killing)
      else if !waitOk then At(s, Killing).(waitFailed := true)
      else if s.child.Exited? then s.(worker := w.(pc := Confirming(10), exit := Exit(s.child.success)))
      else At(s, Watching)
    case Confirm(readOk) =>
      if !w.pc.Confirming? then s
      else if w.pc.left == 0 then At(s, Killing)
      else if readOk && s.stopMarker then s.(worker := w.(pc := Killing, stopRequested := true))
      else At(s, Confirming(w.pc.left - 1))
    case Watch(changed) =>
      if !w.pc.Watching? then s
      else if changed && w.observing then
        s.(worker := w.(pc := StopCheck, observing := false),
                status := if s.status.Observing? then Running else s.status)
      else At(s, StopCheck)
    case CheckStop(look) =>
      if !w.pc.StopCheck? then s
      else if look && s.stopMarker then s.(worker := w.(pc := Killing, stopRequested := true))
      else At(s, IdleCheck)
    case CheckIdle(idle) =>
      if !w.pc.IdleCheck? then s
      else
        var entering := !w.observing && !idle.Active?;
        var w' := w.(observing := w.observing || entering);
        var status' := if entering && s.status.Running? then Observing else s.status;
        s.(status := status',
                worker := if idle.HardIdle? then w'.(pc := Killing, timedOut := true) else w'.(pc := Polling))
    case _ => s
  }

  /** From the end of the loop to the completion signal. */
  function FinishStep(s: State, a: Action): State {
    var w := s.worker;
    match a
    case KillChild(success) =>
      if !w.pc.Killing? then s
      else if (w.timedOut || w.stopRequested || w.cancelFlag) && s.slot.Occupied? then
        var child := Killed(s.child, success);
        var exit := if w.exit.NoExit? && child.Exited? then Exit(child.success) else w.exit;
        s.(child := child, worker := w.(pc := Raising, exit := exit))
      else At(s, Raising)
    case RaiseFlag =>
      if !w.pc.Raising? then s
      else s.(worker := w.(pc := Taking, cancelFlag := true))
    case TakeSlot =>
      if !w.pc.Taking? then s
      else s.(slot := Vacant, worker := w.(pc := Applying, sender := (s.slot.Occupied? && s.slot.sender)))
    case ApplySignal =>
      if !w.pc.Applying? then s
      else At(s, Notifying).(status := Finish(s.status, FinalOf(WorkerSignal(w))), writer := FirstWriter(s, ByWorker))
    case Notify =>
      if !w.pc.Notifying? then s else EndEarly(s)
    case _ => s
  }

  /** `cancel`: read the row, then take the slot's lock, then write the row. */
  function CancelStep(s: State, a: Action): State {
    match a
    case CancelRead(id) =>
      if id in s.cancels then s
      else
        var next := match s.status
          case Queued => Writing(QueuedRow)
          case Running => Locking(s.pidRecorded)
          case Observing => Refused
          case Done(_) => Refused;
        s.(cancels := s.cancels[id := next])
    case CancelLock(id, success) =>
      if !(id in s.cancels && s.cancels[id].Locking?) then s
      else if s.slot.Occupied? then
        var s' := Send(s, s.slot.sender);
        s'.(child := Killed(s.child, success), slot := Vacant, emptiedAt := Emptied(s.worker.pc),
                 cancels := s.cancels[id := Writing(TookSlot)])
      else
        s.(child := if s.cancels[id].pidKnown then Killed(s.child, success) else s.child,
                cancels := s.cancels[id := Writing(if s.cancels[id].pidKnown then KnownProcess else NoProcess)])
    case CancelWrite(id) =>
      if !(id in s.cancels && s.cancels[id].Writing?) then s
      else s.(status := Finish(s.status, FinalOf(SignalForKilled(true))), writer := FirstWriter(s, ByCancel),
              cancels := s.cancels[id := Succeeded(s.cancels[id].route)])
    case _ => s
  }

  /** The child, the stop hook and the workflow waiting in `submit_workflow_step`. */
  function OutsideStep(s: State, a: Action): State {
    match a
    case ChildExits(success) =>
      if s.child.Alive? then s.(child := Exited(success)) else s
    case RequestStop =>
      if s.status.Running? || s.status.Observing? then s.(stopMarker := true) else s
    case Receive =>
      if s.waiter.Waiting? && s.sent > 0 then s.(waiter := Received) else s
    case ReadStatus =>
      if s.waiter.Received? then s.(waiter := Read(s.status)) else s
    case _ => s
  }

  function Step(s: State, a: Action): State {
    if a.CancelRead? || a.CancelLock? || a.CancelWrite? then CancelStep(s, a)
    else if !WorkerAction(a) then OutsideStep(s, a)
    else if a.Open? || a.MarkStarted? || a.Spawn? || a.RecordProcess? || a.Register? then StartStep(s, a)
    else if a.Poll? || a.Confirm? || a.Watch? || a.CheckStop? || a.CheckIdle? then LoopStep(s, a)
    else FinishStep(s, a)
  }

  /** Where a sequence of steps leads; a step that is not possible yet changes nothing. */
  function Run(s: State, actions: seq<Action>): State {
    if actions == [] then s else Step(Run(s, actions[..|actions| - 1]), actions[|actions| - 1])
  }

  // ---- What every step keeps ----

  predicate BeforeStart(pc: Pc) {
    pc.Opening? || pc.Marking?
  }

  predicate Registered(pc: Pc) {
    pc.Polling? || pc.Confirming? || pc.Watching? || pc.StopCheck? || pc.IdleCheck?
    || pc.Killing? || pc.Raising? || pc.Taking?
  }

  predicate Starting(pc: Pc) {
    BeforeStart(pc) || pc.Spawning? || pc.Recording? || pc.Registering?
  }

  function Held(s: State): nat {
    (if s.worker.sender then 1 else 0) + (if (s.slot.Occupied? && s.slot.sender) then 1 else 0)
  }

  /** The completion sender is in one place, and only there until it was used. */
  ghost predicate SenderInv(s: State, channel: bool) {
    && s.sent + Held(s) == (if channel then 1 else 0)
    && (s.slot.Occupied? ==> Registered(s.worker.pc))
    && (s.worker.sender ==> Starting(s.worker.pc) || s.worker.pc.Applying? || s.worker.pc.Notifying?)
    && (s.emptiedAt.Emptied? ==> s.slot.Vacant? && !Starting(s.worker.pc))
    && (Registered(s.worker.pc) ==> s.slot.Occupied? || s.emptiedAt.Emptied?)
    && (!s.waiter.Waiting? ==> s.sent > 0)
  }

  /** Nothing that ends a job by itself was seen. */
  predicate NothingSeen(w: Worker) {
    !w.timedOut && !w.stopRequested && w.exit.NoExit? && !w.spawnFailed
  }

  predicate InLoop(pc: Pc) {
    pc.Polling? || pc.Watching? || pc.StopCheck? || pc.IdleCheck?
  }

  /** What the worker has seen so far. */
  ghost predicate WorkerInv(s: State) {
    var w := s.worker;
    && (Starting(w.pc) || InLoop(w.pc) ==> NothingSeen(w) && !s.waitFailed)
    && (w.pc.Confirming? ==> w.exit.Exit? && !w.timedOut && !w.stopRequested && !s.waitFailed)
    && (w.spawnFailed ==> w.pc.Applying? || w.pc.Notifying? || w.pc.Ended?)
    && (w.spawnFailed ==> !w.timedOut && !w.stopRequested && w.exit.NoExit? && s.emptiedAt.Untouched?)
    && (Starting(w.pc) || (Registered(w.pc) && !w.pc.Taking?) ==> !w.cancelFlag)
    && (w.pc.Taking? || w.pc.Applying? || w.pc.Notifying? ==> w.cancelFlag || w.spawnFailed)
    && (NothingSeen(w) && !Starting(w.pc) && !InLoop(w.pc) && !w.pc.Ended? ==> s.emptiedAt.Emptied? || s.waitFailed)
    && (s.emptiedAt.Emptied? && s.emptiedAt.at.Polling?
        ==> NothingSeen(w) && !s.waitFailed && !w.pc.Watching? && !w.pc.StopCheck? && !w.pc.IdleCheck?)
    && (s.waitFailed ==> !w.timedOut && !w.stopRequested && w.exit.NoExit? && !w.spawnFailed)
    && (w.stopRequested ==> s.stopMarker && !w.timedOut)
  }

  /** The child is gone by the time nobody is left to kill it, unless waiting for it failed. */
  ghost predicate ChildInv(s: State) {
    var w := s.worker;
    && (BeforeStart(w.pc) || w.pc.Spawning? || w.spawnFailed ==> s.child.NotSpawned?)
    && (w.pc.Recording? || w.pc.Registering? || Registered(w.pc) ==> !s.child.NotSpawned?)
    && (w.exit.Exit? ==> s.child == Exited(w.exit.success))
    && (s.emptiedAt.Emptied? ==> s.child.Exited?)
    && (s.child.Alive? && !Starting(w.pc) && !InLoop(w.pc)
        ==> s.waitFailed || (w.pc.Killing? && (w.timedOut || w.stopRequested)))
  }

  ghost predicate CancelsWritten(cancels: map<nat, Cancel>) {
    exists id :: id in cancels && cancels[id].Succeeded?
  }

  /** A cancel has used the completion sender but not yet written the row. */
  ghost predicate CancelPending(cancels: map<nat, Cancel>) {
    exists id :: id in cancels && cancels[id].Writing? && cancels[id].route.TookSlot?
  }

  /** The row. */
  ghost predicate StatusInv(s: State) {
    var w := s.worker;
    && (s.startFailed ==> w.pc.Ended?)
    && (BeforeStart(w.pc) ==> s.status.Queued? || s.status.Done?)
    && (s.status.Queued? ==> BeforeStart(w.pc) || s.startFailed)
    && (w.pc.Notifying? || (w.pc.Ended? && !s.startFailed) ==> s.status.Done?)
    && (CancelsWritten(s.cancels) ==> s.status.Done?)
    && (s.status.Done? ==>
          || (s.status.final == FinalOf(MANUAL_CANCELLED) && CancelsWritten(s.cancels))
          || ((w.pc.Notifying? || w.pc.Ended?) && s.status.final == FinalOf(WorkerSignal(w))))
    && (s.sent > 0 ==> s.status.Done? || s.startFailed || CancelPending(s.cancels))
    && (s.emptiedAt.Emptied? ==> CancelPending(s.cancels) || CancelsWritten(s.cancels))
    && (CancelPending(s.cancels) ==> s.emptiedAt.Emptied?)
    && (s.waiter.Read? ==> s.waiter.status.Done? || s.startFailed || s.emptiedAt.Emptied?)
  }

  ghost predicate Inv(s: State, channel: bool) {
    SenderInv(s, channel) && WorkerInv(s) && ChildInv(s) && StatusInv(s)
  }

  lemma InitInv(channel: bool)
    ensures Inv(Init(channel), channel)
  {
  }

  lemma CancelMoves(cancels: map<nat, Cancel>, id: nat, next: Cancel)
    requires id in cancels ==> cancels[id].Locking? || cancels[id].Writing?
    ensures var cancels' := cancels[id := next];
            && (CancelsWritten(cancels') <==> CancelsWritten(cancels) || (next.Succeeded?))
            && (CancelPending(cancels') ==> CancelPending(cancels) || (next.Writing? && next.route.TookSlot?))
            && (next.Writing? && next.route.TookSlot? ==> CancelPending(cancels'))
            && (CancelPending(cancels) && !(id in cancels && cancels[id].Writing?) ==> CancelPending(cancels'))
            && (id in cancels && cancels[id].Writing? && cancels[id].route.TookSlot? ==> CancelPending(cancels))
  {
    var cancels' := cancels[id := next];
    if next.Succeeded? {
      assert cancels'[id] == next;
    }
    if CancelsWritten(cancels) {
      var k :| k in cancels && cancels[k].Succeeded?;
      assert cancels'[k] == cancels[k];
    }
    if CancelPending(cancels) && !(id in cancels && cancels[id].Writing?) {
      var k :| k in cancels && cancels[k].Writing? && cancels[k].route.TookSlot?;
      assert cancels'[k] == cancels[k];
    }
    if next.Writing? && next.route.TookSlot? {
      assert cancels'[id] == next;
    }
  }

  lemma OpenKeepsInv(s: State, a: Action, channel: bool)
    requires Inv(s, channel) && a.Open?
    ensures Inv(StartStep(s, a), channel)
  {
    hide CancelsWritten, CancelPending, FinalOf;
    if s.worker.pc.Opening? {
      if a.ok {} else if s.worker.sender {}
    }
  }

  lemma MarkStartedKeepsInv(s: State, a: Action, channel: bool)
    requires Inv(s, channel) && a.MarkStarted?
    ensures Inv(StartStep(s, a), channel)
  {
    hide CancelsWritten, CancelPending, FinalOf;
    if s.worker.pc.Marking? {
      if a.ok && s.status.Queued? {} else if s.worker.sender {}
    }
  }

  lemma SpawnKeepsInv(s: State, a: Action, channel: bool)
    requires Inv(s, channel) && a.Spawn?
    ensures Inv(StartStep(s, a), channel)
  {
    hide CancelsWritten, CancelPending, FinalOf;
    if s.worker.pc.Spawning? {
      if a.ok {}
    }
  }

  lemma RecordProcessKeepsInv(s: State, a: Action, channel: bool)
    requires Inv(s, channel) && a.RecordProcess?
    ensures Inv(StartStep(s, a), channel)
  {
    hide CancelsWritten, CancelPending, FinalOf;
    if s.worker.pc.Recording? {
      
    }
  }

  lemma RegisterKeepsInv(s: State, a: Action, channel: bool)
    requires Inv(s, channel) && a.Register?
    ensures Inv(StartStep(s, a), channel)
  {
    hide CancelsWritten, CancelPending, FinalOf;
    if s.worker.pc.Registering? {
      if s.worker.sender {}
    }
  }

  lemma PollKeepsInv(s: State, a: Action, channel: bool)
    requires Inv(s, channel) && a.Poll?
    ensures Inv(LoopStep(s, a), channel)
  {
    hide CancelsWritten, CancelPending, FinalOf;
    if s.worker.pc.Polling? {
      if s.worker.cancelFlag || s.slot.Vacant? {} else if !a.waitOk {} else if s.child.Exited? {}
    }
  }

  lemma ConfirmKeepsInv(s: State, a: Action, channel: bool)
    requires Inv(s, channel) && a.Confirm?
    ensures Inv(LoopStep(s, a), channel)
  {
    hide CancelsWritten, CancelPending, FinalOf;
    if s.worker.pc.Confirming? {
      if s.worker.pc.left == 0 {} else if a.readOk && s.stopMarker {}
    }
  }

  lemma WatchKeepsInv(s: State, a: Action, channel: bool)
    requires Inv(s, channel) && a.Watch?
    ensures Inv(LoopStep(s, a), channel)
  {
    hide CancelsWritten, CancelPending, FinalOf;
    if s.worker.pc.Watching? {
      if a.changed && s.worker.observing {}
    }
  }

  lemma CheckStopKeepsInv(s: State, a: Action, channel: bool)
    requires Inv(s, channel) && a.CheckStop?
    ensures Inv(LoopStep(s, a), channel)
  {
    hide CancelsWritten, CancelPending, FinalOf;
    if s.worker.pc.StopCheck? {
      if a.look && s.stopMarker {}
    }
  }

  lemma CheckIdleKeepsInv(s: State, a: Action, channel: bool)
    requires Inv(s, channel) && a.CheckIdle?
    ensures Inv(LoopStep(s, a), channel)
  {
    hide CancelsWritten, CancelPending, FinalOf;
    if s.worker.pc.IdleCheck? {
      if a.idle.HardIdle? {} else if a.idle.SoftIdle? {}
    }
  }

  lemma KillChildKeepsInv(s: State, a: Action, channel: bool)
    requires Inv(s, channel) && a.KillChild?
    ensures Inv(FinishStep(s, a), channel)
  {
    hide CancelsWritten, CancelPending, FinalOf;
    if s.worker.pc.Killing? {
      if (s.worker.timedOut || s.worker.stopRequested || s.worker.cancelFlag) && s.slot.Occupied? {
        if s.child.Alive? {}
      }
    }
  }

  lemma RaiseFlagKeepsInv(s: State, a: Action, channel: bool)
    requires Inv(s, channel) && a.RaiseFlag?
    ensures Inv(FinishStep(s, a), channel)
  {
    hide CancelsWritten, CancelPending, FinalOf;
    if s.worker.pc.Raising? {
      
    }
  }

  lemma TakeSlotKeepsInv(s: State, a: Action, channel: bool)
    requires Inv(s, channel) && a.TakeSlot?
    ensures Inv(FinishStep(s, a), channel)
  {
    hide CancelsWritten, CancelPending, FinalOf;
    if s.worker.pc.Taking? {
      if s.slot.Occupied? && s.slot.sender {}
    }
  }

  lemma SignalIgnoresPc(w: Worker, pc: Pc)
    ensures WorkerSignal(w.(pc := pc)) == WorkerSignal(w)
  {
  }

  lemma AppliedKeepsInv(s: State, final: Final, channel: bool)
    requires Inv(s, channel) && s.worker.pc.Applying? && final == FinalOf(WorkerSignal(s.worker))
    ensures Inv(At(s, Notifying).(status := Finish(s.status, final), writer := FirstWriter(s, ByWorker)), channel)
  {
    SignalIgnoresPc(s.worker, Notifying);
    hide CancelsWritten, CancelPending, FinalOf, WorkerSignal;
    if s.status.Done? {}
  }

  lemma ApplySignalKeepsInv(s: State, a: Action, channel: bool)
    requires Inv(s, channel) && a.ApplySignal?
    ensures Inv(FinishStep(s, a), channel)
  {
    hide Inv;
    if s.worker.pc.Applying? {
      AppliedKeepsInv(s, FinalOf(WorkerSignal(s.worker)), channel);
    }
  }

  lemma NotifyKeepsInv(s: State, a: Action, channel: bool)
    requires Inv(s, channel) && a.Notify?
    ensures Inv(FinishStep(s, a), channel)
  {
    hide CancelsWritten, CancelPending, FinalOf;
    if s.worker.pc.Notifying? {
      if s.worker.sender {}
    }
  }

  lemma CancelReadKeepsInv(s: State, a: Action, channel: bool)
    requires Inv(s, channel) && a.CancelRead?
    ensures Inv(CancelStep(s, a), channel)
  {
    var next := CancelStep(s, a);
    if next.cancels != s.cancels {
      CancelMoves(s.cancels, a.id, next.cancels[a.id]);
    }
    hide CancelsWritten, CancelPending;
  }

  /** Under the lock, with the job in the slot. */
  lemma CancelTakesKeepsInv(s: State, id: nat, success: bool, channel: bool)
    requires Inv(s, channel) && id in s.cancels && s.cancels[id].Locking? && s.slot.Occupied?
    ensures Inv(CancelStep(s, CancelLock(id, success)), channel)
  {
    CancelMoves(s.cancels, id, Writing(TookSlot));
    hide CancelsWritten, CancelPending, FinalOf;
    if s.slot.sender {
      if s.child.Alive? {}
    } else if s.child.Alive? {}
  }

  lemma ChildDiesKeepsInv(s: State, success: bool, channel: bool)
    requires Inv(s, channel) && s.child.Alive?
    ensures Inv(s.(child := Exited(success)), channel)
  {
    hide CancelsWritten, CancelPending, FinalOf;
  }

  lemma CancelMovesOn(s: State, id: nat, route: Route, channel: bool)
    requires Inv(s, channel) && id in s.cancels && s.cancels[id].Locking? && !route.TookSlot?
    ensures Inv(s.(cancels := s.cancels[id := Writing(route)]), channel)
  {
    CancelMoves(s.cancels, id, Writing(route));
    hide CancelsWritten, CancelPending, FinalOf;
  }

  /** Under the lock, with the slot empty already. */
  lemma CancelMissesKeepsInv(s: State, id: nat, success: bool, channel: bool)
    requires Inv(s, channel) && id in s.cancels && s.cancels[id].Locking? && s.slot.Vacant?
    ensures Inv(CancelStep(s, CancelLock(id, success)), channel)
  {
    hide Inv;
    if s.cancels[id].pidKnown && s.child.Alive? {
      ChildDiesKeepsInv(s, success, channel);
      CancelMovesOn(s.(child := Exited(success)), id, KnownProcess, channel);
    } else {
      CancelMovesOn(s, id, if s.cancels[id].pidKnown then KnownProcess else NoProcess, channel);
    }
  }

  lemma CancelLockKeepsInv(s: State, a: Action, channel: bool)
    requires Inv(s, channel) && a.CancelLock?
    ensures Inv(CancelStep(s, a), channel)
  {
    if a.id in s.cancels && s.cancels[a.id].Locking? {
      if s.slot.Occupied? {
        hide *;
        CancelTakesKeepsInv(s, a.id, a.success, channel);
      } else {
        hide *;
        CancelMissesKeepsInv(s, a.id, a.success, channel);
      }
    }
  }

  lemma CancelWriteKeepsInv(s: State, a: Action, channel: bool)
    requires Inv(s, channel) && a.CancelWrite?
    ensures Inv(CancelStep(s, a), channel)
  {
    var next := CancelStep(s, a);
    if next.cancels != s.cancels {
      CancelMoves(s.cancels, a.id, next.cancels[a.id]);
    }
    hide CancelsWritten, CancelPending;
    if a.id in s.cancels && s.cancels[a.id].Writing? {
      if s.status.Done? {}
    }
  }

  lemma ChildExitsKeepsInv(s: State, a: Action, channel: bool)
    requires Inv(s, channel) && a.ChildExits?
    ensures Inv(OutsideStep(s, a), channel)
  {
    hide Inv;
    if s.child.Alive? {
      ChildDiesKeepsInv(s, a.success, channel);
    }
  }

  lemma RequestStopKeepsInv(s: State, a: Action, channel: bool)
    requires Inv(s, channel) && a.RequestStop?
    ensures Inv(OutsideStep(s, a), channel)
  {
    hide CancelsWritten, FinalOf;
  }

  lemma ReceiveKeepsInv(s: State, a: Action, channel: bool)
    requires Inv(s, channel) && a.Receive?
    ensures Inv(OutsideStep(s, a), channel)
  {
    hide CancelsWritten, FinalOf;
  }

  lemma ReadStatusKeepsInv(s: State, a: Action, channel: bool)
    requires Inv(s, channel) && a.ReadStatus?
    ensures Inv(OutsideStep(s, a), channel)
  {
    hide CancelsWritten, FinalOf;
  }

  lemma {:induction false} RunKeepsInv(actions: seq<Action>, channel: bool)
    ensures Inv(Run(Init(channel), actions), channel)
  {
    if actions == [] {
      InitInv(channel);
    } else {
      var front, a := actions[..|actions| - 1], actions[|actions| - 1];
      RunKeepsInv(front, channel);
      var s := Run(Init(channel), front);
      hide Inv, Step;
      InvStep(s, a, channel);
    }
  }

  lemma InvStep(s: State, a: Action, channel: bool)
    requires Inv(s, channel)
    ensures Inv(Step(s, a), channel)
  {
    hide Inv, StartStep, LoopStep, FinishStep, CancelStep, OutsideStep;
    match a {
      case Open(_) => OpenKeepsInv(s, a, channel);
      case MarkStarted(_) => MarkStartedKeepsInv(s, a, channel);
      case Spawn(_) => SpawnKeepsInv(s, a, channel);
      case RecordProcess => RecordProcessKeepsInv(s, a, channel);
      case Register => RegisterKeepsInv(s, a, channel);
      case Poll(_) => PollKeepsInv(s, a, channel);
      case Confirm(_) => ConfirmKeepsInv(s, a, channel);
      case Watch(_) => WatchKeepsInv(s, a, channel);
      case CheckStop(_) => CheckStopKeepsInv(s, a, channel);
      case CheckIdle(_) => CheckIdleKeepsInv(s, a, channel);
      case KillChild(_) => KillChildKeepsInv(s, a, channel);
      case RaiseFlag => RaiseFlagKeepsInv(s, a, channel);
      case TakeSlot => TakeSlotKeepsInv(s, a, channel);
      case ApplySignal => ApplySignalKeepsInv(s, a, channel);
      case Notify => NotifyKeepsInv(s, a, channel);
      case CancelRead(_) => CancelReadKeepsInv(s, a, channel);
      case CancelLock(_, _) => CancelLockKeepsInv(s, a, channel);
      case CancelWrite(_) => CancelWriteKeepsInv(s, a, channel);
      case ChildExits(_) => ChildExitsKeepsInv(s, a, channel);
      case RequestStop => RequestStopKeepsInv(s, a, channel);
      case Receive => ReceiveKeepsInv(s, a, channel);
      case ReadStatus => ReadStatusKeepsInv(s, a, channel);
    }
  }

  // ---- Every reachable state ----

  ghost predicate Reaches(channel: bool, s: State) {
    exists actions :: Run(Init(channel), actions) == s
  }

  lemma ReachableInv(s: State, channel: bool)
    requires Reaches(channel, s)
    ensures Inv(s, channel)
  {
    hide Inv, Run;
    var actions :| Run(Init(channel), actions) == s;
    RunKeepsInv(actions, channel);
  }

  /** The completion sender is never used twice; when the worker has ended, it was used exactly once
      and the slot is empty. */
  lemma CompletionSentOnce(s: State, channel: bool)
    requires Reaches(channel, s)
    ensures s.sent <= 1 && (s.sent == 1 ==> channel)
    ensures s.worker.pc.Ended? ==> s.slot.Vacant? && s.sent == (if channel then 1 else 0)
  {
    ReachableInv(s, channel);
    hide WorkerInv, ChildInv, StatusInv;
  }

  /** Once written, a terminal row is final. */
  lemma FirstFinalWins(s: State, a: Action)
    requires s.status.Done?
    ensures Step(s, a).status == s.status
  {
    hide FinalOf, WorkerSignal;
    match a {
      case ApplySignal => if s.worker.pc.Applying? {}
      case CancelWrite(id) => if id in s.cancels {}
      case _ =>
    }
  }

  lemma {:induction false} FinalForever(s: State, actions: seq<Action>)
    requires s.status.Done?
    ensures Run(s, actions).status == s.status
  {
    if actions != [] {
      FinalForever(s, actions[..|actions| - 1]);
      hide Step;
      FirstFinalWins(Run(s, actions[..|actions| - 1]), actions[|actions| - 1]);
    }
  }

  /** A waiting workflow step finds a terminal row, unless the job never started or a cancel emptied the slot
      and has not written yet. */
  lemma WaiterFindsFinalRow(s: State, channel: bool)
    requires Reaches(channel, s)
    ensures s.sent > 0 ==> s.status.Done? || s.startFailed || CancelPending(s.cancels)
    ensures s.waiter.Read? ==> s.waiter.status.Done? || s.startFailed || s.emptiedAt.Emptied?
  {
    ReachableInv(s, channel);
    hide SenderInv, WorkerInv, ChildInv;
  }

  /** The child outlives its worker only if waiting for it failed. */
  lemma ChildEndsWithWorker(s: State, channel: bool)
    requires Reaches(channel, s) && s.worker.pc.Ended? && s.child.Alive?
    ensures s.waitFailed
  {
    ReachableInv(s, channel);
    hide SenderInv, StatusInv;
  }

  // ---- A worker whose slot was emptied comes to its end ----

  /** How many worker steps are left at most. */
  function Rank(pc: Pc): nat {
    match pc
    case Opening => 30 case Marking => 29 case Spawning => 28 case Recording => 27 case Registering => 26
    case Watching => 20 case StopCheck => 19 case IdleCheck => 18 case Polling => 17
    case Confirming(left) => 6 + left
    case Killing => 5 case Raising => 4 case Taking => 3 case Applying => 2 case Notifying => 1 case Ended => 0
  }

  predicate WorkerEnabled(pc: Pc, a: Action) {
    match a
    case Open(_) => pc.Opening?
    case MarkStarted(_) => pc.Marking?
    case Spawn(_) => pc.Spawning?
    case RecordProcess => pc.Recording?
    case Register => pc.Registering?
    case Poll(_) => pc.Polling?
    case Confirm(_) => pc.Confirming?
    case Watch(_) => pc.Watching?
    case CheckStop(_) => pc.StopCheck?
    case CheckIdle(_) => pc.IdleCheck?
    case KillChild(_) => pc.Killing?
    case RaiseFlag => pc.Raising?
    case TakeSlot => pc.Taking?
    case ApplySignal => pc.Applying?
    case Notify => pc.Notifying?
    case _ => false
  }

  /** One step brings an emptied worker nearer to its end, or is not its own. */
  ghost predicate Nearer(s: State, a: Action, t: State) {
    && (if WorkerEnabled(s.worker.pc, a) then Rank(t.worker.pc) < Rank(s.worker.pc) else t.worker == s.worker)
    && t.emptiedAt.Emptied? && t.slot.Vacant?
  }

  lemma LoopNearer(s: State, a: Action)
    requires s.emptiedAt.Emptied? && s.slot.Vacant?
    requires a.Poll? || a.Confirm? || a.Watch? || a.CheckStop? || a.CheckIdle?
    ensures Nearer(s, a, LoopStep(s, a))
  {
    match a {
      case Poll(_) => if s.worker.pc.Polling? {}
      case Confirm(_) => if s.worker.pc.Confirming? { if s.worker.pc.left == 0 {} else if s.stopMarker {} }
      case Watch(changed) => if s.worker.pc.Watching? { if changed && s.worker.observing {} }
      case CheckStop(look) => if s.worker.pc.StopCheck? { if look && s.stopMarker {} }
      case CheckIdle(idle) => if s.worker.pc.IdleCheck? { if idle.HardIdle? {} }
    }
  }

  lemma FinishNearer(s: State, a: Action)
    requires s.emptiedAt.Emptied? && s.slot.Vacant?
    requires a.KillChild? || a.RaiseFlag? || a.TakeSlot? || a.ApplySignal? || a.Notify?
    ensures Nearer(s, a, FinishStep(s, a))
  {
    hide FinalOf, WorkerSignal;
    match a {
      case KillChild(_) => if s.worker.pc.Killing? {}
      case RaiseFlag => if s.worker.pc.Raising? {}
      case TakeSlot => if s.worker.pc.Taking? {}
      case ApplySignal => if s.worker.pc.Applying? {}
      case Notify => if s.worker.pc.Notifying? { if s.worker.sender {} }
    }
  }

  lemma OthersNearer(s: State, a: Action)
    requires s.emptiedAt.Emptied? && s.slot.Vacant? && !WorkerAction(a)
    ensures Nearer(s, a, Step(s, a))
  {
    hide FinalOf, Finish;
    match a {
      case CancelRead(id) => if id in s.cancels {}
      case CancelLock(id, _) => if id in s.cancels {}
      case CancelWrite(id) => if id in s.cancels {}
      case ChildExits(_) => if s.child.Alive? {}
      case RequestStop => if s.status.Running? {}
      case Receive => if s.waiter.Waiting? {}
      case ReadStatus => if s.waiter.Received? {}
    }
  }

  lemma StartNearer(s: State, a: Action)
    requires s.emptiedAt.Emptied? && s.slot.Vacant? && !Starting(s.worker.pc)
    requires a.Open? || a.MarkStarted? || a.Spawn? || a.RecordProcess? || a.Register?
    ensures Nearer(s, a, StartStep(s, a))
  {
    match a {
      case Open(_) =>
      case MarkStarted(_) =>
      case Spawn(_) =>
      case RecordProcess =>
      case Register =>
    }
  }

  /** Once its slot was emptied each step of the worker brings it nearer to the end;
      nobody else's step takes it back or fills the slot again. */
  lemma EmptiedWorkerEnds(s: State, a: Action, channel: bool)
    requires Reaches(channel, s) && s.emptiedAt.Emptied?
    ensures Nearer(s, a, Step(s, a))
  {
    ReachableInv(s, channel);
    hide WorkerInv, ChildInv, StatusInv, Nearer, StartStep, LoopStep, FinishStep, CancelStep, OutsideStep;
    if !WorkerAction(a) {
      OthersNearer(s, a);
    } else if a.Open? || a.MarkStarted? || a.Spawn? || a.RecordProcess? || a.Register? {
      StartNearer(s, a);
    } else if a.Poll? || a.Confirm? || a.Watch? || a.CheckStop? || a.CheckIdle? {
      LoopNearer(s, a);
    } else {
      FinishNearer(s, a);
    }
  }

  lemma WorkerCanMove(pc: Pc)
    requires !pc.Ended?
    ensures exists a :: WorkerEnabled(pc, a)
  {
    var a := match pc
      case Opening => Open(true) case Marking => MarkStarted(true) case Spawning => Spawn(true)
      case Recording => RecordProcess case Registering => Register case Polling => Poll(true)
      case Confirming(_) => Confirm(true) case Watching => Watch(true) case StopCheck => CheckStop(true)
      case IdleCheck => CheckIdle(Active) case Killing => KillChild(true) case Raising => RaiseFlag
      case Taking => TakeSlot case Applying => ApplySignal case Notifying => Notify case Ended => Notify;
    assert WorkerEnabled(pc, a);
  }
}
