/** What a cancel of a running job achieves, case by case
    (crates/bridge/src/jobs.rs, crates/bridge/src/completion.rs). */
module JobOutcomes {
  import opened JobExecutor

  // ---- Which cancels end the child ----

  predicate RouteOk(c: Cancel, pidRecorded: bool, child: Child) {
    && (c.Locking? && c.pidKnown ==> pidRecorded)
    && ((c.Writing? || c.Succeeded?) && (c.route.TookSlot? || c.route.KnownProcess?) ==> child.Exited?)
  }

  ghost predicate RouteInv(s: State) {
    && (s.pidRecorded ==> !s.child.NotSpawned?)
    && (Starting(s.worker.pc) && !s.worker.pc.Registering? ==> !s.pidRecorded)
    && forall id :: id in s.cancels ==> RouteOk(s.cancels[id], s.pidRecorded, s.child)
  }

  /** Who wrote the terminal row, and what it says. */
  ghost predicate WriterInv(s: State) {
    && (s.writer.Nobody? <==> !s.status.Done?)
    && (s.writer.ByCancel? ==> s.status.final == FinalOf(MANUAL_CANCELLED) && CancelsWritten(s.cancels))
    && (s.writer.ByWorker?
        ==> (s.worker.pc.Notifying? || s.worker.pc.Ended?) && s.status.final == FinalOf(WorkerSignal(s.worker))
            && (s.worker.cancelFlag || s.worker.spawnFailed)
            && (NothingSeen(s.worker) ==> s.waitFailed || s.emptiedAt.Emptied?))
  }

  predicate InPass(pc: Pc) {
    pc.Watching? || pc.StopCheck? || pc.IdleCheck?
  }

  predicate Closing(pc: Pc) {
    pc.Killing? || pc.Raising? || pc.Taking?
  }

  /** What the worker can have seen when a cancel emptied the slot while it was at `at`. */
  ghost predicate ZoneInv(s: State) {
    var w := s.worker;
    s.emptiedAt.Emptied? ==>
      var at := s.emptiedAt.at;
      && !w.spawnFailed && !s.startFailed
      && (w.pc.Taking? || w.pc.Applying? || w.pc.Notifying? || w.pc.Ended? ==> w.cancelFlag)
      && (at.Polling? || InPass(at) || at.Confirming? || Closing(at))
      && (at.Polling? ==> NothingSeen(w) && !s.waitFailed && !InPass(w.pc) && !w.pc.Confirming?)
      && (InPass(at) ==> w.exit.NoExit? && !s.waitFailed && !w.pc.Confirming?)
      && (at.Confirming? ==> w.exit.Exit? && !w.timedOut && !s.waitFailed && !InLoop(w.pc))
      && (Closing(at) ==> !InLoop(w.pc) && !w.pc.Confirming? && (s.waitFailed <==> NothingSeen(w)))
  }

  ghost predicate OutcomeInv(s: State) {
    RouteInv(s) && WriterInv(s) && ZoneInv(s)
  }

  /** A step that neither touches the cancels nor brings a child back keeps their routes. */
  lemma RouteCarries(s: State, t: State)
    requires RouteInv(s) && Untouching(s, t)
    ensures RouteInv(t)
  {
  }

  lemma StartKeepsRoute(s: State, a: Action, channel: bool)
    requires Inv(s, channel) && RouteInv(s)
             && (a.Open? || a.MarkStarted? || a.Spawn? || a.RecordProcess? || a.Register?)
    ensures RouteInv(StartStep(s, a))
  {
    hide SenderInv, StatusInv, CancelsWritten, CancelPending;
    match a {
      case Open(_) => if s.worker.pc.Opening? { if a.ok {} else if s.worker.sender {} }
      case MarkStarted(_) => if s.worker.pc.Marking? { if a.ok && s.status.Queued? {} else if s.worker.sender {} }
      case Spawn(_) => if s.worker.pc.Spawning? { if a.ok {} }
      case RecordProcess => if s.worker.pc.Recording? {}
      case Register => if s.worker.pc.Registering? {}
      case _ =>
    }
  }

  /** A step of the worker's loop or end leaves the cancels alone, and the child or kills it. */
  ghost predicate Untouching(s: State, t: State) {
    && t.cancels == s.cancels && t.pidRecorded == s.pidRecorded && !Starting(t.worker.pc)
    && (t.child == s.child || (s.child.Alive? && t.child.Exited?))
  }

  lemma MovedUntouching(s: State, pc: Pc)
    requires !Starting(pc)
    ensures Untouching(s, At(s, pc))
  {
  }

  lemma PollUntouching(s: State, a: Action)
    requires a.Poll? && s.worker.pc.Polling?
    ensures Untouching(s, LoopStep(s, a))
  {
    if s.worker.cancelFlag || s.slot.Vacant? {} else if !a.waitOk {} else if s.child.Exited? {}
  }

  lemma ConfirmUntouching(s: State, a: Action)
    requires a.Confirm? && s.worker.pc.Confirming?
    ensures Untouching(s, LoopStep(s, a))
  {
    var pc := s.worker.pc;
    if pc.left == 0 {
      assert LoopStep(s, a) == At(s, Killing);
      MovedUntouching(s, Killing);
    } else if a.readOk && s.stopMarker {
      assert LoopStep(s, a).worker.pc == Killing;
    } else {
      assert LoopStep(s, a) == At(s, Confirming(pc.left - 1));
      hide Untouching, LoopStep;
      MovedUntouching(s, Confirming(pc.left - 1));
    }
  }

  lemma WatchUntouching(s: State, a: Action)
    requires a.Watch? && s.worker.pc.Watching?
    ensures Untouching(s, LoopStep(s, a))
  {
    if a.changed && s.worker.observing {}
  }

  lemma CheckStopUntouching(s: State, a: Action)
    requires a.CheckStop? && s.worker.pc.StopCheck?
    ensures Untouching(s, LoopStep(s, a))
  {
    if a.look && s.stopMarker {}
  }

  lemma CheckIdleUntouching(s: State, a: Action)
    requires a.CheckIdle? && s.worker.pc.IdleCheck?
    ensures Untouching(s, LoopStep(s, a))
  {
    if a.idle.HardIdle? {} else if a.idle.SoftIdle? {}
  }

  lemma KillChildUntouching(s: State, a: Action)
    requires a.KillChild? && s.worker.pc.Killing?
    ensures Untouching(s, FinishStep(s, a))
  {
    if (s.worker.timedOut || s.worker.stopRequested || s.worker.cancelFlag) && s.slot.Occupied? {
      if s.child.Alive? {}
    }
  }

  lemma RaiseFlagUntouching(s: State, a: Action)
    requires a.RaiseFlag? && s.worker.pc.Raising?
    ensures Untouching(s, FinishStep(s, a))
  {
  }

  lemma TakeSlotUntouching(s: State, a: Action)
    requires a.TakeSlot? && s.worker.pc.Taking?
    ensures Untouching(s, FinishStep(s, a))
  {
  }

  lemma ApplySignalUntouching(s: State, a: Action)
    requires a.ApplySignal? && s.worker.pc.Applying?
    ensures Untouching(s, FinishStep(s, a))
  {
    hide FinalOf, WorkerSignal;
    if s.status.Done? {}
  }

  lemma NotifyUntouching(s: State, a: Action)
    requires a.Notify? && s.worker.pc.Notifying?
    ensures Untouching(s, FinishStep(s, a))
  {
    if s.worker.sender {}
  }

  lemma EnabledAt(pc: Pc, a: Action)
    requires WorkerEnabled(pc, a)
    ensures match a
            case Poll(_) => pc.Polling?
            case Confirm(_) => pc.Confirming?
            case Watch(_) => pc.Watching?
            case CheckStop(_) => pc.StopCheck?
            case CheckIdle(_) => pc.IdleCheck?
            case KillChild(_) => pc.Killing?
            case RaiseFlag => pc.Raising?
            case TakeSlot => pc.Taking?
            case ApplySignal => pc.Applying?
            case Notify => pc.Notifying?
            case _ => true
  {
  }

  lemma NotEnabled(s: State, a: Action)
    requires !WorkerEnabled(s.worker.pc, a)
    ensures a.Poll? || a.Confirm? || a.Watch? || a.CheckStop? || a.CheckIdle? ==> LoopStep(s, a) == s
    ensures a.KillChild? || a.RaiseFlag? || a.TakeSlot? || a.ApplySignal? || a.Notify? ==> FinishStep(s, a) == s
  {
  }

  lemma LoopKeepsRoute(s: State, a: Action)
    requires RouteInv(s) && (a.Poll? || a.Confirm? || a.Watch? || a.CheckStop? || a.CheckIdle?)
    ensures RouteInv(LoopStep(s, a))
  {
    hide *;
    if WorkerEnabled(s.worker.pc, a) {
      EnabledAt(s.worker.pc, a);
      match a {
        case Poll(_) => PollUntouching(s, a);
        case Confirm(_) => ConfirmUntouching(s, a);
        case Watch(_) => WatchUntouching(s, a);
        case CheckStop(_) => CheckStopUntouching(s, a);
        case CheckIdle(_) => CheckIdleUntouching(s, a);
      }
      RouteCarries(s, LoopStep(s, a));
    } else {
      NotEnabled(s, a);
    }
  }

  lemma FinishKeepsRoute(s: State, a: Action)
    requires RouteInv(s) && (a.KillChild? || a.RaiseFlag? || a.TakeSlot? || a.ApplySignal? || a.Notify?)
    ensures RouteInv(FinishStep(s, a))
  {
    hide *;
    if WorkerEnabled(s.worker.pc, a) {
      EnabledAt(s.worker.pc, a);
      match a {
        case KillChild(_) => KillChildUntouching(s, a);
        case RaiseFlag => RaiseFlagUntouching(s, a);
        case TakeSlot => TakeSlotUntouching(s, a);
        case ApplySignal => ApplySignalUntouching(s, a);
        case Notify => NotifyUntouching(s, a);
      }
      RouteCarries(s, FinishStep(s, a));
    } else {
      NotEnabled(s, a);
    }
  }

  lemma CancelKeepsRoute(s: State, a: Action, channel: bool)
    requires Inv(s, channel) && RouteInv(s) && (a.CancelRead? || a.CancelLock? || a.CancelWrite?)
    ensures RouteInv(CancelStep(s, a))
  {
    hide WorkerInv, StatusInv, CancelsWritten, CancelPending, FinalOf;
    match a {
      case CancelRead(_) => if a.id !in s.cancels {}
      case CancelLock(_, _) =>
        if a.id in s.cancels && s.cancels[a.id].Locking? {
          if s.slot.Occupied? {} else if s.cancels[a.id].pidKnown {}
        }
      case CancelWrite(_) => if a.id in s.cancels && s.cancels[a.id].Writing? { if s.status.Done? {} }
      case _ =>
    }
  }

  lemma OutsideKeepsRoute(s: State, a: Action, channel: bool)
    requires Inv(s, channel) && RouteInv(s) && (a.ChildExits? || a.RequestStop? || a.Receive? || a.ReadStatus?)
    ensures RouteInv(OutsideStep(s, a))
  {
    hide SenderInv, StatusInv, CancelsWritten, CancelPending;
    match a {
      case ChildExits(_) => if s.child.Alive? {}
      case RequestStop => 
      case Receive => 
      case ReadStatus => 
      case _ =>
    }
  }

  lemma StartKeepsWriter(s: State, a: Action, channel: bool)
    requires Inv(s, channel) && WriterInv(s)
             && (a.Open? || a.MarkStarted? || a.Spawn? || a.RecordProcess? || a.Register?)
    ensures WriterInv(StartStep(s, a))
  {
    hide SenderInv, ChildInv, FinalOf, WorkerSignal, CancelsWritten, CancelPending;
    match a {
      case Open(_) => if s.worker.pc.Opening? { if a.ok {} else if s.worker.sender {} }
      case MarkStarted(_) => if s.worker.pc.Marking? { if a.ok && s.status.Queued? {} else if s.worker.sender {} }
      case Spawn(_) => if s.worker.pc.Spawning? { if a.ok {} }
      case RecordProcess => if s.worker.pc.Recording? {}
      case Register => if s.worker.pc.Registering? {}
      case _ =>
    }
  }

  lemma LoopKeepsWriter(s: State, a: Action, channel: bool)
    requires Inv(s, channel) && WriterInv(s) && (a.Poll? || a.Confirm? || a.Watch? || a.CheckStop? || a.CheckIdle?)
    ensures WriterInv(LoopStep(s, a))
  {
    hide SenderInv, ChildInv, FinalOf, WorkerSignal, CancelsWritten, CancelPending;
    match a {
      case Poll(_) =>
        if s.worker.pc.Polling? {
          if s.worker.cancelFlag || s.slot.Vacant? {} else if !a.waitOk {} else if s.child.Exited? {}
        }
      case Confirm(_) => if s.worker.pc.Confirming? { if s.worker.pc.left == 0 {} else if a.readOk && s.stopMarker {} }
      case Watch(_) => if s.worker.pc.Watching? { if a.changed && s.worker.observing {} }
      case CheckStop(_) => if s.worker.pc.StopCheck? { if a.look && s.stopMarker {} }
      case CheckIdle(_) => if s.worker.pc.IdleCheck? { if a.idle.HardIdle? {} else if a.idle.SoftIdle? {} }
      case _ =>
    }
  }

  lemma FinishKeepsWriter(s: State, a: Action, channel: bool)
    requires Inv(s, channel) && WriterInv(s)
             && (a.KillChild? || a.RaiseFlag? || a.TakeSlot? || a.ApplySignal? || a.Notify?)
    ensures WriterInv(FinishStep(s, a))
  {
    hide SenderInv, ChildInv, FinalOf, WorkerSignal, CancelsWritten, CancelPending;
    match a {
      case KillChild(_) =>
        if s.worker.pc.Killing? {
          if (s.worker.timedOut || s.worker.stopRequested || s.worker.cancelFlag) && s.slot.Occupied? {
            if s.child.Alive? {}
          }
        }
      case RaiseFlag => if s.worker.pc.Raising? {}
      case TakeSlot => if s.worker.pc.Taking? {}
      case ApplySignal =>
        SignalIgnoresPc(s.worker, Notifying);
        if s.worker.pc.Applying? { if s.status.Done? {} }
      case Notify =>
        SignalIgnoresEnd(s.worker);
        if s.worker.pc.Notifying? { if s.worker.sender {} }
      case _ =>
    }
  }

  lemma SignalIgnoresEnd(w: Worker)
    ensures WorkerSignal(w.(pc := Ended, sender := false)) == WorkerSignal(w)
  {
  }

  lemma CancelKeepsWriter(s: State, a: Action, channel: bool)
    requires Inv(s, channel) && WriterInv(s) && (a.CancelRead? || a.CancelLock? || a.CancelWrite?)
    ensures WriterInv(CancelStep(s, a))
  {
    hide Inv, WriterInv;
    match a {
      case CancelRead(_) => ReadKeepsWriter(s, a);
      case CancelLock(_, _) => LockKeepsWriter(s, a);
      case CancelWrite(_) => WriteKeepsWriter(s, a);
    }
  }

  lemma ReadKeepsWriter(s: State, a: Action)
    requires WriterInv(s) && a.CancelRead?
    ensures WriterInv(CancelStep(s, a))
  {
    hide FinalOf, WorkerSignal, CancelsWritten;
    if a.id !in s.cancels {
      CancelMoves(s.cancels, a.id, CancelStep(s, a).cancels[a.id]);
    }
  }

  lemma LockKeepsWriter(s: State, a: Action)
    requires WriterInv(s) && a.CancelLock?
    ensures WriterInv(CancelStep(s, a))
  {
    hide FinalOf, WorkerSignal, CancelsWritten;
    if a.id in s.cancels && s.cancels[a.id].Locking? {
      CancelMoves(s.cancels, a.id, CancelStep(s, a).cancels[a.id]);
      if s.slot.Occupied? {}
    }
  }

  lemma WriteKeepsWriter(s: State, a: Action)
    requires WriterInv(s) && a.CancelWrite?
    ensures WriterInv(CancelStep(s, a))
  {
    hide FinalOf, WorkerSignal, CancelsWritten;
    if a.id in s.cancels && s.cancels[a.id].Writing? {
      CancelMoves(s.cancels, a.id, CancelStep(s, a).cancels[a.id]);
      if s.status.Done? {}
    }
  }

  lemma OutsideKeepsWriter(s: State, a: Action, channel: bool)
    requires Inv(s, channel) && WriterInv(s) && (a.ChildExits? || a.RequestStop? || a.Receive? || a.ReadStatus?)
    ensures WriterInv(OutsideStep(s, a))
  {
    hide SenderInv, ChildInv, FinalOf, WorkerSignal, CancelsWritten, CancelPending;
    match a {
      case ChildExits(_) => if s.child.Alive? {}
      case RequestStop => 
      case Receive => 
      case ReadStatus => 
      case _ =>
    }
  }

  lemma StartKeepsZone(s: State, a: Action, channel: bool)
    requires Inv(s, channel) && ZoneInv(s) && (a.Open? || a.MarkStarted? || a.Spawn? || a.RecordProcess? || a.Register?)
    ensures ZoneInv(StartStep(s, a))
  {
    hide ChildInv, StatusInv, CancelsWritten, CancelPending;
    match a {
      case Open(_) => if s.worker.pc.Opening? { if a.ok {} else if s.worker.sender {} }
      case MarkStarted(_) => if s.worker.pc.Marking? { if a.ok && s.status.Queued? {} else if s.worker.sender {} }
      case Spawn(_) => if s.worker.pc.Spawning? { if a.ok {} }
      case RecordProcess => if s.worker.pc.Recording? {}
      case Register => if s.worker.pc.Registering? {}
      case _ =>
    }
  }

  lemma LoopKeepsZone(s: State, a: Action, channel: bool)
    requires Inv(s, channel) && ZoneInv(s) && (a.Poll? || a.Confirm? || a.Watch? || a.CheckStop? || a.CheckIdle?)
    ensures ZoneInv(LoopStep(s, a))
  {
    hide ChildInv, StatusInv, CancelsWritten, CancelPending;
    match a {
      case Poll(_) =>
        if s.worker.pc.Polling? {
          if s.worker.cancelFlag || s.slot.Vacant? {} else if !a.waitOk {} else if s.child.Exited? {}
        }
      case Confirm(_) => if s.worker.pc.Confirming? { if s.worker.pc.left == 0 {} else if a.readOk && s.stopMarker {} }
      case Watch(_) => if s.worker.pc.Watching? { if a.changed && s.worker.observing {} }
      case CheckStop(_) => if s.worker.pc.StopCheck? { if a.look && s.stopMarker {} }
      case CheckIdle(_) => if s.worker.pc.IdleCheck? { if a.idle.HardIdle? {} else if a.idle.SoftIdle? {} }
      case _ =>
    }
  }

  lemma KillKeepsZone(s: State, a: Action, channel: bool)
    requires Inv(s, channel) && ZoneInv(s) && a.KillChild?
    ensures ZoneInv(FinishStep(s, a))
  {
    hide WorkerInv, ChildInv, StatusInv, CancelsWritten, CancelPending;
    if s.worker.pc.Killing? {
      if s.slot.Vacant? {}
    }
  }

  lemma FinishKeepsZone(s: State, a: Action, channel: bool)
    requires Inv(s, channel) && ZoneInv(s) && (a.RaiseFlag? || a.TakeSlot? || a.ApplySignal? || a.Notify?)
    ensures ZoneInv(FinishStep(s, a))
  {
    hide SenderInv, WorkerInv, ChildInv, StatusInv, CancelsWritten, CancelPending, FinalOf, WorkerSignal;
    match a {
      case RaiseFlag => if s.worker.pc.Raising? {}
      case TakeSlot => if s.worker.pc.Taking? {}
      case ApplySignal => if s.worker.pc.Applying? { if s.status.Done? {} }
      case Notify => if s.worker.pc.Notifying? { if s.worker.sender {} }
      case _ =>
    }
  }

  lemma CancelKeepsZone(s: State, a: Action, channel: bool)
    requires Inv(s, channel) && ZoneInv(s) && (a.CancelRead? || a.CancelLock? || a.CancelWrite?)
    ensures ZoneInv(CancelStep(s, a))
  {
    assert s.startFailed ==> s.worker.pc.Ended?;
    hide ChildInv, StatusInv, CancelsWritten, CancelPending;
    match a {
      case CancelRead(_) => if a.id !in s.cancels {}
      case CancelLock(_, _) =>
        if a.id in s.cancels && s.cancels[a.id].Locking? {
          if s.slot.Occupied? {} else if s.cancels[a.id].pidKnown {}
        }
      case CancelWrite(_) => if a.id in s.cancels && s.cancels[a.id].Writing? { if s.status.Done? {} }
      case _ =>
    }
  }

  lemma OutsideKeepsZone(s: State, a: Action, channel: bool)
    requires Inv(s, channel) && ZoneInv(s) && (a.ChildExits? || a.RequestStop? || a.Receive? || a.ReadStatus?)
    ensures ZoneInv(OutsideStep(s, a))
  {
    hide ChildInv, StatusInv, CancelsWritten, CancelPending;
    match a {
      case ChildExits(_) => if s.child.Alive? {}
      case RequestStop => 
      case Receive => 
      case ReadStatus => 
      case _ =>
    }
  }

  // ---- Every reachable state ----

  lemma OutcomeStep(s: State, a: Action, channel: bool)
    requires Inv(s, channel) && OutcomeInv(s)
    ensures OutcomeInv(Step(s, a))
  {
    hide Inv, RouteInv, WriterInv, ZoneInv, StartStep, LoopStep, FinishStep, CancelStep, OutsideStep;
    if a.CancelRead? || a.CancelLock? || a.CancelWrite? {
      CancelKeepsRoute(s, a, channel);
      CancelKeepsWriter(s, a, channel);
      CancelKeepsZone(s, a, channel);
    } else if !WorkerAction(a) {
      OutsideKeepsRoute(s, a, channel);
      OutsideKeepsWriter(s, a, channel);
      OutsideKeepsZone(s, a, channel);
    } else if a.Open? || a.MarkStarted? || a.Spawn? || a.RecordProcess? || a.Register? {
      StartKeepsRoute(s, a, channel);
      StartKeepsWriter(s, a, channel);
      StartKeepsZone(s, a, channel);
    } else if a.Poll? || a.Confirm? || a.Watch? || a.CheckStop? || a.CheckIdle? {
      LoopKeepsRoute(s, a);
      LoopKeepsWriter(s, a, channel);
      LoopKeepsZone(s, a, channel);
    } else {
      FinishKeepsRoute(s, a);
      FinishKeepsWriter(s, a, channel);
      if a.KillChild? {
        KillKeepsZone(s, a, channel);
      } else {
        FinishKeepsZone(s, a, channel);
      }
    }
  }

  lemma InitOutcome(channel: bool)
    ensures OutcomeInv(Init(channel))
  {
  }

  lemma {:induction false} RunKeepsOutcome(actions: seq<Action>, channel: bool)
    ensures OutcomeInv(Run(Init(channel), actions))
  {
    if actions == [] {
      InitOutcome(channel);
    } else {
      var front, a := actions[..|actions| - 1], actions[|actions| - 1];
      RunKeepsOutcome(front, channel);
      RunKeepsInv(front, channel);
      hide OutcomeInv, Inv, Step;
      OutcomeStep(Run(Init(channel), front), a, channel);
    }
  }

  lemma ReachableOutcome(s: State, channel: bool)
    requires Reaches(channel, s)
    ensures OutcomeInv(s)
  {
    hide OutcomeInv, Run;
    var actions :| Run(Init(channel), actions) == s;
    RunKeepsOutcome(actions, channel);
  }

  // ---- What the worker reports ----

  predicate PastLoop(pc: Pc) {
    Closing(pc) || pc.Applying? || pc.Notifying? || pc.Ended?
  }

  /** What the worker reports, or will report, once it is past its loop. */
  function Report(w: Worker): Signal {
    WorkerSignal(w.(cancelFlag := true))
  }

  /** A cancel that emptied the slot before a poll makes the worker report a cancellation. One that emptied it during
      the rest of a pass can be overtaken by that pass's stop check or idle check, never by an exit. One that emptied it
      after an exit was seen, or after the loop, never makes it report one, unless waiting for the child failed. */
  lemma EmptiedReports(s: State, channel: bool)
    requires Reaches(channel, s) && s.emptiedAt.Emptied? && PastLoop(s.worker.pc)
    ensures var at, w := s.emptiedAt.at, s.worker;
            && (at.Polling? || InPass(at) || at.Confirming? || Closing(at))
            && (at.Polling? ==> Report(w) == MANUAL_CANCELLED)
            && (InPass(at) ==> Report(w) == if w.timedOut then Signal(ScannerTimeout, TimedOut)
                                            else if w.stopRequested then Signal(StopHook, Completed)
                                            else MANUAL_CANCELLED)
            && (at.Confirming? ==> w.exit.Exit? && Report(w) == if w.stopRequested then Signal(StopHook, Completed)
                                                                else SignalFromExit(w.exit.success))
            && (Closing(at) ==> (Report(w) == MANUAL_CANCELLED <==> s.waitFailed))
  {
    ReachableOutcome(s, channel);
    hide RouteInv, WriterInv;
  }

  /** Without a cancel in the slot the worker reports a cancellation only when waiting for the child failed,
      and a kill without exit status never. */
  lemma UntouchedReports(s: State, channel: bool)
    requires Reaches(channel, s) && s.worker.pc.Applying?
    ensures s.emptiedAt.Untouched? ==> (WorkerSignal(s.worker) == MANUAL_CANCELLED <==> s.waitFailed)
    ensures WorkerSignal(s.worker) != SignalForKilled(false)
  {
    ReachableInv(s, channel);
    hide SenderInv, ChildInv, StatusInv;
  }

  /** The rest of a pass after the slot was emptied: the stop check makes the worker report a stop exactly when it looks
      and finds the marker, the idle check a timeout exactly when it finds the job idle for too long; both end the
      loop, and otherwise the next poll does. */
  lemma PassAfterEmptying(s: State, a: Action, channel: bool)
    requires Reaches(channel, s) && s.emptiedAt.Emptied? && InLoop(s.worker.pc) && WorkerEnabled(s.worker.pc, a)
    ensures var w, t := s.worker, Step(s, a).worker;
            && NothingSeen(w) && t.exit.NoExit?
            && (t.stopRequested <==> a == CheckStop(true) && s.stopMarker)
            && (t.timedOut <==> a == CheckIdle(HardIdle))
            && (t.pc.Killing? <==> t.stopRequested || t.timedOut || w.pc.Polling?)
  {
    PassFacts(s, channel);
    EnabledAt(s.worker.pc, a);
    hide Reaches, Inv;
    match a {
      case Poll(_) => EmptyPoll(s, a);
      case Watch(_) => QuietWatch(s, a);
      case CheckStop(_) => StopCheckSees(s, a);
      case CheckIdle(_) => IdleCheckSees(s, a);
      case _ =>
    }
  }

  lemma PassFacts(s: State, channel: bool)
    requires Reaches(channel, s) && s.emptiedAt.Emptied? && InLoop(s.worker.pc)
    ensures NothingSeen(s.worker) && s.slot.Vacant?
  {
    ReachableInv(s, channel);
    hide ChildInv, StatusInv;
  }

  lemma EmptyPoll(s: State, a: Action)
    requires a.Poll? && s.worker.pc.Polling? && s.slot.Vacant?
    ensures Step(s, a).worker == s.worker.(pc := Killing)
  {
  }

  lemma QuietWatch(s: State, a: Action)
    requires a.Watch? && s.worker.pc.Watching?
    ensures var t := Step(s, a).worker;
            && t.pc.StopCheck? && t.stopRequested == s.worker.stopRequested
            && t.timedOut == s.worker.timedOut && t.exit == s.worker.exit
  {
    assert Step(s, a).worker == s.worker.(pc := StopCheck, observing := s.worker.observing && !a.changed);
  }

  lemma StopCheckSees(s: State, a: Action)
    requires a.CheckStop? && s.worker.pc.StopCheck?
    ensures Step(s, a).worker == if a.look && s.stopMarker then s.worker.(pc := Killing, stopRequested := true)
                                 else s.worker.(pc := IdleCheck)
  {
    if a.look && s.stopMarker {}
  }

  lemma IdleCheckSees(s: State, a: Action)
    requires a.CheckIdle? && s.worker.pc.IdleCheck?
    ensures var t := Step(s, a).worker;
            && t.stopRequested == s.worker.stopRequested && t.exit == s.worker.exit
            && (if a.idle.HardIdle? then t.pc.Killing? && t.timedOut
                else t.pc.Polling? && t.timedOut == s.worker.timedOut)
  {
    if a.idle.HardIdle? {} else if a.idle.SoftIdle? {}
  }

  /** After the loop, with the slot emptied, nothing changes the report any more. */
  lemma ReportIsFixed(s: State, a: Action, channel: bool)
    requires Reaches(channel, s) && s.emptiedAt.Emptied? && PastLoop(s.worker.pc)
    ensures Report(Step(s, a).worker) == Report(s.worker) && PastLoop(Step(s, a).worker.pc)
  {
    EmptiedSlot(s, channel);
    hide Reaches, Inv;
    if WorkerEnabled(s.worker.pc, a) {
      EnabledAt(s.worker.pc, a);
      EndingKeepsSeen(s, a);
    } else {
      EmptiedWorkerEnds(s, a, channel);
    }
  }

  lemma EmptiedSlot(s: State, channel: bool)
    requires Reaches(channel, s) && s.emptiedAt.Emptied?
    ensures s.slot.Vacant?
  {
    ReachableInv(s, channel);
    hide WorkerInv, ChildInv, StatusInv;
  }

  /** Nothing but the place in the code, the flag and the sender differs. */
  ghost predicate SameSeen(w: Worker, t: Worker) {
    && PastLoop(t.pc) && t.spawnFailed == w.spawnFailed && t.timedOut == w.timedOut
    && t.stopRequested == w.stopRequested && t.exit == w.exit
  }

  lemma KillKeepsSeen(s: State, a: Action)
    requires a.KillChild? && s.worker.pc.Killing? && s.slot.Vacant?
    ensures SameSeen(s.worker, FinishStep(s, a).worker)
  {
    assert FinishStep(s, a) == At(s, Raising);
  }

  lemma ApplyKeepsSeen(s: State, a: Action)
    requires a.ApplySignal? && s.worker.pc.Applying?
    ensures SameSeen(s.worker, FinishStep(s, a).worker)
  {
    hide FinalOf, WorkerSignal, Finish, FirstWriter;
    assert FinishStep(s, a).worker == s.worker.(pc := Notifying);
  }

  lemma NotifyKeepsSeen(s: State, a: Action)
    requires a.Notify? && s.worker.pc.Notifying?
    ensures SameSeen(s.worker, FinishStep(s, a).worker)
  {
    if s.worker.sender {}
  }

  lemma RaiseOrTakeKeepsSeen(s: State, a: Action)
    requires (a.RaiseFlag? && s.worker.pc.Raising?) || (a.TakeSlot? && s.worker.pc.Taking?)
    ensures SameSeen(s.worker, FinishStep(s, a).worker)
  {
  }

  lemma EndingKeepsSeen(s: State, a: Action)
    requires WorkerEnabled(s.worker.pc, a) && PastLoop(s.worker.pc) && s.slot.Vacant?
    ensures SameSeen(s.worker, Step(s, a).worker)
  {
    EnabledAt(s.worker.pc, a);
    PastLoopSteps(s, a);
    hide *;
    match a {
      case KillChild(_) => KillKeepsSeen(s, a);
      case RaiseFlag => RaiseOrTakeKeepsSeen(s, a);
      case TakeSlot => RaiseOrTakeKeepsSeen(s, a);
      case ApplySignal => ApplyKeepsSeen(s, a);
      case Notify => NotifyKeepsSeen(s, a);
      case _ =>
    }
  }

  lemma PastLoopSteps(s: State, a: Action)
    requires WorkerEnabled(s.worker.pc, a) && PastLoop(s.worker.pc)
    ensures Step(s, a) == FinishStep(s, a)
    ensures a.KillChild? || a.RaiseFlag? || a.TakeSlot? || a.ApplySignal? || a.Notify?
  {
    hide FinishStep;
  }

  // ---- The row ----

  lemma OnlyCancellationCancels(w: Worker)
    ensures FinalOf(WorkerSignal(w)) == FinalOf(MANUAL_CANCELLED) <==> WorkerSignal(w) == MANUAL_CANCELLED
  {
  }

  /** A cancel that reports success leaves a terminal row. It is a cancellation exactly when a cancel wrote first or the
      worker reports a cancellation itself; otherwise the worker wrote first, and the row is its report. */
  lemma SuccessfulCancelRow(s: State, id: nat, channel: bool)
    requires Reaches(channel, s) && id in s.cancels && s.cancels[id].Succeeded?
    ensures s.status.Done? && !s.writer.Nobody?
    ensures s.status.final == FinalOf(MANUAL_CANCELLED)
            <==> s.writer.ByCancel? || WorkerSignal(s.worker) == MANUAL_CANCELLED
    ensures s.writer.ByWorker? ==> s.status.final == FinalOf(WorkerSignal(s.worker))
  {
    ReachableOutcome(s, channel);
    ReachableInv(s, channel);
    OnlyCancellationCancels(s.worker);
    hide SenderInv, WorkerInv, ChildInv, RouteInv, ZoneInv, FinalOf, WorkerSignal;
    assert CancelsWritten(s.cancels);
  }

  /** After a cancel that emptied the slot before a poll, the only row there can be is a cancellation. */
  lemma EmptiedBeforePollCancels(s: State, channel: bool)
    requires Reaches(channel, s) && s.emptiedAt == Emptied(Polling) && s.status.Done?
    ensures s.status.final == FinalOf(MANUAL_CANCELLED)
  {
    ReachableOutcome(s, channel);
    hide RouteInv;
  }

  /** Without any successful cancel the terminal row is the worker's report; after the worker it is there. */
  lemma FinalRow(s: State, channel: bool)
    requires Reaches(channel, s)
    ensures s.worker.pc.Ended? && !s.startFailed ==> s.status.Done?
    ensures s.status.Done? && !CancelsWritten(s.cancels)
            ==> s.writer.ByWorker? && s.status.final == FinalOf(WorkerSignal(s.worker))
  {
    ReachableInv(s, channel);
    ReachableOutcome(s, channel);
    hide SenderInv, WorkerInv, ChildInv, FinalOf, WorkerSignal, RouteInv, ZoneInv;
  }

  // ---- The child ----

  /** A cancel that reports success leaves a live child only if it read a queued row, or a running one that named no
      process yet and found the slot empty. */
  lemma SuccessfulCancelEndsChild(s: State, id: nat, channel: bool)
    requires Reaches(channel, s) && id in s.cancels && s.cancels[id].Succeeded? && s.child.Alive?
    ensures s.cancels[id].route.QueuedRow? || s.cancels[id].route.NoProcess?
  {
    ReachableOutcome(s, channel);
    hide WriterInv, ZoneInv;
    assert RouteOk(s.cancels[id], s.pidRecorded, s.child);
  }

  /** A job whose row is terminal before the worker has marked it started. */
  predicate ClosedBeforeStart(s: State) {
    s.status.Done? && s.child.NotSpawned? && s.slot.Vacant? && (BeforeStart(s.worker.pc) || s.worker.pc.Ended?)
  }

  lemma ClosedStaysClosed(s: State, a: Action)
    requires ClosedBeforeStart(s)
    ensures ClosedBeforeStart(Step(s, a))
  {
    hide FinalOf, WorkerSignal;
    match a {
      case Open(_) => if s.worker.pc.Opening? { if a.ok {} else if s.worker.sender {} }
      case MarkStarted(_) => if s.worker.pc.Marking? { if s.worker.sender {} }
      case CancelRead(id) => if id in s.cancels {}
      case CancelLock(id, _) => if id in s.cancels {}
      case CancelWrite(id) => if id in s.cancels {}
      case _ =>
    }
  }

  /** A row closed before the worker has marked the job started: the child is never spawned. */
  lemma {:induction false} ClosedBeforeStartNeverRuns(s: State, actions: seq<Action>)
    requires ClosedBeforeStart(s)
    ensures Run(s, actions).child.NotSpawned?
    ensures ClosedBeforeStart(Run(s, actions))
  {
    if actions != [] {
      ClosedBeforeStartNeverRuns(s, actions[..|actions| - 1]);
      hide Step, ClosedBeforeStart;
      ClosedStaysClosed(Run(s, actions[..|actions| - 1]), actions[|actions| - 1]);
    }
  }

  // ---- Runs that show the limits ----

  lemma Reach0(channel: bool) returns (s: State)
    ensures s == Init(channel) && Reaches(channel, s)
  {
    s := Init(channel);
    assert Run(s, []) == s;
  }

  lemma Then(channel: bool, s: State, a: Action) returns (t: State)
    requires Reaches(channel, s)
    ensures t == Step(s, a) && Reaches(channel, t)
  {
    t := Step(s, a);
    hide Step;
    var actions :| Run(Init(channel), actions) == s;
    assert (actions + [a])[..|actions|] == actions;
    assert Run(Init(channel), actions + [a]) == t;
  }

  /** The job is registered and runs. */
  lemma Started(channel: bool) returns (s: State)
    ensures Reaches(channel, s)
    ensures s == Init(channel).(status := Running, pidRecorded := true, child := Alive, slot := Occupied(channel),
                                worker := Init(channel).worker.(pc := Polling, sender := false))
  {
    hide Reaches;
    s := Reach0(channel);
    s := Then(channel, s, Open(true));
    s := Then(channel, s, MarkStarted(true));
    s := Then(channel, s, Spawn(true));
    s := Then(channel, s, RecordProcess);
    s := Then(channel, s, Register);
  }

  /** The workflow may read a row that still says running, after a cancel has woken it. */
  lemma WaiterMayReadRunning() returns (s: State)
    ensures Reaches(true, s) && s.waiter == Read(Running)
  {
    hide Reaches;
    s := Started(true);
    s := Then(true, s, CancelRead(0));
    s := Then(true, s, CancelLock(0, false));
    s := Then(true, s, Receive);
    s := Then(true, s, ReadStatus);
  }

  /** A cancel empties the slot between a poll and the stop check, with the stop marker set. */
  lemma EmptiedAfterPoll() returns (s: State)
    ensures Reaches(true, s)
    ensures s.emptiedAt.Emptied? && s.status == Running && 0 in s.cancels && s.cancels[0] == Writing(TookSlot)
    ensures s.worker == Init(true).worker.(pc := Watching, sender := false) && s.slot.Vacant? && s.stopMarker
  {
    hide Reaches;
    s := Started(true);
    s := Then(true, s, RequestStop);
    s := Then(true, s, CancelRead(0));
    s := Then(true, s, Poll(true));
    s := Then(true, s, CancelLock(0, false));
  }

  lemma StopSeenAfterCancel() returns (s: State)
    ensures Reaches(true, s)
    ensures s.emptiedAt.Emptied? && s.status == Running && 0 in s.cancels && s.cancels[0] == Writing(TookSlot)
    ensures s.worker == Init(true).worker.(pc := Taking, sender := false, stopRequested := true, cancelFlag := true)
            && s.slot.Vacant?
  {
    hide Reaches;
    s := EmptiedAfterPoll();
    s := Then(true, s, Watch(false));
    s := Then(true, s, CheckStop(true));
    s := Then(true, s, KillChild(false));
    s := Then(true, s, RaiseFlag);
  }

  /** Then the worker reports the stop hook, the row says succeeded, and the cancel reports success all the same. */
  lemma CancelMayLose() returns (s: State)
    ensures Reaches(true, s) && s.emptiedAt.Emptied? && s.worker.pc.Ended?
    ensures 0 in s.cancels && s.cancels[0] == Succeeded(TookSlot) && s.status == Done(Final(SucceededJob, "stop_hook"))
  {
    hide Reaches;
    s := StopSeenAfterCancel();
    s := Then(true, s, TakeSlot);
    s := Then(true, s, ApplySignal);
    s := Then(true, s, CancelWrite(0));
    s := Then(true, s, Notify);
  }

  /** First route: a cancel that read the row before the worker started the job marks it cancelled, and the
      child runs on. */
  lemma QueuedRowLeavesChild() returns (s: State)
    ensures Reaches(true, s) && 0 in s.cancels && s.cancels[0] == Succeeded(QueuedRow)
    ensures s.status == Done(FinalOf(MANUAL_CANCELLED)) && s.child.Alive? && s.worker.pc.Polling?
  {
    hide Reaches;
    s := StartedAfterRead();
    s := Then(true, s, CancelWrite(0));
  }

  lemma StartedAfterRead() returns (s: State)
    ensures Reaches(true, s) && 0 in s.cancels && s.cancels[0] == Writing(QueuedRow)
    ensures s.status == Running && s.child.Alive? && s.worker.pc.Polling?
  {
    hide Reaches;
    s := Reach0(true);
    s := Then(true, s, CancelRead(0));
    s := Then(true, s, Open(true));
    s := Then(true, s, MarkStarted(true));
    s := Then(true, s, Spawn(true));
    s := Then(true, s, RecordProcess);
    s := Then(true, s, Register);
  }

  /** Second route: a cancel that finds the row running, without a process, and the slot still empty marks the job
      cancelled before the child is even spawned, and the child runs on. */
  lemma NoProcessLeavesChild() returns (s: State)
    ensures Reaches(true, s) && 0 in s.cancels && s.cancels[0] == Succeeded(NoProcess)
    ensures s.status == Done(FinalOf(MANUAL_CANCELLED)) && s.child.Alive? && s.worker.pc.Polling?
  {
    hide Reaches;
    s := CancelledWhileSpawning();
    s := Then(true, s, Spawn(true));
    s := Then(true, s, RecordProcess);
    s := Then(true, s, Register);
  }

  lemma CancelledWhileSpawning() returns (s: State)
    ensures Reaches(true, s) && 0 in s.cancels && s.cancels[0] == Succeeded(NoProcess)
    ensures s.status == Done(FinalOf(MANUAL_CANCELLED)) && s.worker.pc.Spawning?
  {
    hide Reaches;
    s := Reach0(true);
    s := Then(true, s, Open(true));
    s := Then(true, s, MarkStarted(true));
    s := Then(true, s, CancelRead(0));
    s := Then(true, s, CancelLock(0, false));
    s := Then(true, s, CancelWrite(0));
  }
}
