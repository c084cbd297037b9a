/** What the terminal row of a job says, in terms of what happened to the job
    (crates/bridge/src/jobs.rs, crates/bridge/src/completion.rs). */
module JobRows {
  import opened JobExecutor
  import opened JobOutcomes

  // ---- What a row says ----

  /** The row in every reachable state in which there is one. A cancel's row is a cancellation. The worker's row says
      failed when the child was never spawned, a timeout when the job was idle for too long, the stop hook when the
      marker was seen, and otherwise how the child exited; it is a cancellation exactly when no exit was seen either,
      and then waiting for the child had failed or a cancel had emptied the slot. */
  lemma RowSays(s: State, channel: bool)
    requires Reaches(channel, s) && s.status.Done?
    ensures var w, row := s.worker, s.status.final;
            if !s.writer.ByWorker? then s.writer.ByCancel? && row == Final(CancelledJob, "cancelled")
            else if w.spawnFailed then s.child.NotSpawned? && row == Final(FailedJob, "process_exit_nonzero")
            else if w.timedOut then row == Final(FailedJob, "scanner_timeout")
            else if w.stopRequested then s.stopMarker && row == Final(SucceededJob, "stop_hook")
            else if w.exit.NoExit? then
              (s.waitFailed || s.emptiedAt.Emptied?) && row == Final(CancelledJob, "cancelled")
            else if s.child == Exited(true) then row == Final(SucceededJob, "process_exit")
            else s.child == Exited(false) && row == Final(FailedJob, "process_exit_nonzero")
  {
    RowFacts(s, channel);
    hide Inv, Reaches;
    if s.writer.ByWorker? {
      WorkersRow(s.worker);
    }
  }

  lemma RowFacts(s: State, channel: bool)
    requires Reaches(channel, s) && s.status.Done?
    ensures WriterInv(s)
    ensures var w := s.worker;
            && (w.spawnFailed ==> s.child.NotSpawned? && !w.timedOut && !w.stopRequested && w.exit.NoExit?)
            && (w.stopRequested ==> s.stopMarker)
            && (w.exit.Exit? ==> s.child == Exited(w.exit.success))
  {
    ReachableInv(s, channel);
    ReachableOutcome(s, channel);
    hide SenderInv, StatusInv, RouteInv, ZoneInv, WriterInv;
  }

  lemma WorkersRow(w: Worker)
    requires w.cancelFlag || w.spawnFailed
    ensures FinalOf(WorkerSignal(w))
            == if w.spawnFailed then Final(FailedJob, "process_exit_nonzero")
               else if w.timedOut then Final(FailedJob, "scanner_timeout")
               else if w.stopRequested then Final(SucceededJob, "stop_hook")
               else if w.exit == NoExit then Final(CancelledJob, "cancelled")
               else if w.exit == Exit(true) then Final(SucceededJob, "process_exit")
               else Final(FailedJob, "process_exit_nonzero")
  {
  }

  // ---- What the worker has seen did happen ----

  /** Each thing a job's row depends on changes by one kind of event only. */
  ghost predicate OnlyBy(s: State, a: Action, t: State) {
    && (t.worker.spawnFailed ==> s.worker.spawnFailed || (a.Spawn? && !a.ok))
    && (t.worker.timedOut ==> s.worker.timedOut || (a.CheckIdle? && a.idle.HardIdle?))
    && (t.worker.stopRequested ==> s.worker.stopRequested || (a.CheckStop? && a.look) || (a.Confirm? && a.readOk))
    && (t.stopMarker ==> s.stopMarker || (a.RequestStop? && IsUp(s.status)))
    && (t.waitFailed ==> s.waitFailed || (a.Poll? && !a.waitOk))
    && (t.child.Exited? ==> t.child == s.child || ExitsWith(a, t.child.success))
    && (s.child.Exited? ==> t.child == s.child)
  }

  /** The job runs, or is being observed. */
  predicate IsUp(status: Status) {
    status == Running || status == Observing
  }

  predicate ExitsWith(a: Action, success: bool) {
    (a.ChildExits? || a.KillChild? || a.CancelLock?) && a.success == success
  }

  /** None of them changes. */
  ghost predicate Same(s: State, t: State) {
    && t.worker.spawnFailed == s.worker.spawnFailed && t.worker.timedOut == s.worker.timedOut
    && t.worker.stopRequested == s.worker.stopRequested && t.stopMarker == s.stopMarker
    && t.waitFailed == s.waitFailed && t.child == s.child
  }

  lemma SameOnlyBy(s: State, a: Action, t: State)
    requires Same(s, t)
    ensures OnlyBy(s, a, t)
  {
  }

  lemma EndEarlySame(s: State)
    ensures Same(s, EndEarly(s))
  {
    if s.worker.sender {}
  }

  lemma OpenSame(s: State, a: Action)
    requires a.Open? && s.worker.pc.Opening?
    ensures Same(s, StartStep(s, a))
  {
    EndEarlySame(s);
    hide EndEarly;
    assert StartStep(s, a) == if a.ok then At(s, Marking) else EndEarly(s).(startFailed := true);
  }

  lemma MarkStartedSame(s: State, a: Action)
    requires a.MarkStarted? && s.worker.pc.Marking?
    ensures Same(s, StartStep(s, a))
  {
    EndEarlySame(s);
    hide EndEarly;
    assert StartStep(s, a) == if !a.ok then EndEarly(s).(startFailed := true)
                              else if !s.status.Queued? then EndEarly(s)
                              else At(s, Spawning).(status := Running);
  }

  lemma SpawnOnlyBy(s: State, a: Action)
    requires a.Spawn? && s.worker.pc.Spawning? && !s.child.Exited?
    ensures OnlyBy(s, a, StartStep(s, a))
  {
    if a.ok {
      assert StartStep(s, a) == At(s, Recording).(child := Alive);
    } else {
      assert StartStep(s, a) == s.(worker := s.worker.(pc := Applying, spawnFailed := true));
    }
  }

  lemma RecordProcessSame(s: State, a: Action)
    requires a.RecordProcess? && s.worker.pc.Recording?
    ensures Same(s, StartStep(s, a))
  {
  }

  lemma RegisterSame(s: State, a: Action)
    requires a.Register? && s.worker.pc.Registering?
    ensures Same(s, StartStep(s, a))
  {
  }

  lemma AtSame(s: State, pc: Pc)
    ensures Same(s, At(s, pc))
  {
  }

  lemma ExitSame(s: State, exit: ExitSeen)
    ensures Same(s, s.(worker := s.worker.(pc := Confirming(10), exit := exit)))
  {
  }

  lemma WaitFails(s: State, a: Action)
    requires a.Poll? && !a.waitOk
    ensures OnlyBy(s, a, At(s, Killing).(waitFailed := true))
  {
  }

  lemma StopSeen(s: State, a: Action)
    requires (a.CheckStop? && a.look) || (a.Confirm? && a.readOk)
    ensures OnlyBy(s, a, s.(worker := s.worker.(pc := Killing, stopRequested := true)))
  {
  }

  lemma PollShape(s: State, a: Action)
    requires a.Poll? && s.worker.pc.Polling?
    ensures LoopStep(s, a)
            == if s.worker.cancelFlag || s.slot.Vacant? then At(s, Killing)
               else if !a.waitOk then At(s, Killing).(waitFailed := true)
               else if s.child.Exited?
               then s.(worker := s.worker.(pc := Confirming(10), exit := Exit(s.child.success)))
               else At(s, Watching)
  {
  }

  lemma PollOnlyBy(s: State, a: Action)
    requires a.Poll? && s.worker.pc.Polling?
    ensures OnlyBy(s, a, LoopStep(s, a))
  {
    PollShape(s, a);
    var t := LoopStep(s, a);
    if Same(s, t) {
      SameOnlyBy(s, a, t);
    }
    hide LoopStep, At, Same, OnlyBy;
    if s.worker.cancelFlag || s.slot.Vacant? {
      AtSame(s, Killing);
    } else if !a.waitOk {
      WaitFails(s, a);
    } else if s.child.Exited? {
      ExitSame(s, Exit(s.child.success));
    } else {
      AtSame(s, Watching);
    }
  }

  lemma ConfirmShape(s: State, a: Action)
    requires a.Confirm? && s.worker.pc.Confirming?
    ensures LoopStep(s, a)
            == if s.worker.pc.left == 0 then At(s, Killing)
               else if a.readOk && s.stopMarker
               then s.(worker := s.worker.(pc := Killing, stopRequested := true))
               else At(s, Confirming(s.worker.pc.left - 1))
  {
  }

  lemma ConfirmOnlyBy(s: State, a: Action)
    requires a.Confirm? && s.worker.pc.Confirming?
    ensures OnlyBy(s, a, LoopStep(s, a))
  {
    ConfirmShape(s, a);
    var t := LoopStep(s, a);
    if Same(s, t) {
      SameOnlyBy(s, a, t);
    }
    hide LoopStep, At, Same, OnlyBy;
    if s.worker.pc.left == 0 {
      AtSame(s, Killing);
    } else if a.readOk && s.stopMarker {
      StopSeen(s, a);
    } else {
      AtSame(s, Confirming(s.worker.pc.left - 1));
    }
  }

  lemma WatchSame(s: State, a: Action)
    requires a.Watch? && s.worker.pc.Watching?
    ensures Same(s, LoopStep(s, a))
  {
    var t := LoopStep(s, a);
    assert t == s.(worker := s.worker.(pc := StopCheck, observing := t.worker.observing), status := t.status);
  }

  lemma CheckStopOnlyBy(s: State, a: Action)
    requires a.CheckStop? && s.worker.pc.StopCheck?
    ensures OnlyBy(s, a, LoopStep(s, a))
  {
    assert LoopStep(s, a) == if a.look && s.stopMarker
                             then s.(worker := s.worker.(pc := Killing, stopRequested := true))
                             else At(s, IdleCheck);
  }

  lemma CheckIdleOnlyBy(s: State, a: Action)
    requires a.CheckIdle? && s.worker.pc.IdleCheck?
    ensures OnlyBy(s, a, LoopStep(s, a))
  {
    if a.idle.HardIdle? {} else if a.idle.SoftIdle? {}
  }

  lemma KillShape(s: State, a: Action)
    requires a.KillChild? && s.worker.pc.Killing?
    ensures FinishStep(s, a)
            == if (s.worker.timedOut || s.worker.stopRequested || s.worker.cancelFlag) && s.slot.Occupied? then
                 var child := Killed(s.child, a.success);
                 var exit := if s.worker.exit.NoExit? && child.Exited? then Exit(child.success) else s.worker.exit;
                 s.(child := child, worker := s.worker.(pc := Raising, exit := exit))
               else At(s, Raising)
  {
  }

  lemma ChildKilled(s: State, a: Action, exit: ExitSeen)
    requires a.KillChild?
    ensures OnlyBy(s, a, s.(child := Killed(s.child, a.success), worker := s.worker.(pc := Raising, exit := exit)))
  {
    if s.child.Alive? {}
  }

  lemma KillChildOnlyBy(s: State, a: Action)
    requires a.KillChild? && s.worker.pc.Killing?
    ensures OnlyBy(s, a, FinishStep(s, a))
  {
    KillShape(s, a);
    var t := FinishStep(s, a);
    if Same(s, t) {
      SameOnlyBy(s, a, t);
    }
    hide FinishStep, At, Same, OnlyBy, Killed;
    if (s.worker.timedOut || s.worker.stopRequested || s.worker.cancelFlag) && s.slot.Occupied? {
      ChildKilled(s, a, t.worker.exit);
    } else {
      AtSame(s, Raising);
    }
  }

  lemma RaiseFlagSame(s: State, a: Action)
    requires a.RaiseFlag? && s.worker.pc.Raising?
    ensures Same(s, FinishStep(s, a))
  {
  }

  lemma TakeSlotSame(s: State, a: Action)
    requires a.TakeSlot? && s.worker.pc.Taking?
    ensures Same(s, FinishStep(s, a))
  {
  }

  lemma ApplySignalSame(s: State, a: Action)
    requires a.ApplySignal? && s.worker.pc.Applying?
    ensures Same(s, FinishStep(s, a))
  {
    hide FinalOf, WorkerSignal, Finish, FirstWriter;
    var t := FinishStep(s, a);
    assert t == At(s, Notifying).(status := t.status, writer := t.writer);
  }

  lemma NotifySame(s: State, a: Action)
    requires a.Notify? && s.worker.pc.Notifying?
    ensures Same(s, FinishStep(s, a))
  {
    EndEarlySame(s);
    hide EndEarly;
    assert FinishStep(s, a) == EndEarly(s);
  }

  lemma NotEnabled(s: State, a: Action)
    requires WorkerAction(a) && !WorkerEnabled(s.worker.pc, a)
    ensures Step(s, a) == s
  {
  }

  lemma OthersOnlyBy(s: State, a: Action)
    requires !WorkerAction(a)
    ensures OnlyBy(s, a, Step(s, a))
  {
    hide FinalOf, Finish;
    if a.CancelLock? {
      if s.slot.Occupied? { if s.slot.sender {} }
    }
  }

  lemma StepOnlyBy(s: State, a: Action, channel: bool)
    requires Inv(s, channel)
    ensures OnlyBy(s, a, Step(s, a))
  {
    assert s.worker.pc.Spawning? ==> s.child.NotSpawned?;
    hide Inv;
    if !WorkerAction(a) {
      OthersOnlyBy(s, a);
    } else if WorkerEnabled(s.worker.pc, a) {
      hide StartStep, LoopStep, FinishStep;
      WorkerOnlyBy(s, a);
    } else {
      NotEnabled(s, a);
      SameOnlyBy(s, a, s);
    }
  }

  lemma WorkerOnlyBy(s: State, a: Action)
    requires WorkerEnabled(s.worker.pc, a) && (s.worker.pc.Spawning? ==> s.child.NotSpawned?)
    ensures OnlyBy(s, a, Step(s, a))
  {
    hide StartStep, LoopStep, FinishStep, CancelStep, OutsideStep;
    var t := Step(s, a);
    if Same(s, t) {
      SameOnlyBy(s, a, t);
    }
    hide Same, OnlyBy;
    match a {
      case Open(_) => OpenSame(s, a);
      case MarkStarted(_) => MarkStartedSame(s, a);
      case Spawn(_) => SpawnOnlyBy(s, a);
      case RecordProcess => RecordProcessSame(s, a);
      case Register => RegisterSame(s, a);
      case Poll(_) => PollOnlyBy(s, a);
      case Confirm(_) => ConfirmOnlyBy(s, a);
      case Watch(_) => WatchSame(s, a);
      case CheckStop(_) => CheckStopOnlyBy(s, a);
      case CheckIdle(_) => CheckIdleOnlyBy(s, a);
      case KillChild(_) => KillChildOnlyBy(s, a);
      case RaiseFlag => RaiseFlagSame(s, a);
      case TakeSlot => TakeSlotSame(s, a);
      case ApplySignal => ApplySignalSame(s, a);
      case Notify => NotifySame(s, a);
    }
  }

  ghost predicate SomeExit(actions: seq<Action>, success: bool) {
    exists a :: a in actions && ExitsWith(a, success)
  }

  /** A stop was asked for while the job was up. */
  ghost predicate StopAsked(actions: seq<Action>, channel: bool) {
    exists i :: 0 <= i < |actions| && StopAskedAt(actions, channel, i)
  }

  ghost predicate StopAskedAt(actions: seq<Action>, channel: bool, i: nat)
    requires i < |actions|
  {
    actions[i] == RequestStop && IsUp(Run(Init(channel), actions[..i]).status)
  }

  lemma StopAskedSnoc(actions: seq<Action>, a: Action, channel: bool)
    ensures StopAsked(actions, channel) || (a.RequestStop? && IsUp(Run(Init(channel), actions).status)) ==>
              StopAsked(actions + [a], channel)
  {
    hide Run, IsUp;
    var all := actions + [a];
    assert all[..|actions|] == actions && all[|actions|] == a;
    assert forall i :: 0 <= i < |actions| ==> all[..i] == actions[..i] && all[i] == actions[i];
    if i :| StopAsked(actions, channel) && 0 <= i < |actions| && StopAskedAt(actions, channel, i) {
      assert StopAskedAt(all, channel, i);
    }
    if a.RequestStop? && IsUp(Run(Init(channel), actions).status) {
      assert StopAskedAt(all, channel, |actions|);
    }
  }

  /** Over a whole run: nothing is reported that did not happen. */
  lemma {:induction false} ReportedHappened(actions: seq<Action>, channel: bool)
    ensures var s := Run(Init(channel), actions);
            && (s.worker.spawnFailed ==> Spawn(false) in actions)
            && (s.worker.timedOut ==> CheckIdle(HardIdle) in actions)
            && (s.worker.stopRequested ==> CheckStop(true) in actions || Confirm(true) in actions)
            && (s.stopMarker ==> RequestStop in actions && StopAsked(actions, channel))
            && (s.waitFailed ==> Poll(false) in actions)
            && (s.child.Exited? ==> SomeExit(actions, s.child.success))
  {
    if actions != [] {
      var front, a := actions[..|actions| - 1], actions[|actions| - 1];
      ReportedHappened(front, channel);
      RunKeepsInv(front, channel);
      StepOnlyBy(Run(Init(channel), front), a, channel);
      assert actions == front + [a];
      StopAskedSnoc(front, a, channel);
      hide Step, Inv, ExitsWith, StopAsked, IsUp;
    }
  }

  // ---- Each kind of row ----

  /** After an exit was seen there are ten looks at the stop marker; without it the worker goes on to its end. */
  lemma {:induction false} NoMarker(channel: bool, s: State) returns (t: State)
    requires Reaches(channel, s) && s.worker.pc.Confirming? && !s.stopMarker
    ensures Reaches(channel, t) && t == s.(worker := s.worker.(pc := Killing))
    decreases s.worker.pc.left
  {
    t := Then(channel, s, Confirm(true));
    hide Reaches, Step;
    if s.worker.pc.left > 0 {
      ConfirmFinds(s);
      t := NoMarker(channel, t);
    } else {
      ConfirmFinds(s);
    }
  }

  lemma ConfirmFinds(s: State)
    requires s.worker.pc.Confirming? && !s.stopMarker
    ensures Step(s, Confirm(true))
            == At(s, if s.worker.pc.left == 0 then Killing else Confirming(s.worker.pc.left - 1))
  {
  }

  lemma Closed(channel: bool, s: State) returns (t: State)
    requires Reaches(channel, s) && s.worker.pc.Killing? && s.child.Exited? && s.slot == Occupied(channel)
    ensures Reaches(channel, t) && t.worker.pc.Applying? && t.child == s.child && t.status == s.status
    ensures t.worker.timedOut == s.worker.timedOut && t.worker.stopRequested == s.worker.stopRequested
    ensures t.worker.spawnFailed == s.worker.spawnFailed
    ensures s.worker.exit.Exit? ==> t.worker.exit == s.worker.exit
  {
    hide Reaches;
    t := Then(channel, s, KillChild(true));
    KillsNobody(s);
    hide Step;
    var u := Then(channel, t, RaiseFlag);
    RaisesAndTakes(t);
    t := Then(channel, u, TakeSlot);
  }

  lemma KillIsFinish(s: State)
    ensures Step(s, KillChild(true)) == FinishStep(s, KillChild(true))
  {
    hide FinishStep;
  }

  lemma KillsExited(s: State)
    requires s.worker.pc.Killing? && s.child.Exited?
    ensures FinishStep(s, KillChild(true))
            == if (s.worker.timedOut || s.worker.stopRequested || s.worker.cancelFlag) && s.slot.Occupied? then
                 s.(worker := s.worker.(pc := Raising, exit := if s.worker.exit.NoExit? then Exit(s.child.success)
                                                               else s.worker.exit))
               else s.(worker := s.worker.(pc := Raising))
  {
    KillShape(s, KillChild(true));
    hide FinishStep;
    assert Killed(s.child, true) == s.child;
    assert s.(child := s.child) == s;
  }

  lemma KillsNobody(s: State)
    requires s.worker.pc.Killing? && s.child.Exited?
    ensures var t := Step(s, KillChild(true));
            && t == s.(worker := s.worker.(pc := Raising, exit := t.worker.exit))
            && (s.worker.exit.Exit? ==> t.worker.exit == s.worker.exit)
  {
    hide *;
    KillIsFinish(s);
    KillsExited(s);
  }

  lemma RaisesAndTakes(s: State)
    requires s.worker.pc.Raising?
    ensures var t := Step(s, RaiseFlag);
            var u := Step(t, TakeSlot);
            u == s.(slot := Vacant, worker := s.worker.(pc := Applying, cancelFlag := true, sender := u.worker.sender))
  {
    assert Step(s, RaiseFlag) == s.(worker := s.worker.(pc := Taking, cancelFlag := true));
  }

  lemma Applied(channel: bool, s: State) returns (t: State)
    requires Reaches(channel, s) && s.worker.pc.Applying? && !s.status.Done?
    ensures Reaches(channel, t) && t.worker.pc.Ended? && t.writer.ByWorker? && t.status.Done? && t.child == s.child
    ensures t.worker.timedOut == s.worker.timedOut && t.worker.stopRequested == s.worker.stopRequested
    ensures t.worker.exit == s.worker.exit && t.worker.spawnFailed == s.worker.spawnFailed
  {
    hide Reaches, FinalOf, WorkerSignal;
    t := Then(channel, s, ApplySignal);
    t := Then(channel, t, Notify);
  }

  /** A job nobody interferes with ends with the row of its exit. */
  lemma LeftAlone(channel: bool, success: bool) returns (t: State)
    ensures Reaches(channel, t) && t.worker.pc.Ended?
    ensures t.status == Done(if success then Final(SucceededJob, "process_exit")
                             else Final(FailedJob, "process_exit_nonzero"))
  {
    var s := ExitSeenAt(channel, success);
    s := NoMarker(channel, s);
    s := Closed(channel, s);
    t := Applied(channel, s);
    hide Reaches;
    RowSays(t, channel);
  }

  lemma ExitSeenAt(channel: bool, success: bool) returns (s: State)
    ensures Reaches(channel, s) && s.worker.pc == Confirming(10) && s.child == Exited(success)
    ensures s.slot == Occupied(channel) && s.status == Running && !s.stopMarker
    ensures s.worker == Init(channel).worker.(pc := Confirming(10), sender := false, exit := Exit(success))
  {
    hide Reaches;
    s := Started(channel);
    s := Then(channel, s, ChildExits(success));
    s := Then(channel, s, Poll(true));
  }

  lemma {:induction false} Waits(channel: bool, s: State, n: nat) returns (t: State)
    requires Reaches(channel, s) && s.worker.pc.Confirming? && !s.stopMarker && n <= s.worker.pc.left
    ensures Reaches(channel, t) && t == s.(worker := s.worker.(pc := Confirming(s.worker.pc.left - n)))
    decreases n
  {
    t := s;
    if n > 0 {
      t := Then(channel, s, Confirm(true));
      ConfirmFinds(s);
      hide Reaches, Step;
      t := Waits(channel, t, n - 1);
    }
  }

  /** If the stop marker is set while fewer than ten looks have been taken after the exit, the row says stop hook,
      however the child exited. */
  lemma StopAfterExit(channel: bool, success: bool, n: nat) returns (t: State)
    requires n < 10
    ensures Reaches(channel, t) && t.worker.pc.Ended? && t.child == Exited(success)
    ensures t.status == Done(Final(SucceededJob, "stop_hook"))
  {
    var s := ExitSeenAt(channel, success);
    s := Waits(channel, s, n);
    s := MarkerSeen(channel, s);
    s := Closed(channel, s);
    t := Applied(channel, s);
    hide Reaches;
    RowSays(t, channel);
  }

  lemma MarkerSeen(channel: bool, s: State) returns (t: State)
    requires Reaches(channel, s) && s.worker.pc.Confirming? && s.worker.pc.left > 0 && s.status == Running
    ensures Reaches(channel, t)
    ensures t == s.(stopMarker := true, worker := s.worker.(pc := Killing, stopRequested := true))
  {
    hide Reaches;
    t := Then(channel, s, RequestStop);
    t := Then(channel, t, Confirm(true));
  }
}
