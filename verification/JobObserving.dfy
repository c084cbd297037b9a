/** When the row of a job says that it is being observed, and what that means for a cancel
    (crates/bridge/src/jobs.rs). */
module JobObserving {
  import opened JobExecutor
  import opened JobRows
  import JobOutcomes

  /** The worker finds the job idle. */
  predicate FoundIdle(s: State, a: Action) {
    s.worker.pc.IdleCheck? && (a == CheckIdle(SoftIdle) || a == CheckIdle(HardIdle))
  }

  /** The worker finds that the job has printed something. */
  predicate FoundOutput(s: State, a: Action) {
    s.worker.pc.Watching? && a == Watch(true)
  }

  /** At some point of the run the job was found idle, and after that no output was found. */
  ghost predicate IdleSince(actions: seq<Action>, channel: bool) {
    exists i :: 0 <= i < |actions| && IdleAt(actions, channel, i)
  }

  ghost predicate IdleAt(actions: seq<Action>, channel: bool, i: nat)
    requires i < |actions|
  {
    && FoundIdle(Run(Init(channel), actions[..i]), actions[i])
    && forall j :: i < j < |actions| ==> !FoundOutput(Run(Init(channel), actions[..j]), actions[j])
  }

  lemma IdleSinceSnoc(actions: seq<Action>, a: Action, channel: bool)
    ensures var s := Run(Init(channel), actions);
            IdleSince(actions + [a], channel) <==>
            FoundIdle(s, a) || (IdleSince(actions, channel) && !FoundOutput(s, a))
  {
    hide FoundIdle, FoundOutput, Run;
    var all := actions + [a];
    assert all[..|actions|] == actions && all[|actions|] == a;
    assert forall i :: 0 <= i < |actions| ==> all[..i] == actions[..i] && all[i] == actions[i];
    if i :| IdleSince(all, channel) && 0 <= i < |all| && IdleAt(all, channel, i) {
      if i < |actions| {
        assert IdleAt(actions, channel, i);
      }
    }
    if FoundIdle(Run(Init(channel), actions), a) {
      assert IdleAt(all, channel, |actions|);
    }
    if i :| IdleSince(actions, channel) && !FoundOutput(Run(Init(channel), actions), a)
            && 0 <= i < |actions| && IdleAt(actions, channel, i)
    {
      assert IdleAt(all, channel, i);
    }
  }

  /** While the job is not over, its row says observing exactly when the worker takes it for idle. */
  predicate ShowsObserving(s: State) {
    (!s.status.Done? ==> (s.status.Observing? <==> s.worker.observing))
    && (s.worker.pc.Opening? || s.worker.pc.Marking? ==> !s.worker.observing)
  }

  /** The step does not touch what is shown, unless it ends the job. */
  predicate SameShown(s: State, t: State) {
    && t.worker.observing == s.worker.observing && (t.status == s.status || t.status.Done?)
    && (t.worker.pc.Opening? || t.worker.pc.Marking? ==> s.worker.pc.Opening? || s.worker.pc.Marking?)
  }

  lemma SameShows(s: State, t: State)
    requires SameShown(s, t) && ShowsObserving(s) && (s.status.Done? ==> t.status.Done?)
    ensures ShowsObserving(t)
  {
  }

  lemma Moved(s: State, pc: Pc)
    ensures var t := At(s, pc);
            t.status == s.status && t.worker.observing == s.worker.observing && t.worker.pc == pc
  {
  }

  lemma EndedEarly(s: State)
    ensures var t := EndEarly(s);
            t.status == s.status && t.worker.observing == s.worker.observing && t.worker.pc == Ended
  {
  }

  lemma OpenShows(s: State, a: Action)
    requires ShowsObserving(s) && (a.Open? || a.MarkStarted?)
    ensures ShowsObserving(StartStep(s, a)) && StartStep(s, a).worker.observing == s.worker.observing
  {
    EndedEarly(s);
    Moved(s, Marking);
    Moved(s, Spawning);
    hide EndEarly, At;
    if a.Open? && s.worker.pc.Opening? {
      if a.ok {}
    } else if a.MarkStarted? && s.worker.pc.Marking? {
      if !a.ok {} else if !s.status.Queued? {}
    }
  }

  lemma SpawnSame(s: State, a: Action)
    requires a.Spawn?
    ensures SameShown(s, StartStep(s, a)) && StartStep(s, a).status == s.status
  {
    Moved(s, Recording);
    hide At;
    if s.worker.pc.Spawning? {
      if a.ok {}
    }
  }

  lemma RecordSame(s: State, a: Action)
    requires a.RecordProcess? || a.Register?
    ensures SameShown(s, StartStep(s, a)) && StartStep(s, a).status == s.status
  {
    Moved(s, Registering);
    hide At;
    if a.RecordProcess? {
      if s.worker.pc.Recording? {}
    } else if s.worker.pc.Registering? {
      assert StartStep(s, a).worker == s.worker.(pc := Polling, sender := false);
    }
  }

  lemma QuietWatch(s: State, a: Action)
    requires a.Watch? && !(s.worker.pc.Watching? && a.changed && s.worker.observing)
    ensures LoopStep(s, a) == if s.worker.pc.Watching? then At(s, StopCheck) else s
  {
  }

  lemma OutputShape(s: State, a: Action)
    requires a.Watch? && s.worker.pc.Watching? && a.changed && s.worker.observing
    ensures LoopStep(s, a) == s.(worker := s.worker.(pc := StopCheck, observing := false),
                                 status := if s.status.Observing? then Running else s.status)
  {
  }

  lemma WatchShows(s: State, a: Action)
    requires ShowsObserving(s) && a.Watch?
    ensures ShowsObserving(LoopStep(s, a))
    ensures LoopStep(s, a).worker.observing <==> s.worker.observing && !FoundOutput(s, a)
  {
    hide LoopStep, At;
    if s.worker.pc.Watching? && a.changed && s.worker.observing {
      OutputShape(s, a);
    } else {
      QuietWatch(s, a);
      Moved(s, StopCheck);
    }
  }

  lemma CheckIdleShows(s: State, a: Action)
    requires ShowsObserving(s) && a.CheckIdle? && (s.worker.pc.IdleCheck? ==> !s.status.Queued?)
    ensures ShowsObserving(LoopStep(s, a))
    ensures LoopStep(s, a).worker.observing <==> s.worker.observing || FoundIdle(s, a)
  {
    if s.worker.pc.IdleCheck? {
      match a.idle
      case Active =>
      case SoftIdle =>
      case HardIdle =>
    }
  }

  lemma PollSame(s: State, a: Action)
    requires a.Poll?
    ensures SameShown(s, LoopStep(s, a)) && LoopStep(s, a).status == s.status
  {
    if s.worker.pc.Polling? {
      PollShape(s, a);
      Moved(s, Killing);
      Moved(s, Watching);
      hide LoopStep, At;
    }
  }

  lemma ConfirmSame(s: State, a: Action)
    requires a.Confirm?
    ensures SameShown(s, LoopStep(s, a)) && LoopStep(s, a).status == s.status
  {
    hide LoopStep, At;
    if s.worker.pc.Confirming? {
      ConfirmShape(s, a);
      Moved(s, Killing);
      if s.worker.pc.left > 0 {
        Moved(s, Confirming(s.worker.pc.left - 1));
      }
    } else {
      JobOutcomes.NotEnabled(s, a);
    }
  }

  lemma CheckStopSame(s: State, a: Action)
    requires a.CheckStop?
    ensures SameShown(s, LoopStep(s, a)) && LoopStep(s, a).status == s.status
  {
    Moved(s, IdleCheck);
    hide At;
    if s.worker.pc.StopCheck? {
      if a.look && s.stopMarker {}
    }
  }

  lemma KillSame(s: State, a: Action)
    requires a.KillChild?
    ensures SameShown(s, FinishStep(s, a)) && FinishStep(s, a).status == s.status
  {
    if s.worker.pc.Killing? {
      KillShape(s, a);
      Moved(s, Raising);
      hide FinishStep, At, Killed;
    }
  }

  lemma RaiseOrTakeSame(s: State, a: Action)
    requires a.RaiseFlag? || a.TakeSlot?
    ensures SameShown(s, FinishStep(s, a)) && FinishStep(s, a).status == s.status
  {
    if a.RaiseFlag? && s.worker.pc.Raising? {
    } else if a.TakeSlot? && s.worker.pc.Taking? {
    }
  }

  lemma ApplySame(s: State, a: Action)
    requires a.ApplySignal? || a.Notify?
    ensures SameShown(s, FinishStep(s, a)) && (s.status.Done? ==> FinishStep(s, a).status.Done?)
  {
    EndedEarly(s);
    Moved(s, Notifying);
    hide FinalOf, WorkerSignal, EndEarly, At, FirstWriter;
    if a.ApplySignal? && s.worker.pc.Applying? {
    } else if a.Notify? && s.worker.pc.Notifying? {
    }
  }

  lemma CancelSame(s: State, a: Action)
    requires a.CancelRead? || a.CancelLock? || a.CancelWrite?
    ensures SameShown(s, CancelStep(s, a)) && (s.status.Done? ==> CancelStep(s, a).status.Done?)
  {
    hide FinalOf, Killed, FirstWriter;
    match a {
      case CancelRead(_) =>
      case CancelLock(_, _) =>
      case CancelWrite(_) =>
    }
  }

  lemma OutsideSame(s: State, a: Action)
    requires a.ChildExits? || a.RequestStop? || a.Receive? || a.ReadStatus?
    ensures SameShown(s, OutsideStep(s, a)) && OutsideStep(s, a).status == s.status
  {
    match a {
      case ChildExits(_) =>
      case RequestStop =>
      case Receive =>
      case ReadStatus =>
    }
  }

  lemma StepShows(s: State, a: Action)
    requires ShowsObserving(s) && (s.worker.pc.IdleCheck? ==> !s.status.Queued?)
    ensures ShowsObserving(Step(s, a))
    ensures Step(s, a).worker.observing <==> FoundIdle(s, a) || (s.worker.observing && !FoundOutput(s, a))
  {
    hide StartStep, LoopStep, FinishStep, CancelStep, OutsideStep, ShowsObserving;
    var t := Step(s, a);
    if SameShown(s, t) && (s.status.Done? ==> t.status.Done?) {
      SameShows(s, t);
    }
    match a {
      case Open(_) => OpenShows(s, a);
      case MarkStarted(_) => OpenShows(s, a);
      case Spawn(_) => SpawnSame(s, a);
      case RecordProcess => RecordSame(s, a);
      case Register => RecordSame(s, a);
      case Poll(_) => PollSame(s, a);
      case Confirm(_) => ConfirmSame(s, a);
      case Watch(_) => WatchShows(s, a);
      case CheckStop(_) => CheckStopSame(s, a);
      case CheckIdle(_) => CheckIdleShows(s, a);
      case KillChild(_) => KillSame(s, a);
      case RaiseFlag => RaiseOrTakeSame(s, a);
      case TakeSlot => RaiseOrTakeSame(s, a);
      case ApplySignal => ApplySame(s, a);
      case Notify => ApplySame(s, a);
      case CancelRead(_) => CancelSame(s, a);
      case CancelLock(_, _) => CancelSame(s, a);
      case CancelWrite(_) => CancelSame(s, a);
      case ChildExits(_) => OutsideSame(s, a);
      case RequestStop => OutsideSame(s, a);
      case Receive => OutsideSame(s, a);
      case ReadStatus => OutsideSame(s, a);
    }
  }

  lemma NotQueuedInLoop(s: State, channel: bool)
    requires Inv(s, channel)
    ensures s.worker.pc.IdleCheck? ==> !s.status.Queued?
  {
    hide SenderInv, WorkerInv, ChildInv;
  }

  lemma NothingShown(channel: bool)
    ensures ShowsObserving(Init(channel)) && !Init(channel).worker.observing
    ensures Run(Init(channel), []) == Init(channel)
  {
  }

  /** Over a whole run: the row of a job that is not over says observing exactly when the job was found idle and has
      printed nothing since. */
  lemma {:induction false} ObservingExactly(actions: seq<Action>, channel: bool)
    ensures var s := Run(Init(channel), actions);
            && ShowsObserving(s) && (s.worker.observing <==> IdleSince(actions, channel))
            && (!s.status.Done? ==> (s.status == Observing <==> IdleSince(actions, channel)))
  {
    if actions == [] {
      NothingShown(channel);
    } else {
      var front, a := actions[..|actions| - 1], actions[|actions| - 1];
      ObservingExactly(front, channel);
      assert actions == front + [a];
      IdleSinceSnoc(front, a, channel);
      RunKeepsInv(front, channel);
      NotQueuedInLoop(Run(Init(channel), front), channel);
      hide Step, FoundIdle, FoundOutput, IdleSince, Inv;
      StepShows(Run(Init(channel), front), a);
    }
  }

  /** A cancel that reads the row then is refused exactly when the job is over or has been idle since; otherwise it goes
      for the row of a job that has not started, or for the slot of one that runs. */
  lemma CancelReads(actions: seq<Action>, channel: bool, id: nat)
    requires id !in Run(Init(channel), actions).cancels
    ensures var s := Run(Init(channel), actions);
            var t := Run(Init(channel), actions + [CancelRead(id)]);
            && t == s.(cancels := t.cancels) && t.cancels.Keys == s.cancels.Keys + {id}
            && (forall k :: k in s.cancels ==> t.cancels[k] == s.cancels[k])
            && t.cancels[id] == if s.status.Done? || IdleSince(actions, channel) then Refused
                                else if s.status == Queued then Writing(QueuedRow) else Locking(s.pidRecorded)
  {
    ObservingExactly(actions, channel);
    hide IdleSince;
    var s := Run(Init(channel), actions);
    assert (actions + [CancelRead(id)])[..|actions|] == actions;
    assert Run(Init(channel), actions + [CancelRead(id)]) == Step(s, CancelRead(id));
    hide Run;
  }
}
