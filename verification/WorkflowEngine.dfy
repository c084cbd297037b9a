/** The workflow tables, the runner and its execution loop
    (crates/bridge/src/workflows.rs, crates/core/src/store/workflows.rs).

    Everything outside the engine is arbitrary: each job ends with any status, reason and log, a
    submission may fail before or after its job row exists, a checked database call may fail, and
    another thread may set the cancel flag between any two steps. */
module WorkflowEngine {
  import opened Common
  import opened WorkflowRows
  import opened WorkflowTrace
  import opened WorkflowInvariant

  datatype RunError = WasCancelled | DbError | JobFailed(reason: string)
  datatype Outcome = Completed | Stopped(error: RunError)
  datatype Submission = Accepted(job: nat) | Rejected(reason: string)

  class WorkflowStore {
    var steps: seq<Step>
    var attempts: map<AttemptKey, Attempt>
    var jobs: map<nat, Job>
    var nextJob: nat
    var status: WorkflowStatus
    var manual: bool

    /** Job ids are handed out in order, so the next one is fresh. */
    ghost predicate JobsNumbered()
      reads this`jobs, this`nextJob
    {
      forall k :: k in jobs ==> k < nextJob
    }

    ghost predicate Valid()
      reads this
    {
      TablesOk(steps, attempts, jobs) && JobsNumbered()
    }

    /** `update_workflow_step_status` */
    method UpdateStepStatus(i: nat, to: StepStatus)
      requires i < |steps|
      modifies this`steps
      ensures var from := old(steps[i].status);
              steps == old(steps)[i := old(steps[i]).(status := if CanMove(from, to) then to else from)]
    {
      if CanMove(steps[i].status, to) {
        steps := steps[i := steps[i].(status := to)];
      }
    }

    method SetFailureClass(i: nat, cause: FailureClass)
      requires i < |steps|
      modifies this`steps
      ensures steps == old(steps)[i := old(steps[i]).(failureClass := Some(cause))]
    {
      steps := steps[i := steps[i].(failureClass := Some(cause))];
    }

    /** `begin_workflow_step_attempt`: records the attempt unless its number is taken, then marks the step running. */
    method BeginAttempt(i: nat, s: Step) returns (key: AttemptKey)
      requires i < |steps|
      modifies this`steps, this`attempts
      ensures key == AttemptKey(i, Max(s.attempt, 1))
      ensures attempts == if key in old(attempts) then old(attempts)
              else old(attempts)[key := Attempt(Running, None, None)]
      ensures steps == old(steps)[i := if old(steps[i].status) in {Pending, Failed}
                                       then old(steps[i]).(status := Running, failureClass := None) else old(steps[i])]
    {
      key := AttemptKey(i, Max(s.attempt, 1));
      if key !in attempts {
        attempts := attempts[key := Attempt(Running, None, None)];
      }
      if steps[i].status in {Pending, Failed} {
        steps := steps[i := steps[i].(status := Running, failureClass := None)];
      }
    }

    /** `set_workflow_step_current_job` */
    method SetCurrentJob(i: nat, key: AttemptKey, job: nat)
      requires i < |steps| && key in attempts
      modifies this`steps, this`attempts
      ensures steps == old(steps)[i := old(steps[i]).(jobId := Some(job))]
      ensures attempts == old(attempts)[key := old(attempts[key]).(jobId := Some(job))]
    {
      steps := steps[i := steps[i].(jobId := Some(job))];
      attempts := attempts[key := attempts[key].(jobId := Some(job))];
    }

    /** `finish_workflow_step_attempt` */
    method FinishAttempt(key: AttemptKey, status: StepStatus, cause: Option<FailureClass>)
      requires key in attempts
      modifies this`attempts
      ensures attempts == old(attempts)[key := old(attempts[key]).(status := status, failureClass := cause)]
    {
      attempts := attempts[key := attempts[key].(status := status, failureClass := cause)];
    }

    method PrepareRetry(i: nat) returns (ok: bool)
      requires i < |steps|
      modifies this`steps
      ensures ok == RetryRow(old(steps[i])).Some?
      ensures steps == if ok then old(steps)[i := RetryRow(old(steps[i])).value] else old(steps)
    {
      var row := RetryRow(steps[i]);
      ok := row.Some?;
      if ok {
        steps := steps[i := row.value];
      }
    }

    method PrepareFallback(i: nat, provider: string) returns (ok: bool)
      requires i < |steps|
      modifies this`steps
      ensures ok == FallbackRow(old(steps[i]), provider).Some?
      ensures steps == if ok then old(steps)[i := FallbackRow(old(steps[i]), provider).value] else old(steps)
    {
      var row := FallbackRow(steps[i], provider);
      ok := row.Some?;
      if ok {
        steps := steps[i := row.value];
      }
    }

    method PrepareForRun(i: nat)
      requires i < |steps|
      modifies this`steps
      ensures steps == old(steps)[i := PreparedRow(old(steps[i]), exists k :: k in attempts && k.step == i)]
    {
      var hasAttempts := exists k :: k in attempts && k.step == i;
      steps := steps[i := PreparedRow(steps[i], hasAttempts)];
    }

    /** `cancel_job`: only a job that is still active changes, and its log stays. */
    method CancelJob(job: nat)
      modifies this`jobs
      ensures jobs.Keys == old(jobs.Keys)
      ensures forall k :: k in jobs ==>
                jobs[k] == if k == job && old(jobs)[k].status in {"queued", "running", "observing"}
                           then old(jobs)[k].(status := "cancelled") else old(jobs)[k]
    {
      if job in jobs && jobs[job].status in {"queued", "running", "observing"} {
        jobs := jobs[job := jobs[job].(status := "cancelled")];
      }
    }

    /** `cancel_workflow_steps` */
    method CancelSteps()
      modifies this`steps
      ensures |steps| == |old(steps)|
      ensures forall i :: 0 <= i < |steps| ==>
                steps[i] == if old(steps)[i].status in {Pending, Running} then old(steps)[i].(status := Cancelled)
                            else old(steps)[i]
    {
      var i := 0;
      while i < |steps|
        invariant 0 <= i <= |steps| == |old(steps)|
        invariant forall j :: 0 <= j < i ==>
                    steps[j] == if old(steps)[j].status in {Pending, Running} then old(steps)[j].(status := Cancelled)
                                else old(steps)[j]
        invariant forall j :: i <= j < |steps| ==> steps[j] == old(steps)[j]
      {
        if steps[i].status in {Pending, Running} {
          steps := steps[i := steps[i].(status := Cancelled)];
        }
        i := i + 1;
      }
    }
  }

  class WorkflowRunner {
    const store: WorkflowStore
    const startable: set<string>
    /** Whether database calls may fail, and whether other threads may set the cancel flag. */
    const dbMayFail: bool
    const mayBeCancelled: bool
    var running: bool
    var cancelFlag: bool
    ghost var trace: Trace
    /** The runs there have been, as each ended. */
    ghost var past: seq<Run>

    ghost function Now(init: seq<Step>): Run
      reads this, store
    {
      Run(init, trace, store.steps, store.attempts, store.jobs, cancelFlag, store.manual)
    }

    constructor (store: WorkflowStore, startable: set<string>, dbMayFail: bool, mayBeCancelled: bool)
      ensures this.store == store && this.startable == startable && !running && !cancelFlag && past == []
      ensures this.dbMayFail == dbMayFail && this.mayBeCancelled == mayBeCancelled
    {
      this.store, this.startable := store, startable;
      this.dbMayFail, this.mayBeCancelled := dbMayFail, mayBeCancelled;
      running, cancelFlag, trace, past := false, false, [], [];
    }

    /** A database call, and whether it fails. */
    method CallFails() returns (fails: bool)
      ensures fails ==> dbMayFail
    {
      fails := *;
      fails := fails && dbMayFail;
    }

    /** Another thread may set the cancel flag here. */
    method Interfere(ghost init: seq<Step>, ghost i: nat, ghost used: nat, ghost ctx: Context)
      requires InStep(Now(init), i, used, ctx)
      modifies this`cancelFlag, this`trace
      ensures InStep(Now(init), i, used, ctx)
      ensures SucceededBefore(old(trace), |old(trace)|, i) ==> SucceededBefore(trace, |trace|, i)
      ensures !cancelFlag ==> !CancelSeen(trace)
      ensures !CancelSeen(old(trace)) ==> SubmitsAfterCancel(trace) == 0
      ensures old(cancelFlag) ==> cancelFlag
      ensures !mayBeCancelled ==> cancelFlag == old(cancelFlag)
    {
      var byOther: bool := *;
      if byOther && mayBeCancelled && !cancelFlag {
        InStepEvent(Now(init), i, used, ctx, CancelSet, true);
        AppendSucceeded(trace, CancelSet, |trace|, i);
        AppendCounts(trace, CancelSet);
        cancelFlag := true;
        trace := trace + [CancelSet];
      }
    }

    /** Why a run stops at a step: a database call failed; the flag was seen or the job cancelled; or the step failed
        with nothing left to try. */
    ghost predicate Explained(error: RunError, s: Step)
      reads this`cancelFlag
    {
      match error
      case DbError => dbMayFail
      case WasCancelled => cancelFlag || s.status == StepStatus.Cancelled
      case JobFailed(_) => GaveUp(s, startable)
    }

    ghost predicate HasReason(error: RunError, steps: seq<Step>)
      reads this`cancelFlag
    {
      (error == DbError && dbMayFail) || (error == WasCancelled && cancelFlag)
      || exists i :: 0 <= i < |steps| && Explained(error, steps[i])
    }

    /** What the run reports of a failed submission. */
    ghost function WhyFailed(submission: Submission): string
      reads store`jobs
    {
      match submission
      case Rejected(reason) => reason
      case Accepted(job) => if job in store.jobs then store.jobs[job].failureReason.GetOr("") else ""
    }

    /** The submission failed, and its failure class. */
    ghost predicate IsCause(submission: Submission, cause: FailureClass)
      reads store`jobs
    {
      match submission
      case Accepted(job) =>
        && job in store.jobs && store.jobs[job].status !in {"succeeded", "cancelled"}
        && cause == ClassifyFailure(store.jobs[job].status, store.jobs[job].failureReason)
      case Rejected(_) => cause == SubmitFailed
    }

    /** The row of the attempt says that it failed, with its job and its class. */
    ghost predicate FailedAs(submission: Submission, key: AttemptKey)
      reads store`jobs, store`attempts
    {
      && key in store.attempts && store.attempts[key].failureClass.Some?
      && IsCause(submission, store.attempts[key].failureClass.value)
      && store.attempts[key] == Attempt(Failed, if submission.Accepted? then Some(submission.job) else None,
                                        store.attempts[key].failureClass)
    }

    /** Records the attempt and marks the step running. Its number was never used before. */
    method BeginAttempt(i: nat, current: Step, ghost init: seq<Step>, ghost ctx: Context) returns (key: AttemptKey)
      requires InStep(Now(init), i, 0, ctx)
      requires i < |store.steps| && store.steps[i] == current && current.status == Pending
      requires !CancelSeen(trace)
      modifies this`trace, store`steps, store`attempts
      ensures InStep(Now(init), i, 0, ctx) && !CancelSeen(trace)
      ensures i < |store.steps| && store.steps[i] == current.(status := Running, failureClass := None)
      ensures current.jobId.Some? ==> current.jobId.value in store.jobs
      ensures key == AttemptKey(i, current.attempt) && key !in old(store.attempts)
      ensures store.attempts == old(store.attempts)[key := Attempt(Running, None, None)]
    {
      BeginAction(Now(init), i, ctx);
      AppendCounts(trace, Begin(i, current.attempt));
      key := store.BeginAttempt(i, current);
      trace := trace + [Begin(i, current.attempt)];
    }

    method RecordAttempt(i: nat, key: AttemptKey, status: StepStatus, cause: Option<FailureClass>,
                         ghost init: seq<Step>, ghost ctx: Context)
      requires InStep(Now(init), i, 1, ctx)
      requires key.step == i && key in store.attempts
      modifies store`attempts
      ensures InStep(Now(init), i, 1, ctx)
      ensures store.attempts
              == old(store.attempts)[key := old(store.attempts[key]).(status := status, failureClass := cause)]
    {
      AttemptAction(Now(init), i, 1, ctx, key, store.attempts[key].(status := status, failureClass := cause));
      store.FinishAttempt(key, status, cause);
    }

    method RecordStep(i: nat, number: int, status: StepStatus, ghost init: seq<Step>, ghost ctx: Context)
      requires InStep(Now(init), i, 1, ctx) && i < |store.steps|
      requires store.steps[i].status == Running && status in {Succeeded, StepStatus.Cancelled, Failed}
      modifies this`trace, store`steps
      ensures InStep(Now(init), i, 1, ctx)
      ensures store.steps == old(store.steps)[i := old(store.steps[i]).(status := status)]
      ensures status == Succeeded ==> SucceededBefore(trace, |trace|, i)
    {
      hide InStep;
      FinishAction(Now(init), i, 1, ctx, number, status);
      store.UpdateStepStatus(i, status);
      trace := trace + [Finish(i, number, status)];
    }

    method RecordFailureClass(i: nat, cause: FailureClass, ghost init: seq<Step>, ghost ctx: Context)
      requires InStep(Now(init), i, 1, ctx) && i < |store.steps| && store.steps[i].status != Pending
      modifies store`steps
      ensures InStep(Now(init), i, 1, ctx)
      ensures store.steps == old(store.steps)[i := old(store.steps[i]).(failureClass := Some(cause))]
    {
      InStepRowNow(init, i, 1, ctx, store.steps[i].(failureClass := Some(cause)));
      store.SetFailureClass(i, cause);
    }

    lemma InStepRowNow(init: seq<Step>, i: nat, used: nat, ctx: Context, s: Step)
      requires InStep(Now(init), i, used, ctx)
      requires s == store.steps[i].(status := s.status, failureClass := s.failureClass)
      requires s.status != Pending
      ensures InStep(Now(init).(steps := store.steps[i := s]), i, used, ctx)
    {
      assert TablesOk(store.steps, store.attempts, store.jobs);
      InStepRow(Now(init), i, used, ctx, s);
    }

    /** The job's row and the attempt's row name each other. */
    method BindJob(i: nat, key: AttemptKey, job: nat, ghost init: seq<Step>, ghost ctx: Context)
      requires InStep(Now(init), i, 1, ctx)
      requires key.step == i && key in store.attempts && job in store.jobs && i < |store.steps|
               && store.steps[i].status != Pending
      modifies store`steps, store`attempts
      ensures InStep(Now(init), i, 1, ctx)
      ensures store.steps == old(store.steps)[i := old(store.steps[i]).(jobId := Some(job))]
      ensures store.attempts == old(store.attempts)[key := old(store.attempts[key]).(jobId := Some(job))]
    {
      BindAction(Now(init), i, ctx, key, job);
      store.SetCurrentJob(i, key, job);
    }

    /** A failed attempt is requeued for the same provider, or once for the fallback provider. The statement that
        requeues it may fail, and so may reading the row again. */
    method Requeue(i: nat, current: Step, cause: FailureClass, mayFallBack: bool, ghost init: seq<Step>,
                   ghost ctx: Context)
      returns (requeued: bool, failed: bool)
      requires InStep(Now(init), i, 1, ctx) && i < |store.steps|
      requires store.steps[i].status == Failed
      requires current == store.steps[i].(status := current.status, jobId := current.jobId,
                                          failureClass := current.failureClass)
      modifies this`trace, store`steps
      ensures InStep(Now(init), i, if requeued then 0 else 1, ctx) && i < |store.steps|
      requires mayFallBack || cause == SubmitFailed
      ensures requeued || failed <==> GoesOn(current, cause, startable)
      ensures !(requeued && failed) && (failed ==> dbMayFail)
      ensures requeued ==> Requeued(current, store.steps[i])
      ensures !requeued && !failed ==> store.steps == old(store.steps) && trace == old(trace)
    {
      hide InStep;
      requeued, failed := false, false;
      if ShouldRetry(current, cause) {
        failed := CallFails();
        if failed {
          return;
        }
        RetryAction(Now(init), i, ctx);
        requeued := store.PrepareRetry(i);
      } else if mayFallBack && ShouldFallback(current, cause, startable) {
        failed := CallFails();
        if failed {
          return;
        }
        ghost var e := FellBack(i, current.provider, current.fallback.value);
        InStepFallback(Now(init), i, ctx, current.fallback.value, e);
        requeued := store.PrepareFallback(i, current.fallback.value);
        trace := trace + [e];
      } else {
        return;
      }
      failed := CallFails();
      if failed {
        Weaken(Now(init), i, ctx);
        requeued := false;
      }
    }

    /** `submit_workflow_step`: hands the prompt to the job runner and waits for the job to end. */
    method SubmitStep(i: nat, number: int, prompt: string, ghost init: seq<Step>, ghost ctx: Context)
      returns (r: Submission)
      requires store.JobsNumbered() && InStep(Now(init), i, 0, ctx)
      requires i < |store.steps| && store.steps[i].status == Running && SubmitsAfterCancel(trace) == 0
      requires store.steps[i].jobId.Some? ==> store.steps[i].jobId.value in store.jobs
      requires prompt == PromptOf(store.steps[i], ctx).prompt
      modifies this`trace, store`jobs, store`steps, store`nextJob
      ensures store.JobsNumbered() && InStep(Now(init), i, 1, ctx)
      ensures trace == old(trace) + [Submit(i, number, prompt)]
      ensures |store.steps| == |old(store.steps)|
      ensures store.steps == old(store.steps)[i := old(store.steps[i]).(jobId := store.steps[i].jobId)]
      ensures r.Accepted? ==> r.job == old(store.nextJob) && r.job in store.jobs
      ensures KeepsJobs(old(store.jobs), store.jobs) && store.jobs.Keys <= old(store.jobs.Keys) + {old(store.nextJob)}
    {
      hide InStep;
      ghost var r0 := Now(init);
      trace := trace + [Submit(i, number, prompt)];
      var refused: bool := *;
      if refused {
        SubmitAction(r0, i, ctx, number, r0.jobs, r0.steps[i].jobId);
        assert r0.steps[i := r0.steps[i]] == r0.steps;
        return Rejected("build command");
      }
      var id := store.nextJob;
      var job: Job := *;
      store.jobs := store.jobs[id := job];
      store.nextJob := id + 1;
      var bound := if store.steps[i].jobId.None? then Some(id) else store.steps[i].jobId;
      SubmitAction(r0, i, ctx, number, store.jobs, bound);
      store.steps := store.steps[i := store.steps[i].(jobId := bound)];
      var lost: bool := *;
      r := if lost then Rejected("completion channel closed") else Accepted(id);
    }

    /** One attempt: the prompt, the submission and what follows from how the job ended. */
    method TryOnce(i: nat, ctx: Context, current: Step, ghost init: seq<Step>)
      returns (requeued: bool, done: bool, error: RunError)
      requires store.JobsNumbered() && InStep(Now(init), i, 0, ctx)
      requires i < |store.steps| && current == store.steps[i] && current.status == Pending
      modifies this`cancelFlag, this`trace, store`steps, store`attempts, store`jobs, store`nextJob
      ensures store.JobsNumbered() && InStep(Now(init), i, if requeued then 0 else 1, ctx) && i < |store.steps|
      ensures KeepsRows(old(store.attempts), store.attempts) && KeepsJobs(old(store.jobs), store.jobs)
      ensures done ==> !requeued && Answered(Now(init), i)
      ensures requeued ==> Requeued(current, store.steps[i])
      ensures !done && !requeued ==> Explained(error, store.steps[i])
      ensures old(cancelFlag) ==> !done && !requeued && error == WasCancelled
    {
      hide InStep, PromptFor, GaveUp, GoesOn, LastAttemptSucceeded, Requeued, IsCause, SucceededBefore, FailedAs;
      requeued, done, error := false, false, DbError;
      Interfere(init, i, 0, ctx);
      if cancelFlag {
        Weaken(Now(init), i, ctx);
        CancelStep(i, 1, init, ctx);
        error := WasCancelled;
        return;
      }
      var prompt := PromptOf(current, ctx).prompt;
      var dbFails := CallFails();
      if dbFails {
        Weaken(Now(init), i, ctx);
        return;
      }
      var key := BeginAttempt(i, current, init, ctx);
      assert KeepsRows(old(store.attempts), store.attempts) && key !in old(store.attempts);
      Interfere(init, i, 0, ctx);
      var submission := SubmitStep(i, key.number, prompt, init, ctx);
      requeued, done, error := Settle(i, key, current, submission, init, ctx);
    }

    /** One step: attempts, retries and one fallback, until it succeeds or the run has to stop. */
    method RunStep(i: nat, ctx: Context, ghost init: seq<Step>) returns (r: Outcome, logs: string)
      requires store.JobsNumbered() && InStep(Now(init), i, 0, ctx)
      requires i < |store.steps| && store.steps[i].status == Pending
      modifies this`cancelFlag, this`trace, store`steps, store`attempts, store`jobs, store`nextJob
      ensures store.JobsNumbered() && InStep(Now(init), i, 1, ctx) && i < |store.steps|
      ensures KeepsRows(old(store.attempts), store.attempts) && KeepsJobs(old(store.jobs), store.jobs)
      ensures r.Completed? ==> Answered(Now(init), i) && logs == StepLogs(store.steps[i], store.jobs)
      ensures r.Stopped? ==> Explained(r.error, store.steps[i])
      ensures old(cancelFlag) ==> r == Stopped(WasCancelled)
    {
      hide InStep, StepLogs, PromptFor, GaveUp, GoesOn;
      logs := "";
      var current := store.steps[i];
      while true
        invariant store.JobsNumbered() && InStep(Now(init), i, 0, ctx)
        invariant i < |store.steps| && current == store.steps[i] && current.status == Pending
        invariant KeepsRows(old(store.attempts), store.attempts) && KeepsJobs(old(store.jobs), store.jobs)
        invariant old(cancelFlag) ==> cancelFlag
        decreases FallbackLeft(current), current.maxAttempts - current.attempt
      {
        var requeued, done, error := TryOnce(i, ctx, current, init);
        if done {
          logs := StepLogs(store.steps[i], store.jobs);
          return Completed, logs;
        }
        if !requeued {
          return Stopped(error), logs;
        }
        current := store.steps[i];
      }
    }

    /** `update_workflow_step_status(.., "cancelled")` on the step the run stops at. */
    method CancelStep(i: nat, ghost used: nat, ghost init: seq<Step>, ghost ctx: Context)
      requires InStep(Now(init), i, used, ctx) && i < |store.steps|
      modifies store`steps
      ensures InStep(Now(init), i, used, ctx) && i < |store.steps|
    {
      CancelAction(Now(init), i, used, ctx);
      store.UpdateStepStatus(i, StepStatus.Cancelled);
    }

    /** After the job ended: record it and decide between success, requeue and stop. */
    method Settle(i: nat, key: AttemptKey, current: Step, submission: Submission, ghost init: seq<Step>,
                  ghost ctx: Context)
      returns (requeued: bool, done: bool, error: RunError)
      requires InStep(Now(init), i, 1, ctx) && i < |store.steps|
      requires key == AttemptKey(i, current.attempt) && key in store.attempts
      requires store.attempts[key] == Attempt(Running, None, None)
      requires store.steps[i] == current.(status := Running, failureClass := None, jobId := store.steps[i].jobId)
      requires submission.Accepted? ==> submission.job in store.jobs
      modifies this`cancelFlag, this`trace, store`steps, store`attempts
      ensures InStep(Now(init), i, if requeued then 0 else 1, ctx) && i < |store.steps|
      ensures KeepsOtherRows(old(store.attempts), store.attempts, key)
      ensures done ==> !requeued && Answered(Now(init), i)
      ensures done ==> submission.Accepted? && store.jobs[submission.job].status == "succeeded"
      ensures requeued ==> Requeued(current, store.steps[i])
      ensures requeued ==>
                FailedAs(submission, key) && GoesOn(current, store.attempts[key].failureClass.value, startable)
      ensures !done && !requeued ==> Explained(error, store.steps[i])
      ensures error.JobFailed? && !done && !requeued ==>
                && error == JobFailed(WhyFailed(submission)) && FailedAs(submission, key)
                && store.steps[i].failureClass == store.attempts[key].failureClass
    {
      hide InStep, GoesOn, Requeued, LastAttemptSucceeded, IsCause;
      requeued, done, error := false, false, DbError;
      var recorded, status, cause, reason := Record(i, key, current, submission, init, ctx);
      if !recorded {
        return;
      }
      if status == Succeeded {
        done := true;
        return;
      }
      if status == StepStatus.Cancelled {
        error := WasCancelled;
        return;
      }
      requeued, error := Decide(i, current, cause, submission.Accepted?, reason, init, ctx);
    }

    /** The result of the job, or the failed submission, is written into the attempt and the step. */
    method Record(i: nat, key: AttemptKey, current: Step, submission: Submission, ghost init: seq<Step>,
                  ghost ctx: Context)
      returns (recorded: bool, status: StepStatus, cause: FailureClass, reason: string)
      requires InStep(Now(init), i, 1, ctx) && i < |store.steps|
      requires key == AttemptKey(i, current.attempt) && key in store.attempts
      requires store.attempts[key] == Attempt(Running, None, None)
      requires store.steps[i] == current.(status := Running, failureClass := None, jobId := store.steps[i].jobId)
      requires submission.Accepted? ==> submission.job in store.jobs
      modifies this`trace, store`steps, store`attempts
      ensures InStep(Now(init), i, 1, ctx) && i < |store.steps|
      ensures KeepsOtherRows(old(store.attempts), store.attempts, key)
      ensures !recorded ==> dbMayFail
      ensures recorded ==>
                && status == store.steps[i].status == store.attempts[key].status
                && store.steps[i] == current.(status := status, failureClass := store.steps[i].failureClass,
                                              jobId := store.steps[i].jobId)
      ensures recorded && status == Succeeded ==>
                Answered(Now(init), i) && submission.Accepted? && store.jobs[submission.job].status == "succeeded"
      ensures recorded && status == Failed ==>
                && FailedAs(submission, key) && store.attempts[key].failureClass == Some(cause)
                && store.steps[i].failureClass == Some(cause) && (submission.Accepted? || cause == SubmitFailed)
      ensures recorded ==> status in {Succeeded, StepStatus.Cancelled, Failed} && reason == WhyFailed(submission)
    {
      hide InStep, LastAttemptSucceeded;
      recorded, status, cause, reason := false, Failed, SubmitFailed, "";
      var dbFails := CallFails();
      if dbFails {
        return;
      }
      if submission.Accepted? {
        var job := store.jobs[submission.job];
        status := AttemptStatusFor(job.status);
        cause := ClassifyFailure(job.status, job.failureReason);
        reason := job.failureReason.GetOr("");
        BindJob(i, key, submission.job, init, ctx);
        dbFails := CallFails();
        if dbFails {
          return;
        }
      } else {
        reason := submission.reason;
      }
      recorded := Write(i, key, status, cause, submission.Accepted?, init, ctx);
      LastSucceeded(init, i, key, status);
    }

    lemma LastSucceeded(init: seq<Step>, i: nat, key: AttemptKey, status: StepStatus)
      requires i < |store.steps| && key == AttemptKey(i, store.steps[i].attempt) && key in store.attempts
      ensures status == Succeeded && store.attempts[key].status == Succeeded && store.steps[i].jobId.Some?
              && store.attempts[key].jobId == store.steps[i].jobId && store.steps[i].jobId.value in store.jobs
              && store.jobs[store.steps[i].jobId.value].status == "succeeded"
              ==> LastAttemptSucceeded(Now(init), i)
    {
    }

    /** The attempt, the step and, after a failure, its class. */
    method Write(i: nat, key: AttemptKey, status: StepStatus, cause: FailureClass, accepted: bool,
                 ghost init: seq<Step>, ghost ctx: Context)
      returns (written: bool)
      requires InStep(Now(init), i, 1, ctx) && i < |store.steps|
      requires key.step == i && key in store.attempts
      requires store.steps[i].status == Running && store.steps[i].failureClass.None?
      requires status in {Succeeded, StepStatus.Cancelled, Failed}
      modifies this`trace, store`steps, store`attempts
      ensures InStep(Now(init), i, 1, ctx)
      ensures !written ==> dbMayFail
      ensures store.attempts == old(store.attempts)[key := old(store.attempts[key]).(status := status,
                failureClass := if status == Failed then Some(cause) else None)]
      ensures written ==> store.steps == old(store.steps)[i := old(store.steps[i]).(status := status,
                failureClass := match status
                                case Succeeded => None
                                case Failed => Some(cause)
                                case _ => Some(CancelledByUser))]
      ensures !written ==> store.steps == old(store.steps)
      ensures written && status == Succeeded ==> SucceededBefore(trace, |trace|, i)
    {
      hide InStep;
      RecordAttempt(i, key, status, if status == Failed then Some(cause) else None, init, ctx);
      var dbFails := CallFails();
      written := !(dbFails && accepted);
      if !written {
        return;
      }
      RecordStep(i, key.number, status, init, ctx);
      if status != Succeeded {
        RecordFailureClass(i, if status == Failed then cause else CancelledByUser, init, ctx);
      }
    }

    /** What becomes of a failed attempt, unless the run was cancelled meanwhile. */
    method Decide(i: nat, current: Step, cause: FailureClass, mayFallBack: bool, reason: string,
                  ghost init: seq<Step>, ghost ctx: Context)
      returns (requeued: bool, error: RunError)
      requires InStep(Now(init), i, 1, ctx) && i < |store.steps|
      requires store.steps[i].status == Failed
      requires current == store.steps[i].(status := current.status, jobId := current.jobId,
                                          failureClass := current.failureClass)
      modifies this`cancelFlag, this`trace, store`steps
      ensures InStep(Now(init), i, if requeued then 0 else 1, ctx) && i < |store.steps|
      requires mayFallBack || cause == SubmitFailed
      requires store.steps[i].failureClass == Some(cause)
      ensures requeued ==> Requeued(current, store.steps[i]) && GoesOn(current, cause, startable)
      ensures !requeued ==> Explained(error, store.steps[i])
      ensures !requeued && error.JobFailed? ==> error == JobFailed(reason) && store.steps == old(store.steps)
    {
      hide InStep;
      requeued, error := false, WasCancelled;
      Interfere(init, i, 1, ctx);
      if cancelFlag {
        return;
      }
      var dbFails;
      requeued, dbFails := Requeue(i, current, cause, mayFallBack, init, ctx);
      error := if dbFails then DbError else JobFailed(reason);
    }

    /** Manual mode: poll until an advance signal or a cancel. A wait that never ends is not a run. */
    method WaitForAdvance(i: nat, ghost init: seq<Step>, ghost ctx: Context) returns (advanced: bool)
      requires InStep(Now(init), i, 1, ctx) && i < |store.steps| && Answered(Now(init), i)
      requires store.manual && SomethingLeft(init, i)
      modifies this`cancelFlag, this`trace
      ensures InStep(Now(init), i, 1, ctx) && Answered(Now(init), i)
      ensures advanced ==> OpenStep(trace).None?
      ensures !advanced ==> cancelFlag
    {
      hide InStep;
      var polls: nat := *;
      while true
        invariant InStep(Now(init), i, 1, ctx) && Answered(Now(init), i)
        decreases polls
      {
        Interfere(init, i, 1, ctx);
        if cancelFlag {
          return false;
        }
        if polls == 0 {
          InStepEvent(Now(init), i, 1, ctx, Advanced(i), cancelFlag);
          AppendSucceeded(trace, Advanced(i), |trace|, i);
          AppendGate(trace, Advanced(i));
          trace := trace + [Advanced(i)];
          return true;
        }
        polls := polls - 1;
      }
    }

    /** `execute_workflow_inner`: the steps in order, skipping those already succeeded. */
    method ExecuteSteps() returns (r: Outcome, ghost init: seq<Step>)
      requires store.Valid() && Prepared(store.steps)
      modifies this`cancelFlag, this`trace, store`steps, store`attempts, store`jobs, store`nextJob, store`status
      ensures store.Valid() && init == old(store.steps)
      ensures RunSafe(Now(init))
      ensures r.Completed? ==> RunComplete(Now(init))
      ensures r.Stopped? ==> HasReason(r.error, store.steps)
      ensures old(cancelFlag) && r.Completed? ==> init == []
      ensures KeepsRows(old(store.attempts), store.attempts) && KeepsJobs(old(store.jobs), store.jobs)
    {
      hide InStep, AtStep, RunSafe, RunComplete, Explained, TablesOk, LeftToDo, PromptFor, StepLogs;
      trace := if cancelFlag then [CancelSet] else [];
      init := store.steps;
      var steps := store.steps;
      StartsAtStep(init, store.attempts, store.jobs, cancelFlag, store.manual);
      var ctx := NO_CONTEXT;
      var dbFails := CallFails();
      if dbFails {
        AtStepSafe(Now(init), 0, ctx);
        return Stopped(DbError), init;
      }
      var i := 0;
      while i < |steps|
        invariant 0 <= i <= |steps| && steps == init && |store.steps| == |steps|
        invariant store.JobsNumbered() && AtStep(Now(init), i, ctx) && (old(cancelFlag) ==> i == 0 && cancelFlag)
        invariant KeepsRows(old(store.attempts), store.attempts) && KeepsJobs(old(store.jobs), store.jobs)
      {
        if steps[i].status == Succeeded {
          var stop := CancelledBefore(i, init, ctx);
          if stop {
            return Stopped(WasCancelled), init;
          }
          SkipDone(Now(init), i, ctx);
          ctx := Absorb(ctx, steps[i], store.jobs);
        } else {
          EnterStep(Now(init), i, ctx);
          var one := ExecuteStep(i, ctx, steps);
          if one.Stopped? {
            return one, init;
          }
          ctx := Absorb(ctx, store.steps[i], store.jobs);
        }
        i := i + 1;
      }
      AtStepSafe(Now(init), i, ctx);
      r := Completed;
    }

    /** The cancel check in front of a step that is only passed over. */
    method CancelledBefore(i: nat, ghost init: seq<Step>, ghost ctx: Context) returns (stop: bool)
      requires AtStep(Now(init), i, ctx) && i < |init| == |store.steps| && init[i].status == Succeeded
               && store.JobsNumbered()
      modifies this`cancelFlag, this`trace, store`steps
      ensures |store.steps| == |init| && store.steps == old(store.steps)
      ensures !stop ==> AtStep(Now(init), i, ctx)
      ensures stop ==> RunSafe(Now(init)) && store.Valid()
      ensures stop <==> cancelFlag
      ensures cancelFlag ==> old(cancelFlag) || mayBeCancelled
      ensures old(cancelFlag) ==> cancelFlag
    {
      assert store.steps[i].status == Succeeded by {
        assert Untouched(Now(init), i);
      }
      hide AtStep, RunSafe;
      var byOther: bool := *;
      if byOther && mayBeCancelled && !cancelFlag {
        AtStepCancel(Now(init), i, ctx);
        cancelFlag := true;
        trace := trace + [CancelSet];
      }
      stop := cancelFlag;
      if stop {
        AtStepSafe(Now(init), i, ctx);
        store.UpdateStepStatus(i, StepStatus.Cancelled);
      }
    }

    /** One step that still has to run, and in manual mode the wait after it. */
    method ExecuteStep(i: nat, ctx: Context, init: seq<Step>) returns (r: Outcome)
      requires store.JobsNumbered() && InStep(Now(init), i, 0, ctx)
      requires i < |init| == |store.steps| && store.steps[i].status == Pending
      modifies this`cancelFlag, this`trace, store`steps, store`attempts, store`jobs, store`nextJob, store`status
      ensures store.JobsNumbered() && |store.steps| == |init|
      ensures KeepsRows(old(store.attempts), store.attempts) && KeepsJobs(old(store.jobs), store.jobs)
      ensures r.Completed? ==> AtStep(Now(init), i + 1, Absorb(ctx, store.steps[i], store.jobs))
      ensures r.Stopped? ==> RunSafe(Now(init)) && store.Valid() && HasReason(r.error, store.steps)
      ensures old(cancelFlag) ==> r == Stopped(WasCancelled)
    {
      hide InStep, AtStep, RunSafe;
      var logs;
      r, logs := RunStep(i, ctx, init);
      InStepSafe(Now(init), i, ctx);
      if r.Stopped? {
        return;
      }
      if store.manual && LeftToDo(init, i) {
        assert SomethingLeft(init, i);
        var dbFails := CallFails();
        if dbFails {
          return Stopped(DbError);
        }
        store.status := Paused;
        var advanced := WaitForAdvance(i, init, ctx);
        if !advanced {
          InStepSafe(Now(init), i, ctx);
          return Stopped(WasCancelled);
        }
        dbFails := CallFails();
        if dbFails {
          InStepSafe(Now(init), i, ctx);
          return Stopped(DbError);
        }
        store.status := Active;
      }
      LeaveStep(Now(init), i, ctx);
    }

    lemma ReasonStays(error: RunError, before: seq<Step>, after: seq<Step>)
      requires HasReason(error, before) && |after| == |before|
      requires forall j :: 0 <= j < |after| ==>
                 after[j] == if before[j].status in {Pending, Running} then before[j].(status := StepStatus.Cancelled)
                             else before[j]
      ensures HasReason(error, after)
    {
      if i :| 0 <= i < |before| && Explained(error, before[i]) {
        assert Explained(error, after[i]);
      }
    }

    /** `execute_workflow`: run the steps, free the runner, and, when the database can be opened again
        (`closed`), write the final status and close what is left. */
    method Execute() returns (r: Outcome, closed: bool, ghost init: seq<Step>)
      requires store.Valid() && Prepared(store.steps)
      modifies this`running, this`cancelFlag, this`trace, this`past,
               store`steps, store`attempts, store`jobs, store`nextJob, store`status
      ensures !running && store.Valid() && init == old(store.steps)
      ensures past == old(past) + [Now(init)]
      ensures RunSafe(Now(init))
      ensures KeepsRows(old(store.attempts), store.attempts) && KeepsJobs(old(store.jobs), store.jobs)
      ensures closed ==> store.status == match r
                                         case Completed => Done
                                         case Stopped(WasCancelled) => Aborted
                                         case Stopped(_) => Broken
      ensures r.Completed? ==> RunComplete(Now(init))
      ensures r.Stopped? ==> HasReason(r.error, store.steps)
      ensures old(cancelFlag) && r.Completed? ==> init == []
      ensures !dbMayFail ==> closed
      ensures closed && r.Stopped? ==>
                forall j :: 0 <= j < |store.steps| ==> store.steps[j].status !in {Pending, Running}
    {
      hide RunSafe, RunComplete, HasReason;
      r, init := ExecuteSteps();
      running := false;
      var dbFails := CallFails();
      closed := !dbFails;
      if closed {
        match r {
          case Completed => store.status := Done;
          case Stopped(WasCancelled) => store.status := Aborted;
          case Stopped(_) => store.status := Broken;
        }
        if r.Stopped? {
          ghost var before := Now(init);
          store.CancelSteps();
          SafeAfterCancel(before, store.steps);
          ReasonStays(r.error, before.steps, store.steps);
        }
      }
      past := past + [Now(init)];
    }

    /** The step has recorded attempts. */
    ghost predicate HasAttempts(j: nat)
      reads this, store
    {
      exists k :: k in store.attempts && k.step == j
    }

    /** `start_workflow`: refuses unless the workflow is at rest and has steps; otherwise every step not
        yet succeeded becomes pending under a number no earlier attempt has. If the status cannot be written
        then, the start has failed with the rows prepared. */
    method Start() returns (started: bool, failed: bool)
      requires store.Valid()
      modifies this`running, this`cancelFlag, store`steps, store`status
      ensures store.Valid() && |store.steps| == |old(store.steps)|
      ensures started || failed <==>
              !old(running) && old(store.status) in {Draft, Broken, Aborted, Paused} && store.steps != []
      ensures !(started && failed) && (failed ==> dbMayFail)
      ensures !started && !failed ==> store.steps == old(store.steps)
      ensures !started ==> store.status == old(store.status) && running == old(running)
      ensures started ==> running && !cancelFlag && store.status == Active
      ensures started || failed ==> Prepared(store.steps)
      ensures KeepsDone(old(store.steps), store.steps)
      ensures started || failed ==> forall j :: 0 <= j < |store.steps| && old(store.steps)[j].status != Succeeded ==>
                ReadyAgain(old(store.steps)[j], store.steps[j], HasAttempts(j))
                && forall k :: k in store.attempts && k.step == j ==> k.number < store.steps[j].attempt
    {
      started, failed := false, false;
      if running || store.status !in {Draft, Broken, Aborted, Paused} || store.steps == [] {
        return;
      }
      var i := 0;
      while i < |store.steps|
        invariant 0 <= i <= |store.steps| == |old(store.steps)| && store.Valid()
        invariant store.status == old(store.status) && running == old(running)
        invariant forall j :: i <= j < |store.steps| ==> store.steps[j] == old(store.steps)[j]
        invariant forall j :: 0 <= j < i ==>
                    && SameDefinition(old(store.steps)[j], store.steps[j])
                    && (old(store.steps)[j].status == Succeeded ==> store.steps[j] == old(store.steps)[j])
                    && (old(store.steps)[j].status != Succeeded ==>
                          ReadyAgain(old(store.steps)[j], store.steps[j], HasAttempts(j)))
      {
        if store.steps[i].status != Succeeded {
          PreparedRowOk(store.steps, store.attempts, store.jobs, i);
          store.PrepareForRun(i);
        }
        i := i + 1;
      }
      failed := CallFails();
      if failed {
        return;
      }
      store.status := Active;
      cancelFlag := false;
      running := true;
      started := true;
    }

    /** `cancel_workflow`: a live run is told to stop; otherwise a running or draft workflow is closed in the
        tables, with the jobs of its running steps. If the steps cannot be read then, only its status is written. */
    method Cancel() returns (done: bool, failed: bool)
      requires store.Valid()
      modifies this`cancelFlag, this`trace, store`steps, store`status, store`jobs
      ensures store.Valid()
      ensures done || failed <==> old(running) || old(store.status) in {Active, Draft}
      ensures failed ==> !done && !old(running) && dbMayFail
      ensures old(running) ==>
                && cancelFlag && store.steps == old(store.steps) && store.status == old(store.status)
                && store.jobs == old(store.jobs)
      ensures done && !old(running) ==>
                && store.status == Aborted && |store.steps| == |old(store.steps)|
                && forall j :: 0 <= j < |store.steps| ==>
                     var before := old(store.steps)[j];
                     store.steps[j] == if before.status in {Pending, Running} then before.(status := Cancelled)
                                       else before
      ensures !done ==>
                store.steps == old(store.steps) && cancelFlag == old(cancelFlag) && store.jobs == old(store.jobs)
      ensures !done ==> store.status == if failed then Aborted else old(store.status)
      ensures done && !old(running) ==> JobsClosed(old(store.jobs), store.jobs, old(store.steps), |old(store.steps)|)
      ensures KeepsDone(old(store.steps), store.steps) && KeepsLogs(old(store.jobs), store.jobs)
    {
      done, failed := false, false;
      if running {
        if !cancelFlag {
          cancelFlag := true;
          trace := trace + [CancelSet];
        }
        done := true;
        return;
      }
      if store.status !in {Active, Draft} {
        return;
      }
      store.status := Aborted;
      failed := CallFails();
      if failed {
        return;
      }
      CancelJobs();
      ghost var before := store.steps;
      store.CancelSteps();
      CancelledStepsOk(before, store.steps, store.attempts, store.jobs);
      done := true;
    }

    /** The jobs of the running steps that are still active are closed, and no other. */
    method CancelJobs()
      requires store.Valid()
      modifies store`jobs
      ensures store.Valid() && JobsClosed(old(store.jobs), store.jobs, store.steps, |store.steps|)
    {
      var i := 0;
      while i < |store.steps|
        invariant 0 <= i <= |store.steps| && store.Valid()
        invariant JobsClosed(old(store.jobs), store.jobs, store.steps, i)
      {
        ghost var before := store.jobs;
        if store.steps[i].status == Running && store.steps[i].jobId.Some? {
          store.CancelJob(store.steps[i].jobId.value);
        }
        OneMoreClosed(old(store.jobs), before, store.jobs, store.steps, i);
        i := i + 1;
      }
    }
  }

  /** Among the first `n` steps a running one has this job. */
  predicate RunsJob(steps: seq<Step>, n: nat, job: nat)
    requires n <= |steps|
  {
    exists j :: 0 <= j < n && steps[j].status == Running && steps[j].jobId == Some(job)
  }

  /** Exactly the active jobs of the first `n` running steps have become cancelled. */
  ghost predicate JobsClosed(before: map<nat, Job>, after: map<nat, Job>, steps: seq<Step>, n: nat)
    requires n <= |steps|
  {
    && after.Keys == before.Keys
    && forall k :: k in after ==>
         after[k] == if RunsJob(steps, n, k) && before[k].status in {"queued", "running", "observing"}
                     then before[k].(status := "cancelled") else before[k]
  }

  lemma OneMoreClosed(start: map<nat, Job>, before: map<nat, Job>, after: map<nat, Job>, steps: seq<Step>, i: nat)
    requires i < |steps| && JobsClosed(start, before, steps, i) && after.Keys == before.Keys
    requires var closes := steps[i].status == Running && steps[i].jobId.Some?;
             forall k :: k in after ==>
               after[k] == if closes && k == steps[i].jobId.value
                              && before[k].status in {"queued", "running", "observing"}
                           then before[k].(status := "cancelled") else before[k]
    ensures JobsClosed(start, after, steps, i + 1)
  {
    forall k | k in after
      ensures RunsJob(steps, i + 1, k)
              <==> RunsJob(steps, i, k) || (steps[i].status == Running && steps[i].jobId == Some(k))
    {
      if RunsJob(steps, i, k) {
        var j :| 0 <= j < i && steps[j].status == Running && steps[j].jobId == Some(k);
        assert steps[j].status == Running;
      }
    }
  }

  /** `start_workflow` leaves every step either succeeded or pending. */
  predicate Prepared(steps: seq<Step>) {
    forall j :: 0 <= j < |steps| ==> steps[j].status in {Pending, Succeeded}
  }

  /** How a step that has not succeeded starts again: pending, without a job, and with what a run never rewrites. If it
      was tried before it gets the next number after its last one and all its retries; otherwise it is as it was. */
  ghost predicate ReadyAgain(before: Step, after: Step, hasAttempts: bool) {
    && after.status == Pending && after.jobId.None? && after.failureClass.None?
    && SameDefinition(before, after) && after.provider == before.provider && after.fallback == before.fallback
    && if hasAttempts || before.jobId.Some? then
         after.attempt == before.maxAttempts + 1 && after.maxAttempts - after.attempt == before.retryBudget
       else after.attempt == before.attempt && after.maxAttempts == before.maxAttempts
  }

  /** Rows recorded earlier keep their value. */
  ghost predicate KeepsRows(before: map<AttemptKey, Attempt>, after: map<AttemptKey, Attempt>) {
    forall k :: k in before ==> k in after && after[k] == before[k]
  }

  ghost predicate KeepsOtherRows(before: map<AttemptKey, Attempt>, after: map<AttemptKey, Attempt>, key: AttemptKey) {
    after.Keys == before.Keys && forall k :: k in before && k != key ==> after[k] == before[k]
  }

  /** Recorded jobs stay as they are. */
  ghost predicate KeepsJobs(before: map<nat, Job>, after: map<nat, Job>) {
    forall k :: k in before ==> k in after && after[k] == before[k]
  }

  /** No job is added or lost, and every log stays. */
  ghost predicate KeepsLogs(before: map<nat, Job>, after: map<nat, Job>) {
    after.Keys == before.Keys && forall k :: k in before ==> after[k].logs == before[k].logs
  }

  lemma CancelledStepsOk(before: seq<Step>, after: seq<Step>, attempts: map<AttemptKey, Attempt>, jobs: map<nat, Job>)
    requires TablesOk(before, attempts, jobs) && |after| == |before|
    requires forall j :: 0 <= j < |after| ==>
               after[j] == before[j]
                   || (before[j].status in {Pending, Running} && after[j] == before[j].(status := Cancelled))
    ensures TablesOk(after, attempts, jobs) && KeepsDone(before, after)
  {
    forall i | 0 <= i < |after| ensures NumberedRow(after[i]) {
      assert NumberedRow(before[i]);
    }
  }
}
