/** What holds at every point of a workflow run, as predicates over the tables and the trace,
    with one lemma for each kind of step the engine takes. */
module WorkflowInvariant {
  import opened Common
  import opened WorkflowPrompts
  import opened WorkflowRows
  import opened WorkflowTrace

  /** A run in progress: the steps as read at its start, the events so far, the tables, the cancel
      flag and the advance mode. */
  datatype Run = Run(
    init: seq<Step>,
    tr: Trace,
    steps: seq<Step>,
    attempts: map<AttemptKey, Attempt>,
    jobs: map<nat, Job>,
    flag: bool,
    manual: bool)

  /** Step orders are pairwise different, as the step list of one workflow is created. */
  predicate StrictOrders(steps: seq<Step>) {
    forall i, j :: 0 <= i < j < |steps| ==> steps[i].order < steps[j].order
  }

  /** Manual advance gates a run when its step orders are distinct. */
  predicate GatedMode(r: Run) {
    r.manual && StrictOrders(r.init)
  }

  /** `has_pending`: some step with a higher order had not succeeded when the run started. */
  predicate LeftToDo(init: seq<Step>, i: nat)
    requires i < |init|
  {
    exists j :: 0 <= j < |init| && init[j].order > init[i].order && init[j].status != Succeeded
  }

  ghost predicate TablesOk(steps: seq<Step>, attempts: map<AttemptKey, Attempt>, jobs: map<nat, Job>) {
    && HistoryOk(steps, attempts)
    && forall i :: 0 <= i < |steps| && steps[i].jobId.Some? ==> steps[i].jobId.value in jobs
  }

  /** Serial order, at most one submission after cancel, and the manual gate. */
  ghost predicate TraceSafe(r: Run) {
    && Serial(r.init, r.tr)
    && (r.flag || !CancelSeen(r.tr))
    && SubmitsAfterCancel(r.tr) <= 1
    && (!CancelSeen(r.tr) ==> SubmitsAfterCancel(r.tr) == 0)
    && (GatedMode(r) ==> Gated(r.tr))
    && WaitsForReason(r.init, r.manual, r.tr)
  }

  /** Every prompt submitted so far, for a step below `bound`, is the one the tables give. */
  ghost predicate PromptsFromTables(r: Run, bound: nat) {
    forall p :: 0 <= p < |r.tr| && r.tr[p].Submit? ==>
      r.tr[p].step < bound && r.tr[p].step < |r.steps|
      && r.tr[p].prompt == PromptFor(r.steps, r.tr[p].step, r.jobs).prompt
  }

  /** A step is submitted no more often than it had attempts left at the start, and once more after a fallback; it
      falls back once, and only if it had a fallback provider. */
  ghost predicate WithinBudget(r: Run, j: nat)
    requires j < |r.init|
  {
    var s := r.init[j];
    && Submits(r.tr, j) <= s.maxAttempts - s.attempt + 1 + (if s.fallback.Some? then 1 else 0)
    && Fallbacks(r.tr, j) <= (if s.fallback.Some? then 1 else 0)
  }

  /** The last attempt of the step has succeeded, and so has the job that both the step and the attempt name. */
  ghost predicate LastAttemptSucceeded(r: Run, j: nat)
    requires j < |r.steps|
  {
    var s := r.steps[j];
    var key := AttemptKey(j, s.attempt);
    && s.jobId.Some? && s.jobId.value in r.jobs && r.jobs[s.jobId.value].status == "succeeded"
    && key in r.attempts && r.attempts[key].status == Succeeded && r.attempts[key].jobId == s.jobId
  }

  ghost predicate StepDone(r: Run, j: nat)
    requires j < |r.init| && j < |r.steps|
  {
    && r.steps[j].status == Succeeded
    && (r.init[j].status == Succeeded ==> r.steps[j] == r.init[j])
    && (r.init[j].status != Succeeded ==>
          SucceededBefore(r.tr, |r.tr|, j) && LastAttemptSucceeded(r, j))
    && WithinBudget(r, j)
  }

  ghost predicate Untouched(r: Run, j: nat)
    requires j < |r.init| && j < |r.steps|
  {
    r.steps[j] == r.init[j] && Submits(r.tr, j) == 0 && Fallbacks(r.tr, j) == 0
  }

  /** Steps below `lo` are done, steps from `hi` on are untouched. */
  ghost predicate Frame(r: Run, lo: nat, hi: nat) {
    && lo <= hi <= |r.init| == |r.steps|
    && TablesOk(r.steps, r.attempts, r.jobs)
    && TraceSafe(r)
    && PromptsFromTables(r, hi)
    && (forall j :: 0 <= j < |r.init| ==> SameDefinition(r.init[j], r.steps[j]))
    && (forall j :: 0 <= j < lo ==> StepDone(r, j))
    && (forall j :: hi <= j < |r.init| ==> Untouched(r, j))
    && (forall j :: 0 <= j < |r.init| ==> r.init[j].status in {Pending, Succeeded} && NumberedRow(r.init[j]))
  }

  /** Between steps: the first `cur` are done, and the in-memory context is what the tables say. */
  ghost predicate AtStep(r: Run, cur: nat, ctx: Context) {
    && Frame(r, cur, cur)
    && ctx == ContextAfter(r.steps, cur, r.jobs)
    && (GatedMode(r) && OpenStep(r.tr).Some? ==> forall j :: cur <= j < |r.init| ==> r.init[j].status == Succeeded)
  }

  /** Working on step `i`; `used` is 1 from a submission to the requeue or success that answers it. */
  ghost predicate InStep(r: Run, i: nat, used: nat, ctx: Context) {
    && i < |r.init|
    && Frame(r, i, i + 1)
    && ctx == ContextAfter(r.steps, i, r.jobs)
    && r.init[i].status == Pending
    && (GatedMode(r) ==> OpenStep(r.tr) in {None, Some(i)})
    && Submits(r.tr, i) + Budget(r.steps[i]) <= Budget(r.init[i]) + used
    && Fallbacks(r.tr, i) + FallbackLeft(r.steps[i]) <= FallbackLeft(r.init[i])
  }

  // ---- Events ----

  lemma FrameEvent(r: Run, lo: nat, hi: nat, e: Event, flag: bool)
    requires Frame(r, lo, hi)
    requires r.flag ==> flag
    requires e == CancelSet ==> flag
    requires e.Begin? ==> e.step < hi && e.step <= lo && (GatedMode(r) ==> OpenStep(r.tr) in {None, Some(e.step)})
    requires e.Submit? ==> lo <= e.step < hi && SubmitsAfterCancel(r.tr) == 0
                           && e.prompt == PromptFor(r.steps, e.step, r.jobs).prompt
    requires e.FellBack? ==> lo <= e.step < hi
    requires e.Advanced? ==> r.manual && SomethingLeft(r.init, e.after)
    ensures Frame(r.(tr := r.tr + [e], flag := flag), lo, hi)
  {
    var r' := r.(tr := r.tr + [e], flag := flag);
    AppendCounts(r.tr, e);
    AppendGate(r.tr, e);
    forall j | 0 <= j < lo ensures r.init[j].status == Succeeded || SucceededBefore(r.tr, |r.tr|, j) {
      assert StepDone(r, j);
    }
    AppendSerial(r.init, r.tr, e);
    forall j | 0 <= j < lo ensures StepDone(r', j) {
      assert StepDone(r, j);
      AppendSucceeded(r.tr, e, |r.tr|, j);
    }
    forall j | hi <= j < |r.init| ensures Untouched(r', j) {
      assert Untouched(r, j);
    }
    assert WaitsForReason(r'.init, r'.manual, r'.tr);
    forall p | 0 <= p < |r'.tr| && r'.tr[p].Submit?
      ensures r'.tr[p].step < hi && r'.tr[p].prompt == PromptFor(r.steps, r'.tr[p].step, r.jobs).prompt
    {
      assert p < |r.tr| ==> r'.tr[p] == r.tr[p];
    }
  }

  lemma InStepEvent(r: Run, i: nat, used: nat, ctx: Context, e: Event, flag: bool)
    requires InStep(r, i, used, ctx)
    requires r.flag ==> flag
    requires e == CancelSet ==> flag
    requires e.Begin? || e.Submit? ==> e.step == i
    requires e.Submit? ==>
               used == 0 && SubmitsAfterCancel(r.tr) == 0 && e.prompt == PromptFor(r.steps, i, r.jobs).prompt
    requires !e.FellBack?
    requires e.Advanced? ==> r.manual && SomethingLeft(r.init, e.after)
    ensures InStep(r.(tr := r.tr + [e], flag := flag), i, if e.Submit? then 1 else used, ctx)
  {
    FrameEvent(r, i, i + 1, e, flag);
    AppendCounts(r.tr, e);
    AppendGate(r.tr, e);
  }

  lemma AtStepCancel(r: Run, cur: nat, ctx: Context)
    requires AtStep(r, cur, ctx)
    ensures AtStep(r.(tr := r.tr + [CancelSet], flag := true), cur, ctx)
  {
    FrameEvent(r, cur, cur, CancelSet, true);
    AppendGate(r.tr, CancelSet);
  }

  // ---- Table updates on the current step ----

  /** The current row changes and jobs are added: contexts and prompts below and at it stay. */
  lemma PastStable(r: Run, i: nat, s: Step, jobs: map<nat, Job>)
    requires i < |r.steps| && PromptsFromTables(r, i + 1)
    requires SameDefinition(r.steps[i], s)
    requires forall k :: 0 <= k < i && r.steps[k].jobId.Some? ==>
               LogsOf(r.jobs, r.steps[k].jobId.value) == LogsOf(jobs, r.steps[k].jobId.value)
    ensures PromptsFromTables(r.(steps := r.steps[i := s], jobs := jobs), i + 1)
    ensures ContextAfter(r.steps[i := s], i, jobs) == ContextAfter(r.steps, i, r.jobs)
  {
    var steps := r.steps[i := s];
    forall p | 0 <= p < |r.tr| && r.tr[p].Submit?
      ensures r.tr[p].prompt == PromptFor(steps, r.tr[p].step, jobs).prompt
    {
      var k := r.tr[p].step;
      assert SamePast(r.steps, r.jobs, steps, jobs, k);
      ResumedPromptIsUninterruptedPrompt(r.steps, r.jobs, steps, jobs, k);
    }
    SamePastSameContext(r.steps, r.jobs, steps, jobs, i);
  }

  lemma RowStaysOk(r: Run, i: nat, s: Step)
    requires i < |r.steps| && TablesOk(r.steps, r.attempts, r.jobs)
    requires NumberedRow(s) && s.attempt >= r.steps[i].attempt
    requires s.status == Pending ==> r.steps[i].status == Pending || s.attempt > r.steps[i].attempt
    requires s.jobId.Some? ==> s.jobId.value in r.jobs
    ensures TablesOk(r.steps[i := s], r.attempts, r.jobs)
  {
    var steps := r.steps[i := s];
    forall k | k in r.attempts
      ensures k.step < |steps| && k.number <= steps[k.step].attempt
      ensures steps[k.step].status == Pending ==> k.number < steps[k.step].attempt
    {
      assert k.number <= r.steps[k.step].attempt;
    }
  }

  /** Rewriting the row of the current step, recording its attempt and adding finished jobs. */
  lemma FrameUpdate(r: Run, i: nat, s: Step, attempts: map<AttemptKey, Attempt>, jobs: map<nat, Job>)
    requires i < |r.init| && Frame(r, i, i + 1)
    requires SameDefinition(r.steps[i], s)
    requires TablesOk(r.steps[i := s], attempts, jobs)
    requires forall k :: k in r.jobs ==> k in jobs && jobs[k] == r.jobs[k]
    requires forall k :: k in r.attempts && k.step != i ==> k in attempts && attempts[k] == r.attempts[k]
    ensures Frame(r.(steps := r.steps[i := s], attempts := attempts, jobs := jobs), i, i + 1)
    ensures ContextAfter(r.steps[i := s], i, jobs) == ContextAfter(r.steps, i, r.jobs)
  {
    var r' := r.(steps := r.steps[i := s], attempts := attempts, jobs := jobs);
    PastStable(r, i, s, jobs);
    forall j | 0 <= j < i ensures StepDone(r', j) {
      assert StepDone(r, j);
    }
    forall j | i + 1 <= j < |r.init| ensures Untouched(r', j) {
      assert Untouched(r, j);
    }
  }

  lemma InStepUpdate(r: Run, i: nat, used: nat, ctx: Context,
                     s: Step, attempts: map<AttemptKey, Attempt>, jobs: map<nat, Job>, used': nat)
    requires InStep(r, i, used, ctx)
    requires SameDefinition(r.steps[i], s)
    requires TablesOk(r.steps[i := s], attempts, jobs)
    requires forall k :: k in r.jobs ==> k in jobs && jobs[k] == r.jobs[k]
    requires forall k :: k in r.attempts && k.step != i ==> k in attempts && attempts[k] == r.attempts[k]
    requires Submits(r.tr, i) + Budget(s) <= Budget(r.init[i]) + used'
    requires FallbackLeft(s) <= FallbackLeft(r.steps[i])
    ensures InStep(r.(steps := r.steps[i := s], attempts := attempts, jobs := jobs), i, used', ctx)
  {
    FrameUpdate(r, i, s, attempts, jobs);
  }

  /** Handing a failed step to its fallback provider, the one event that uses the fallback up. */
  lemma InStepFallback(r: Run, i: nat, ctx: Context, provider: string, e: Event)
    requires InStep(r, i, 1, ctx)
    requires r.steps[i].fallback.Some? && r.steps[i].attempt >= r.steps[i].maxAttempts
    requires FallbackRow(r.steps[i], provider).Some?
    requires e.FellBack? && e.step == i
    ensures InStep(r.(steps := r.steps[i := FallbackRow(r.steps[i], provider).value], tr := r.tr + [e]), i, 0, ctx)
  {
    var s := FallbackRow(r.steps[i], provider).value;
    FrameEvent(r, i, i + 1, e, r.flag);
    AppendCounts(r.tr, e);
    AppendGate(r.tr, e);
    FallbackRowOk(r, i, provider);
    FrameUpdate(r.(tr := r.tr + [e]), i, s, r.attempts, r.jobs);
  }

  lemma FallbackRowOk(r: Run, i: nat, provider: string)
    requires i < |r.steps| && TablesOk(r.steps, r.attempts, r.jobs) && FallbackRow(r.steps[i], provider).Some?
    ensures TablesOk(r.steps[i := FallbackRow(r.steps[i], provider).value], r.attempts, r.jobs)
  {
    assert NumberedRow(r.steps[i]);
    RowStaysOk(r, i, FallbackRow(r.steps[i], provider).value);
  }

  // ---- The engine's actions on the current step ----

  /** A status or failure-class column is rewritten. */
  lemma InStepRow(r: Run, i: nat, used: nat, ctx: Context, s: Step)
    requires InStep(r, i, used, ctx)
    requires s == r.steps[i].(status := s.status, failureClass := s.failureClass, jobId := s.jobId)
    requires s.status == Pending ==> r.steps[i].status == Pending
    requires s.jobId.Some? ==> s.jobId.value in r.jobs
    ensures InStep(r.(steps := r.steps[i := s]), i, used, ctx)
  {
    assert NumberedRow(r.steps[i]);
    RowStaysOk(r, i, s);
    InStepUpdate(r, i, used, ctx, s, r.attempts, r.jobs, used);
  }

  /** The number of a pending step is unused, so its attempt row is new and none is overwritten. */
  lemma BeginAction(r: Run, i: nat, ctx: Context)
    requires InStep(r, i, 0, ctx) && r.steps[i].status == Pending
    ensures AttemptKey(i, r.steps[i].attempt) !in r.attempts && r.steps[i].attempt >= 1
    ensures var s := r.steps[i].(status := Running, failureClass := None);
            var key := AttemptKey(i, s.attempt);
            InStep(r.(steps := r.steps[i := s], attempts := r.attempts[key := Attempt(Running, None, None)],
                      tr := r.tr + [Begin(i, s.attempt)]), i, 0, ctx)
  {
    var s := r.steps[i].(status := Running, failureClass := None);
    var key := AttemptKey(i, s.attempt);
    var attempts := r.attempts[key := Attempt(Running, None, None)];
    assert NumberedRow(r.steps[i]);
    RowStaysOk(r, i, s);
    InStepUpdate(r, i, 0, ctx, s, attempts, r.jobs, 0);
    InStepEvent(r.(steps := r.steps[i := s], attempts := attempts), i, 0, ctx, Begin(i, s.attempt), r.flag);
  }

  /** The job is submitted with the prompt the tables give; afterwards some jobs exist and the row may name one. */
  lemma SubmitAction(r: Run, i: nat, ctx: Context, number: int, jobs: map<nat, Job>, jobId: Option<nat>)
    requires InStep(r, i, 0, ctx) && r.steps[i].status == Running
    requires SubmitsAfterCancel(r.tr) == 0
    requires forall k :: k in r.jobs ==> k in jobs && jobs[k] == r.jobs[k]
    requires jobId.Some? ==> jobId.value in jobs
    ensures InStep(r.(tr := r.tr + [Submit(i, number, PromptOf(r.steps[i], ctx).prompt)],
                      steps := r.steps[i := r.steps[i].(jobId := jobId)], jobs := jobs), i, 1, ctx)
  {
    var e := Submit(i, number, PromptOf(r.steps[i], ctx).prompt);
    InStepEvent(r, i, 0, ctx, e, r.flag);
    var r1 := r.(tr := r.tr + [e]);
    var s := r.steps[i].(jobId := jobId);
    assert NumberedRow(r.steps[i]);
    assert TablesOk(r.steps, r.attempts, jobs);
    RowStaysOk(r1.(jobs := jobs), i, s);
    InStepUpdate(r1, i, 1, ctx, s, r.attempts, jobs, 1);
  }

  /** The attempt of the current step is rewritten under its own key. */
  lemma AttemptAction(r: Run, i: nat, used: nat, ctx: Context, key: AttemptKey, a: Attempt)
    requires InStep(r, i, used, ctx) && key.step == i && key in r.attempts
    ensures InStep(r.(attempts := r.attempts[key := a]), i, used, ctx)
  {
    var attempts := r.attempts[key := a];
    assert r.steps[i := r.steps[i]] == r.steps;
    InStepUpdate(r, i, used, ctx, r.steps[i], attempts, r.jobs, used);
  }

  lemma BindAction(r: Run, i: nat, ctx: Context, key: AttemptKey, job: nat)
    requires InStep(r, i, 1, ctx) && key.step == i && key in r.attempts && job in r.jobs && r.steps[i].status != Pending
    ensures InStep(r.(steps := r.steps[i := r.steps[i].(jobId := Some(job))],
                      attempts := r.attempts[key := r.attempts[key].(jobId := Some(job))]), i, 1, ctx)
  {
    var s := r.steps[i].(jobId := Some(job));
    InStepRow(r, i, 1, ctx, s);
    AttemptAction(r.(steps := r.steps[i := s]), i, 1, ctx, key, r.attempts[key].(jobId := Some(job)));
  }

  /** The step ended with `status`, and the event says so. */
  lemma FinishAction(r: Run, i: nat, used: nat, ctx: Context, number: int, status: StepStatus)
    requires InStep(r, i, used, ctx) && r.steps[i].status == Running && status != Pending
    ensures InStep(r.(steps := r.steps[i := r.steps[i].(status := status)], tr := r.tr + [Finish(i, number, status)]),
                   i, used, ctx)
    ensures status == Succeeded ==> SucceededBefore(r.tr + [Finish(i, number, status)], |r.tr| + 1, i)
  {
    var s := r.steps[i].(status := status);
    var e := Finish(i, number, status);
    InStepRow(r, i, used, ctx, s);
    InStepEvent(r.(steps := r.steps[i := s]), i, used, ctx, e, r.flag);
    AppendSucceeded(r.tr, e, |r.tr|, i);
  }

  lemma CancelAction(r: Run, i: nat, used: nat, ctx: Context)
    requires InStep(r, i, used, ctx)
    ensures var from := r.steps[i].status;
            var to := if CanMove(from, Cancelled) then Cancelled else from;
            InStep(r.(steps := r.steps[i := r.steps[i].(status := to)]), i, used, ctx)
  {
    var from := r.steps[i].status;
    assert TablesOk(r.steps, r.attempts, r.jobs);
    InStepRow(r, i, used, ctx, r.steps[i].(status := if CanMove(from, Cancelled) then Cancelled else from));
  }

  /** A retry answers the submission and leaves the step pending under a fresh number. */
  lemma RetryAction(r: Run, i: nat, ctx: Context)
    requires InStep(r, i, 1, ctx) && RetryRow(r.steps[i]).Some?
    ensures InStep(r.(steps := r.steps[i := RetryRow(r.steps[i]).value]), i, 0, ctx)
  {
    var s := RetryRow(r.steps[i]).value;
    assert NumberedRow(r.steps[i]);
    RowStaysOk(r, i, s);
    InStepUpdate(r, i, 1, ctx, s, r.attempts, r.jobs, 0);
  }

  lemma Weaken(r: Run, i: nat, ctx: Context)
    requires InStep(r, i, 0, ctx)
    ensures InStep(r, i, 1, ctx)
  {
  }

  // ---- From step to step ----

  /** A step already succeeded before the run is passed over; its log is read back. */
  lemma SkipDone(r: Run, cur: nat, ctx: Context)
    requires AtStep(r, cur, ctx) && cur < |r.init| && r.init[cur].status == Succeeded
    ensures AtStep(r, cur + 1, Absorb(ctx, r.init[cur], r.jobs))
  {
    assert Untouched(r, cur);
    assert StepDone(r, cur);
  }

  lemma EnterStep(r: Run, cur: nat, ctx: Context)
    requires AtStep(r, cur, ctx) && cur < |r.init| && r.init[cur].status == Pending
    ensures InStep(r, cur, 0, ctx) && r.steps[cur] == r.init[cur]
  {
    assert Untouched(r, cur);
  }

  /** The current step has succeeded, and its attempt and its job say so. */
  ghost predicate Answered(r: Run, i: nat)
    requires i < |r.steps|
  {
    r.steps[i].status == Succeeded && SucceededBefore(r.tr, |r.tr|, i) && LastAttemptSucceeded(r, i)
  }

  /** After a success the run moves on: in manual mode nothing is left or the advance signal came. */
  lemma LeaveStep(r: Run, i: nat, ctx: Context)
    requires InStep(r, i, 1, ctx) && Answered(r, i)
    requires r.manual ==> OpenStep(r.tr).None? || !LeftToDo(r.init, i)
    ensures AtStep(r, i + 1, Absorb(ctx, r.steps[i], r.jobs))
  {
    assert NumberedRow(r.steps[i]);
    assert StepDone(r, i);
    if GatedMode(r) && OpenStep(r.tr).Some? {
      forall j | i + 1 <= j < |r.init| ensures r.init[j].status == Succeeded {
        assert r.init[i].order < r.init[j].order;
      }
    }
  }

  // ---- What a finished run guarantees ----

  /** Every step before a submitted one has succeeded. */
  ghost predicate DoneBeforeSubmits(r: Run) {
    forall p, j :: 0 <= p < |r.tr| && r.tr[p].Submit? && 0 <= j < r.tr[p].step && j < |r.steps|
        ==> r.steps[j].status == Succeeded
  }

  /** Every prompt submitted carries the log its step is to be given, as the tables show it. */
  ghost predicate PromptsCarryLogs(r: Run) {
    forall p :: 0 <= p < |r.tr| && r.tr[p].Submit? ==>
      r.tr[p].step < |r.steps| && CarriesLog(r.steps, r.tr[p].step, r.jobs, r.tr[p].prompt)
  }

  lemma PromptsAreCarried(r: Run, bound: nat)
    requires PromptsFromTables(r, bound) && TablesOk(r.steps, r.attempts, r.jobs)
    ensures PromptsCarryLogs(r)
  {
    hide PromptFor, CarriesLog, HistoryOk;
    forall p | 0 <= p < |r.tr| && r.tr[p].Submit?
      ensures r.tr[p].step < |r.steps| && CarriesLog(r.steps, r.tr[p].step, r.jobs, r.tr[p].prompt)
    {
      PromptCarriesLog(r.steps, r.tr[p].step, r.jobs);
    }
  }

  /** Holds whether the run completed or stopped anywhere. */
  ghost predicate RunSafe(r: Run) {
    && |r.steps| == |r.init|
    && TablesOk(r.steps, r.attempts, r.jobs)
    && TraceSafe(r)
    && PromptsFromTables(r, |r.init|)
    && PromptsCarryLogs(r)
    && DoneBeforeSubmits(r)
    && forall j :: 0 <= j < |r.init| ==>
        && SameDefinition(r.init[j], r.steps[j])
        && WithinBudget(r, j)
        && (r.init[j].status == Succeeded ==> r.steps[j] == r.init[j])
  }

  /** Holds when the run completed: every step has succeeded, and so has its last attempt. */
  ghost predicate RunComplete(r: Run) {
    |r.steps| == |r.init| && forall j :: 0 <= j < |r.init| ==> StepDone(r, j)
  }

  lemma FrameDone(r: Run, lo: nat, hi: nat)
    requires Frame(r, lo, hi) && hi <= lo + 1
    ensures DoneBeforeSubmits(r)
  {
    forall p, j | 0 <= p < |r.tr| && r.tr[p].Submit? && 0 <= j < r.tr[p].step && j < |r.steps|
      ensures r.steps[j].status == Succeeded
    {
      assert r.tr[p].step < hi;
      assert StepDone(r, j);
    }
  }

  lemma InStepSafe(r: Run, i: nat, ctx: Context)
    requires InStep(r, i, 1, ctx)
    ensures RunSafe(r) && TablesOk(r.steps, r.attempts, r.jobs) && |r.steps| == |r.init|
  {
    FrameDone(r, i, i + 1);
    PromptsAreCarried(r, i + 1);
    hide DoneBeforeSubmits, PromptsCarryLogs;
    forall j | 0 <= j < |r.init|
      ensures WithinBudget(r, j) && (r.init[j].status == Succeeded ==> r.steps[j] == r.init[j])
    {
      if j < i {
        assert StepDone(r, j);
      } else if j == i {
        assert NumberedRow(r.steps[i]);
      } else {
        assert Untouched(r, j);
        assert NumberedRow(r.init[j]);
      }
    }
  }

  lemma AtStepSafe(r: Run, cur: nat, ctx: Context)
    requires AtStep(r, cur, ctx)
    ensures RunSafe(r) && TablesOk(r.steps, r.attempts, r.jobs)
    ensures cur == |r.init| ==> RunComplete(r)
  {
    FrameDone(r, cur, cur);
    PromptsAreCarried(r, cur);
    hide DoneBeforeSubmits, PromptsCarryLogs;
    forall j | 0 <= j < |r.init|
      ensures WithinBudget(r, j) && (r.init[j].status == Succeeded ==> r.steps[j] == r.init[j])
    {
      if j < cur {
        assert StepDone(r, j);
      } else {
        assert Untouched(r, j);
        assert NumberedRow(r.init[j]);
      }
    }
  }

  lemma StartsAtStep(steps: seq<Step>, attempts: map<AttemptKey, Attempt>, jobs: map<nat, Job>, flag: bool,
                     manual: bool)
    requires TablesOk(steps, attempts, jobs)
    requires forall j :: 0 <= j < |steps| ==> steps[j].status in {Pending, Succeeded}
    ensures AtStep(Run(steps, if flag then [CancelSet] else [], steps, attempts, jobs, flag, manual), 0, NO_CONTEXT)
  {
    if flag {
      AtStepCancel(Run(steps, [], steps, attempts, jobs, false, manual), 0, NO_CONTEXT);
      assert [] + [CancelSet] == [CancelSet];
    }
  }

  /** Cancelling what is left of a stopped run changes no prompt and no definition. */
  lemma SafeAfterCancel(r: Run, steps: seq<Step>)
    requires RunSafe(r) && |steps| == |r.steps|
    requires forall j :: 0 <= j < |steps| ==>
               steps[j] == r.steps[j]
                   || (r.steps[j].status in {Pending, Running} && steps[j] == r.steps[j].(status := Cancelled))
    ensures RunSafe(r.(steps := steps)) && TablesOk(steps, r.attempts, r.jobs)
  {
    PromptsAfterCancel(r, steps);
    TablesAfterCancel(r, steps);
    PromptsAreCarried(r.(steps := steps), |steps|);
    hide PromptsFromTables, PromptsCarryLogs, TablesOk, TraceSafe, WithinBudget;
  }

  lemma TablesAfterCancel(r: Run, steps: seq<Step>)
    requires TablesOk(r.steps, r.attempts, r.jobs) && |steps| == |r.steps|
    requires forall j :: 0 <= j < |steps| ==>
               steps[j] == r.steps[j]
                   || (r.steps[j].status in {Pending, Running} && steps[j] == r.steps[j].(status := Cancelled))
    ensures TablesOk(steps, r.attempts, r.jobs)
  {
    assert HistoryOk(steps, r.attempts) by {
      forall i | 0 <= i < |steps| ensures NumberedRow(steps[i]) {
        assert NumberedRow(r.steps[i]);
      }
    }
  }

  lemma PromptsAfterCancel(r: Run, steps: seq<Step>)
    requires |steps| == |r.steps| && PromptsFromTables(r, |steps|)
    requires forall j :: 0 <= j < |steps| ==> steps[j] == r.steps[j].(status := steps[j].status)
    ensures PromptsFromTables(r.(steps := steps), |steps|)
  {
    forall p | 0 <= p < |r.tr| && r.tr[p].Submit?
      ensures r.tr[p].prompt == PromptFor(steps, r.tr[p].step, r.jobs).prompt
    {
      assert SamePast(r.steps, r.jobs, steps, r.jobs, r.tr[p].step);
      ResumedPromptIsUninterruptedPrompt(r.steps, r.jobs, steps, r.jobs, r.tr[p].step);
    }
  }

  /** Resume equivalence over runs: take any two runs, fresh or resumed, with the same step
      definitions. If the steps before `i` ended up with the same job logs, then every prompt either
      run submitted for step `i` is the same text, however often the step was attempted and whichever
      provider or process ran it. */
  lemma RunsAgreeOnPrompts(a: Run, p: nat, b: Run, q: nat)
    requires RunSafe(a) && RunSafe(b)
    requires p < |a.tr| && q < |b.tr| && a.tr[p].Submit? && b.tr[q].Submit? && a.tr[p].step == b.tr[q].step
    requires SamePast(a.steps, a.jobs, b.steps, b.jobs, a.tr[p].step)
    requires SameDefinition(a.steps[a.tr[p].step], b.steps[a.tr[p].step])
    ensures a.tr[p].prompt == b.tr[q].prompt
  {
    ResumedPromptIsUninterruptedPrompt(a.steps, a.jobs, b.steps, b.jobs, a.tr[p].step);
  }

  // ---- From run to run ----

  /** A run leaves, and everything between runs leaves, the step definitions and the rows of succeeded steps. */
  ghost predicate KeepsDone(before: seq<Step>, after: seq<Step>) {
    |after| == |before| && forall j :: 0 <= j < |before| ==>
      SameDefinition(before[j], after[j]) && (before[j].status == Succeeded ==> after[j] == before[j])
  }

  /** Logs of recorded jobs are kept. */
  ghost predicate LogsKept(before: map<nat, Job>, after: map<nat, Job>) {
    forall k :: k in before ==> k in after && after[k].logs == before[k].logs
  }

  /** `b` is a later run of the same workflow than `a`. */
  ghost predicate Continues(a: Run, b: Run) {
    KeepsDone(a.steps, b.init) && LogsKept(a.jobs, b.jobs)
  }

  /** One run after the other, each starting from what the one before left. */
  ghost predicate History(runs: seq<Run>) {
    && (forall n :: 0 <= n < |runs| ==> RunSafe(runs[n]))
    && (forall n, m :: 0 <= n && m == n + 1 < |runs| ==> Continues(runs[n], runs[m]))
  }

  /** What a run leaves of the steps before `i`, once they have succeeded. */
  ghost predicate SameDone(a: Run, b: Run, i: nat) {
    && i < |a.steps| == |b.steps|
    && SameDefinition(a.steps[i], b.steps[i])
    && (forall j :: 0 <= j < i ==> a.steps[j].status == Succeeded && a.steps[j] == b.steps[j])
    && LogsKept(a.jobs, b.jobs)
  }

  /** Once the steps before `i` have succeeded in one run they are the same in every later one. */
  lemma {:induction false} LaterKeepDone(runs: seq<Run>, n: nat, m: nat, i: nat)
    requires History(runs) && n <= m < |runs| && i < |runs[n].steps|
    requires forall j :: 0 <= j < i ==> runs[n].steps[j].status == Succeeded
    ensures SameDone(runs[n], runs[m], i)
  {
    hide *;
    if n < m {
      LaterKeepDone(runs, n, m - 1, i);
      InHistory(runs, m - 1);
      NextOfDone(runs[n], runs[m - 1], runs[m], i);
    } else {
      SameAsItself(runs[n], i);
    }
  }

  lemma InHistory(runs: seq<Run>, n: nat)
    requires History(runs) && n + 1 < |runs|
    ensures RunSafe(runs[n]) && RunSafe(runs[n + 1]) && Continues(runs[n], runs[n + 1])
  {
    hide RunSafe, Continues;
  }

  lemma SameAsItself(r: Run, i: nat)
    requires i < |r.steps| && forall j :: 0 <= j < i ==> r.steps[j].status == Succeeded
    ensures SameDone(r, r, i)
  {
  }

  lemma NextOfDone(a: Run, b: Run, c: Run, i: nat)
    requires SameDone(a, b, i) && RunSafe(b) && RunSafe(c) && Continues(b, c)
    ensures SameDone(a, c, i)
  {
    hide TablesOk, TraceSafe, PromptsFromTables, PromptsCarryLogs, DoneBeforeSubmits, WithinBudget;
    forall j | 0 <= j < i ensures a.steps[j] == c.steps[j] {
      assert b.steps[j] == c.init[j];
    }
    assert SameDefinition(b.steps[i], c.init[i]) && SameDefinition(c.init[i], c.steps[i]);
  }

  /** Done steps name recorded jobs, so their logs are read from rows both runs have. */
  lemma SamePastOfDone(a: Run, b: Run, i: nat)
    requires SameDone(a, b, i) && TablesOk(a.steps, a.attempts, a.jobs)
    ensures SamePast(a.steps, a.jobs, b.steps, b.jobs, i)
  {
  }

  /** Resume equivalence: in any history of stopped and restarted runs, every prompt that any run submitted for a
      step is the same text as every other run's prompt for that step. */
  lemma RestartsKeepPrompts(runs: seq<Run>, n: nat, p: nat, m: nat, q: nat)
    requires History(runs) && n <= m < |runs|
    requires p < |runs[n].tr| && q < |runs[m].tr| && runs[n].tr[p].Submit? && runs[m].tr[q].Submit?
    requires runs[n].tr[p].step == runs[m].tr[q].step
    ensures runs[n].tr[p].prompt == runs[m].tr[q].prompt
  {
    var a, b := runs[n], runs[m];
    var i := a.tr[p].step;
    assert RunSafe(a) && RunSafe(b);
    PromptSubmitted(a, p);
    LaterKeepDone(runs, n, m, i);
    SamePastOfDone(a, b, i);
    hide History, SameDone;
    RunsAgreeOnPrompts(a, p, b, q);
  }

  lemma PromptSubmitted(r: Run, p: nat)
    requires RunSafe(r) && p < |r.tr| && r.tr[p].Submit?
    ensures r.tr[p].step < |r.steps| && TablesOk(r.steps, r.attempts, r.jobs)
    ensures forall j :: 0 <= j < r.tr[p].step ==> r.steps[j].status == Succeeded
  {
  }

  // ---- Preparing a run ----

  /** Restarting gives every step that has any history a number above all its recorded attempts. */
  lemma PreparedRowOk(steps: seq<Step>, attempts: map<AttemptKey, Attempt>, jobs: map<nat, Job>, i: nat)
    requires TablesOk(steps, attempts, jobs) && i < |steps|
    ensures TablesOk(steps[i := PreparedRow(steps[i], exists k :: k in attempts && k.step == i)], attempts, jobs)
  {
    var has := exists k :: k in attempts && k.step == i;
    var s := PreparedRow(steps[i], has);
    assert NumberedRow(steps[i]);
    var steps' := steps[i := s];
    forall k | k in attempts
      ensures k.step < |steps'| && k.number <= steps'[k.step].attempt
      ensures steps'[k.step].status == Pending ==> k.number < steps'[k.step].attempt
    {
      assert k.number <= steps[k.step].attempt;
      assert k.step == i ==> has;
    }
  }
}
