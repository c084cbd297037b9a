/** Rows of the workflow tables and the decisions the engine takes on them
    (crates/bridge/src/workflows.rs, crates/core/src/store/workflows.rs). */
module WorkflowRows {
  import opened Common
  import opened Text
  import opened ContextText

  datatype StepStatus = Pending | Running | Succeeded | Failed | Cancelled | Skipped
  datatype WorkflowStatus = Draft | Active | Paused | Done | Broken | Aborted
  datatype FailureClass = Timeout | ProcessFailed | SubmitFailed | CancelledByUser

  datatype Step = Step(
    order: int,
    prompt: string,
    strategy: string,
    contextFrom: Option<int>,
    redaction: string,
    provider: Option<string>,
    fallback: Option<string>,
    retryBudget: nat,
    status: StepStatus,
    jobId: Option<nat>,
    attempt: int,
    maxAttempts: int,
    failureClass: Option<FailureClass>)

  datatype AttemptKey = AttemptKey(step: nat, number: int)
  datatype Attempt = Attempt(status: StepStatus, jobId: Option<nat>, failureClass: Option<FailureClass>)
  datatype Job = Job(status: string, failureReason: Option<string>, logs: seq<LogRow>)

  /** The transitions `update_workflow_step_status` lets through; any other update affects no row. */
  predicate CanMove(from: StepStatus, to: StepStatus) {
    || from == to
    || (from == Pending && to in {Running, Succeeded, Failed, Cancelled, Skipped})
    || (from == Running && to in {Succeeded, Failed, Cancelled})
    || (from in {Failed, Cancelled, Skipped} && to == Pending)
  }

  /** By where a row moves to: it starts from pending, ends from pending or running, and comes back from any end but
      success, which is never left. */
  lemma MovesByTarget(from: StepStatus, to: StepStatus)
    ensures CanMove(from, to) <==>
            from == to || from in (match to
                                   case Pending => {Failed, Cancelled, Skipped}
                                   case Running => {Pending}
                                   case Skipped => {Pending}
                                   case _ => {Pending, Running})
  {
  }

  /** Any job status but these two, terminal or not, counts as a failed attempt. */
  function AttemptStatusFor(jobStatus: string): (r: StepStatus)
    ensures r == Succeeded <==> jobStatus == "succeeded"
    ensures r == Cancelled <==> jobStatus == "cancelled"
    ensures r == Failed <==> jobStatus !in {"succeeded", "cancelled"}
  {
    if jobStatus == "succeeded" then Succeeded
    else if jobStatus == "cancelled" then Cancelled
    else Failed
  }

  /** The reason names a timeout, the scanner, a deadline or idleness, in any case. */
  predicate NamesTimeout(reason: string) {
    || ContainsInAnyCase(reason, "timeout") || ContainsInAnyCase(reason, "scanner")
    || ContainsInAnyCase(reason, "deadline") || ContainsInAnyCase(reason, "idle")
  }

  function ClassifyFailure(jobStatus: string, failureReason: Option<string>): (r: FailureClass)
    ensures r == CancelledByUser <==> jobStatus == "cancelled"
    ensures r == Timeout <==> jobStatus != "cancelled" && failureReason.Some? && NamesTimeout(failureReason.value)
    ensures r != SubmitFailed
  {
    ContainsLower(failureReason.GetOr(""), "timeout");
    ContainsLower(failureReason.GetOr(""), "scanner");
    ContainsLower(failureReason.GetOr(""), "deadline");
    ContainsLower(failureReason.GetOr(""), "idle");
    var reason := AsciiLower(failureReason.GetOr(""));
    if jobStatus == "cancelled" then CancelledByUser
    else if Contains(reason, "timeout") || Contains(reason, "scanner") || Contains(reason, "deadline")
              || Contains(reason, "idle") then Timeout
    else ProcessFailed
  }

  predicate ShouldRetry(s: Step, cause: FailureClass) {
    cause != CancelledByUser && s.attempt < s.maxAttempts
  }

  /** `startable` are the providers the registry allows to start a new conversation. */
  predicate ShouldFallback(s: Step, cause: FailureClass, startable: set<string>) {
    && cause in {Timeout, ProcessFailed}
    && s.attempt >= s.maxAttempts
    && s.fallback.Some? && !IsBlank(s.fallback.value)
    && s.fallback != s.provider
    && s.fallback.value in startable
  }

  /** Something is left to try after a failure: an attempt, or, when the job ran, another provider. */
  predicate GoesOn(s: Step, cause: FailureClass, startable: set<string>) {
    || (s.attempt < s.maxAttempts && cause != CancelledByUser)
    || (cause in {Timeout, ProcessFailed} && s.fallback.Some? && s.fallback != s.provider
        && s.fallback.value in startable && !IsBlank(s.fallback.value))
  }

  /** The step ended without success, and nothing is left to try. */
  predicate GaveUp(s: Step, startable: set<string>) {
    s.status == Failed && s.failureClass.Some? && !GoesOn(s, s.failureClass.value, startable)
  }

  /** Every column of the row that a run never rewrites. */
  predicate SameDefinition(a: Step, b: Step) {
    && a.order == b.order && a.prompt == b.prompt && a.strategy == b.strategy
    && a.contextFrom == b.contextFrom && a.redaction == b.redaction && a.retryBudget == b.retryBudget
  }

  // ---- Attempt numbering ----

  predicate NumberedRow(s: Step) {
    1 <= s.attempt <= s.maxAttempts
  }

  /** No recorded attempt is numbered above its step's current one, and a pending step's number is unused. */
  ghost predicate HistoryOk(steps: seq<Step>, attempts: map<AttemptKey, Attempt>) {
    && (forall i :: 0 <= i < |steps| ==> NumberedRow(steps[i]))
    && (forall k :: k in attempts ==> k.step < |steps| && k.number <= steps[k.step].attempt)
    && (forall k :: k in attempts && steps[k.step].status == Pending ==> k.number < steps[k.step].attempt)
  }

  /** `prepare_workflow_step_retry` */
  function RetryRow(s: Step): Option<Step> {
    if s.attempt < s.maxAttempts && s.status == Failed
    then Some(s.(status := Pending, jobId := None, attempt := s.attempt + 1, failureClass := None))
    else None
  }

  /** `prepare_workflow_step_fallback` */
  function FallbackRow(s: Step, provider: string): Option<Step> {
    if s.status == Failed
    then Some(s.(status := Pending, jobId := None, provider := Some(provider), fallback := None,
                 attempt := s.maxAttempts + 1, maxAttempts := s.maxAttempts + 1, failureClass := None))
    else None
  }

  /** How a failed step comes back: one attempt further, or once with its fallback provider. */
  predicate Requeued(before: Step, after: Step) {
    && after.status == Pending && after.jobId.None? && after.failureClass.None?
    && (|| (after.attempt == before.attempt + 1 <= before.maxAttempts == after.maxAttempts
            && after.provider == before.provider && after.fallback == before.fallback)
        || (after.attempt == after.maxAttempts == before.maxAttempts + 1
            && before.fallback.Some? && before.fallback != before.provider
            && after.provider == before.fallback && after.fallback.None?))
  }

  /** `prepare_workflow_step_for_run` */
  function PreparedRow(s: Step, hasAttempts: bool): Step {
    var history := hasAttempts || s.jobId.Some?;
    var next := if history then s.maxAttempts + 1 else Max(s.attempt, 1);
    s.(status := Pending, jobId := None, attempt := next, failureClass := None,
       maxAttempts := if history then next + s.retryBudget else Max(s.maxAttempts, next))
  }

  /** How often a run can still submit this step's job: the attempts left and one fallback. */
  function Budget(s: Step): int {
    s.maxAttempts - s.attempt + 1 + FallbackLeft(s)
  }

  function FallbackLeft(s: Step): nat {
    if s.fallback.Some? then 1 else 0
  }

  /** A retry and a fallback each use up exactly one submission. */
  lemma RequeueUsesBudget(s: Step, cause: FailureClass, startable: set<string>, provider: string)
    requires NumberedRow(s)
    ensures RetryRow(s).Some? ==> Budget(RetryRow(s).value) == Budget(s) - 1
    ensures ShouldFallback(s, cause, startable) && FallbackRow(s, provider).Some?
            ==> Budget(FallbackRow(s, provider).value) == Budget(s) - 1
                && FallbackLeft(FallbackRow(s, provider).value) == 0 && FallbackLeft(s) == 1
  {
  }

  // ---- The context a step is given ----

  datatype Context = Context(byOrder: map<int, string>, previous: Option<string>)

  function LogsOf(jobs: map<nat, Job>, id: nat): seq<LogRow> {
    if id in jobs then jobs[id].logs else []
  }

  function StepLogs(s: Step, jobs: map<nat, Job>): string
    requires s.jobId.Some?
  {
    LogsForContext(LogsOf(jobs, s.jobId.value), s.strategy)
  }

  function Remember(c: Context, order: int, logs: string): Context {
    Context(c.byOrder[order := logs], Some(logs))
  }

  /** What a finished step adds to the context. */
  function Absorb(c: Context, s: Step, jobs: map<nat, Job>): Context {
    if s.jobId.Some? then Remember(c, s.order, StepLogs(s, jobs)) else c
  }

  const NO_CONTEXT := Context(map[], None)

  /** The context accumulated over the first `n` steps, read back from the tables alone. */
  function ContextAfter(steps: seq<Step>, n: nat, jobs: map<nat, Job>): Context
    requires n <= |steps|
  {
    if n == 0 then NO_CONTEXT else Absorb(ContextAfter(steps, n - 1, jobs), steps[n - 1], jobs)
  }

  /** The logs named by `context_from_step` if that step has any, else those of the step just before. */
  function ContextFor(s: Step, c: Context): Option<string> {
    if s.contextFrom.Some? && s.contextFrom.value in c.byOrder
    then Some(c.byOrder[s.contextFrom.value]) else c.previous
  }

  function PromptOf(s: Step, c: Context): StepPrompt {
    BuildPrompt(s.prompt, s.strategy, s.redaction, ContextFor(s, c))
  }

  /** The prompt of step `i` as a function of the tables. */
  function PromptFor(steps: seq<Step>, i: nat, jobs: map<nat, Job>): StepPrompt
    requires i < |steps|
  {
    PromptOf(steps[i], ContextAfter(steps, i, jobs))
  }

  /** Two table states give a step the same context: same definitions, and the jobs recorded for
      the earlier steps printed the same log. */
  ghost predicate SamePast(a: seq<Step>, ja: map<nat, Job>, b: seq<Step>, jb: map<nat, Job>, n: nat) {
    && n <= |a| && n <= |b|
    && forall k :: 0 <= k < n ==>
        && SameDefinition(a[k], b[k])
        && (a[k].jobId.Some? <==> b[k].jobId.Some?)
        && (a[k].jobId.Some? ==> LogsOf(ja, a[k].jobId.value) == LogsOf(jb, b[k].jobId.value))
  }

  lemma {:induction false} SamePastSameContext(a: seq<Step>, ja: map<nat, Job>, b: seq<Step>, jb: map<nat, Job>, n: nat)
    requires SamePast(a, ja, b, jb, n)
    ensures ContextAfter(a, n, ja) == ContextAfter(b, n, jb)
  {
    if n > 0 {
      SamePastSameContext(a, ja, b, jb, n - 1);
      assert SameDefinition(a[n - 1], b[n - 1]);
    }
  }

  /** Resume equivalence on the tables: whatever the job ids, attempt numbers and providers were,
      a step gets the same prompt once its predecessors' logs are the same. */
  lemma ResumedPromptIsUninterruptedPrompt(a: seq<Step>, ja: map<nat, Job>, b: seq<Step>, jb: map<nat, Job>, i: nat)
    requires i < |a| && i < |b| && SamePast(a, ja, b, jb, i) && SameDefinition(a[i], b[i])
    ensures PromptFor(a, i, ja) == PromptFor(b, i, jb)
  {
    SamePastSameContext(a, ja, b, jb, i);
  }
}
