/** One workflow started, stopped and started again any number of times
    (crates/bridge/src/workflows.rs). */
module WorkflowRestart {
  import opened WorkflowRows
  import opened WorkflowInvariant
  import opened WorkflowEngine

  /** What a user asks for between two runs. */
  datatype Command = StartAgain | CancelWorkflow

  /** The tables still hold what the last run left. */
  ghost predicate Follows(runs: seq<Run>, steps: seq<Step>, jobs: map<nat, Job>) {
    runs != [] ==> KeepsDone(runs[|runs| - 1].steps, steps) && LogsKept(runs[|runs| - 1].jobs, jobs)
  }

  /** Every prompt for a step is the same in all runs. */
  ghost predicate PromptsAgree(runs: seq<Run>) {
    forall n, p, m, q ::
      && 0 <= n <= m < |runs| && 0 <= p < |runs[n].tr| && 0 <= q < |runs[m].tr|
      && runs[n].tr[p].Submit? && runs[m].tr[q].Submit? && runs[n].tr[p].step == runs[m].tr[q].step
      ==> runs[n].tr[p].prompt == runs[m].tr[q].prompt
  }

  lemma StillFollows(runs: seq<Run>, steps: seq<Step>, jobs: map<nat, Job>, steps': seq<Step>, jobs': map<nat, Job>)
    requires Follows(runs, steps, jobs) && KeepsDone(steps, steps') && LogsKept(jobs, jobs')
    ensures Follows(runs, steps', jobs')
  {
  }

  lemma OneMoreRun(runs: seq<Run>, r: Run)
    requires History(runs) && RunSafe(r) && Follows(runs, r.init, r.jobs)
    ensures History(runs + [r]) && Follows(runs + [r], r.steps, r.jobs)
  {
    hide RunSafe;
    var all := runs + [r];
    assert all[|runs|] == r;
    assert forall n :: 0 <= n < |runs| ==> all[n] == runs[n];
    if runs != [] {
      assert Continues(runs[|runs| - 1], r);
    }
  }

  lemma HistoryAgrees(runs: seq<Run>)
    requires History(runs)
    ensures PromptsAgree(runs)
  {
    forall n, p, m, q
      | && 0 <= n <= m < |runs| && 0 <= p < |runs[n].tr| && 0 <= q < |runs[m].tr|
        && runs[n].tr[p].Submit? && runs[m].tr[q].Submit? && runs[n].tr[p].step == runs[m].tr[q].step
      ensures runs[n].tr[p].prompt == runs[m].tr[q].prompt
    {
      hide History;
      RestartsKeepPrompts(runs, n, p, m, q);
    }
  }

  function Starts(answers: seq<bool>): nat {
    if answers == [] then 0 else Starts(answers[..|answers| - 1]) + (if answers[|answers| - 1] then 1 else 0)
  }

  lemma StartsSnoc(answers: seq<bool>, answer: bool)
    ensures Starts(answers + [answer]) == Starts(answers) + (if answer then 1 else 0)
  {
    assert (answers + [answer])[..|answers|] == answers;
  }

  /** However often a workflow is stopped, cancelled and started again, and whatever its jobs, the database and other
      threads do, each run there was is safe, each goes on from what the one before left, and all of them submit the
      same prompt for a step. The answers say which commands started a run. */
  method RunAgainAndAgain(runner: WorkflowRunner, commands: seq<Command>) returns (answers: seq<bool>)
    requires runner.store.Valid() && !runner.running && runner.past == []
    modifies runner, runner.store
    ensures runner.store.Valid() && !runner.running
    ensures |answers| == |commands| && |runner.past| == Starts(answers)
    ensures History(runner.past) && PromptsAgree(runner.past)
    ensures Follows(runner.past, runner.store.steps, runner.store.jobs)
  {
    hide RunSafe, RunComplete, Starts;
    var store := runner.store;
    answers := [];
    NoStarts();
    while |answers| < |commands|
      invariant |answers| <= |commands| && |runner.past| == Starts(answers)
      invariant store.Valid() && !runner.running
      invariant History(runner.past) && Follows(runner.past, store.steps, store.jobs)
    {
      ghost var past, steps, jobs := runner.past, store.steps, store.jobs;
      var started := false;
      match commands[|answers|] {
        case StartAgain =>
          var failed;
          started, failed := runner.Start();
          StillFollows(past, steps, jobs, store.steps, store.jobs);
          if started {
            ghost var prepared := store.steps;
            ghost var init;
            var outcome, closed;
            outcome, closed, init := runner.Execute();
            StillFollows(past, prepared, jobs, prepared, store.jobs);
            OneMoreRun(past, runner.Now(init));
          }
        case CancelWorkflow =>
          var done, failed := runner.Cancel();
          StillFollows(past, steps, jobs, store.steps, store.jobs);
      }
      StartsSnoc(answers, started);
      answers := answers + [started];
    }
    HistoryAgrees(runner.past);
  }

  lemma NoStarts()
    ensures Starts([]) == 0
  {
  }
}
