/** Whose log a step's prompt carries and which part of it, by positions in the tables
    (crates/bridge/src/workflows.rs). Nothing here speaks of the context the engine keeps in memory. */
module WorkflowPrompts {
  import opened Common
  import opened Text
  import opened ContextText
  import opened WorkflowRows

  // ---- The log that is handed on ----

  predicate IsOutput(row: LogRow) {
    row.stream in {"stdout", "stderr"}
  }

  /** Where the output rows from `from` on stand, in order. */
  ghost predicate PositionsFrom(rows: seq<LogRow>, from: nat, at: seq<int>) {
    && (forall m :: 0 <= m < |at| ==> from <= at[m] < |rows| && IsOutput(rows[at[m]]))
    && (forall m, n :: 0 <= m < n < |at| ==> at[m] < at[n])
    && (forall p :: from <= p < |rows| && IsOutput(rows[p]) ==> p in at)
  }

  /** How many of `n` chunks a step hands on. */
  function HandedOn(strategy: string, n: nat): (kept: nat)
    ensures kept <= n
  {
    if strategy == "last_50_lines" then Min(n, 50)
    else if strategy == "last_100_lines" then Min(n, 100)
    else if strategy == "full_log" then n
    else 0
  }

  /** `chunks` are the last ones of the output rows at `at`. */
  ghost predicate LastOutput(rows: seq<LogRow>, at: seq<int>, chunks: seq<string>) {
    && PositionsFrom(rows, 0, at) && |chunks| <= |at|
    && forall m :: 0 <= m < |chunks| ==> chunks[m] == rows[at[|at| - |chunks| + m]].chunk
  }

  ghost predicate IsContextLog(rows: seq<LogRow>, strategy: string, log: string) {
    exists at: seq<int>, chunks: seq<string> ::
      LastOutput(rows, at, chunks) && |chunks| == HandedOn(strategy, |at|) && log == Join(chunks)
  }

  function OutputFrom(rows: seq<LogRow>, from: nat): (at: seq<int>)
    requires from <= |rows|
    decreases |rows| - from
  {
    if from == |rows| then []
    else (if IsOutput(rows[from]) then [from] else []) + OutputFrom(rows, from + 1)
  }

  lemma OnePositionMore(rows: seq<LogRow>, from: nat, rest: seq<int>)
    requires from < |rows| && PositionsFrom(rows, from + 1, rest)
    ensures if IsOutput(rows[from]) then PositionsFrom(rows, from, [from] + rest) else PositionsFrom(rows, from, rest)
  {
    hide IsOutput;
    var at := [from] + rest;
    assert at[0] == from && forall m :: 0 < m < |at| ==> at[m] == rest[m - 1];
    assert forall p :: p in rest ==> p in at;
  }

  lemma {:induction false} OutputFromSpec(rows: seq<LogRow>, from: nat)
    requires from <= |rows|
    ensures PositionsFrom(rows, from, OutputFrom(rows, from))
    decreases |rows| - from
  {
    if from < |rows| {
      OutputFromSpec(rows, from + 1);
      OnePositionMore(rows, from, OutputFrom(rows, from + 1));
      hide PositionsFrom;
    }
  }

  lemma {:induction false} OutputFromChunks(rows: seq<LogRow>, from: nat)
    requires from <= |rows| && PositionsFrom(rows, from, OutputFrom(rows, from))
    ensures var at, chunks := OutputFrom(rows, from), OutputChunks(rows[from..]);
            |at| == |chunks| && forall m :: 0 <= m < |at| ==> chunks[m] == rows[at[m]].chunk
    decreases |rows| - from
  {
    if from < |rows| {
      OutputFromSpec(rows, from + 1);
      OutputFromChunks(rows, from + 1);
      assert rows[from..][1..] == rows[from + 1..] && rows[from..][0] == rows[from];
    }
  }

  lemma LastOf(output: seq<string>, limit: nat, n: nat)
    requires n == Min(|output|, limit)
    ensures n <= |output| && LastChunks(output, limit) == output[|output| - n..]
  {
    if |output| <= limit {
      AllOrNone(output, n);
    }
  }

  lemma AllOrNone(output: seq<string>, n: nat)
    requires n <= |output|
    ensures n == |output| ==> output[|output| - n..] == output
    ensures n == 0 ==> output[|output| - n..] == []
  {
  }

  /** The chunks of the strategy, as the engine picks them. */
  function Picked(output: seq<string>, strategy: string): seq<string> {
    if strategy == "last_50_lines" then LastChunks(output, 50)
    else if strategy == "last_100_lines" then LastChunks(output, 100)
    else if strategy == "full_log" then output
    else []
  }

  lemma PickedLast(output: seq<string>, strategy: string, n: nat)
    requires n == HandedOn(strategy, |output|)
    ensures n <= |output| && Picked(output, strategy) == output[|output| - n..]
  {
    hide LastChunks;
    if strategy == "last_50_lines" {
      LastOf(output, 50, n);
    } else if strategy == "last_100_lines" {
      LastOf(output, 100, n);
    } else {
      AllOrNone(output, n);
    }
  }

  lemma SelectedLog(rows: seq<LogRow>, strategy: string)
    ensures LogsForContext(rows, strategy) == Join(Picked(OutputChunks(rows), strategy))
  {
    NothingJoined();
    hide OutputChunks, LastChunks, Join;
  }

  lemma NothingJoined()
    ensures Join([]) == ""
  {
  }

  lemma OutputEnds(rows: seq<LogRow>, n: nat)
    requires n <= |OutputChunks(rows)|
    ensures |OutputFrom(rows, 0)| == |OutputChunks(rows)|
    ensures LastOutput(rows, OutputFrom(rows, 0), OutputChunks(rows)[|OutputChunks(rows)| - n..])
  {
    hide *;
    OutputFromSpec(rows, 0);
    OutputFromChunks(rows, 0);
    assert rows[0..] == rows;
    Ends(rows, OutputFrom(rows, 0), OutputChunks(rows), n);
  }

  lemma Ends(rows: seq<LogRow>, at: seq<int>, output: seq<string>, n: nat)
    requires PositionsFrom(rows, 0, at) && n <= |output| == |at|
    requires forall m :: 0 <= m < |at| ==> output[m] == rows[at[m]].chunk
    ensures LastOutput(rows, at, output[|output| - n..])
  {
    hide IsOutput;
    var chunks := output[|output| - n..];
    assert forall m :: 0 <= m < |chunks| ==> chunks[m] == output[|output| - n + m];
  }

  lemma ShownBy(rows: seq<LogRow>, strategy: string, at: seq<int>, chunks: seq<string>)
    requires LastOutput(rows, at, chunks) && |chunks| == HandedOn(strategy, |at|)
    ensures IsContextLog(rows, strategy, Join(chunks))
  {
    hide LastOutput, HandedOn, Join;
  }

  lemma LogIsContextLog(rows: seq<LogRow>, strategy: string)
    ensures IsContextLog(rows, strategy, LogsForContext(rows, strategy))
  {
    hide *;
    var output := OutputChunks(rows);
    var n := HandedOn(strategy, |output|);
    SelectedLog(rows, strategy);
    PickedLast(output, strategy, n);
    OutputEnds(rows, n);
    ShownBy(rows, strategy, OutputFrom(rows, 0), output[|output| - n..]);
  }

  // ---- Redaction and bound ----

  /** Every line redacted on its own. */
  ghost predicate IsRedacted(log: string, policy: string, text: string) {
    if policy == "none" then text == log
    else exists lines: seq<string> :: LineByLine(Lines(log), lines) && text == Join(lines)
  }

  ghost predicate LineByLine(before: seq<string>, after: seq<string>) {
    |after| == |before| && forall m :: 0 <= m < |before| ==> IsRedactedLine(before[m], after[m])
  }

  /** Text over 65536 bytes is cut in front of its longest suffix within them. */
  ghost predicate IsBounded(text: string, bounded: string) {
    if Utf8Len(text) <= 65536 then bounded == text
    else exists k: nat :: LongestWithin(text, k, 65536)
                          && bounded == "[context truncated to last 65536 bytes]\n" + text[k..]
  }

  ghost predicate IsPromptWith(s: Step, log: string, prompt: string) {
    if s.strategy == "none" || log == "" then prompt == s.prompt
    else exists text, bounded :: IsRedacted(log, s.redaction, text) && IsBounded(text, bounded)
           && prompt == "[Previous step output (" + s.strategy + "):]\n" + bounded + "\n\n[Your task:]\n" + s.prompt
  }

  lemma BuiltPrompt(s: Step, log: string)
    ensures IsPromptWith(s, log, BuildPrompt(s.prompt, s.strategy, s.redaction, Some(log)).prompt)
  {
    if s.strategy != "none" && log != "" {
      var text := RedactContext(log, s.redaction);
      RedactedLines(log, s.redaction);
      BoundedText(text);
      hide IsRedacted, IsBounded, RedactContext, BoundContext;
      assert IsRedacted(log, s.redaction, text) && IsBounded(text, BoundContext(text));
    }
  }

  lemma RedactedLines(log: string, policy: string)
    ensures IsRedacted(log, policy, RedactContext(log, policy))
  {
    var before, after := Lines(log), RedactLines(Lines(log));
    forall m | 0 <= m < |before| ensures IsRedactedLine(before[m], after[m]) {
      RedactLineExactly(before[m]);
    }
    hide IsRedactedLine, RedactLine;
    assert LineByLine(before, after);
  }

  lemma BoundedText(text: string)
    ensures IsBounded(text, BoundContext(text))
  {
    if Utf8Len(text) > MAX_CONTEXT_BYTES {
      var k := KeptContextIsLongestSuffix(text);
      hide KeptContext, Utf8Len, LongestWithin;
    }
  }

  // ---- The step it comes from ----

  /** Some earlier step that `context_from_step` names has a job. */
  ghost predicate NamesEarlier(steps: seq<Step>, i: nat)
    requires i < |steps|
  {
    steps[i].contextFrom.Some? && exists j :: 0 <= j < i && HasJobOfOrder(steps[j], steps[i].contextFrom.value)
  }

  predicate HasJobOfOrder(s: Step, order: int) {
    s.jobId.Some? && s.order == order
  }

  /** Step `k` is the last one before `i` with a job and the order named, or the last one with a job if there is no
      such step. */
  ghost predicate IsSource(steps: seq<Step>, i: nat, k: nat)
    requires i < |steps|
  {
    k < i && steps[k].jobId.Some?
    && if NamesEarlier(steps, i) then IsLastOfOrder(steps, i, k, steps[i].contextFrom.value)
       else forall j :: k < j < i ==> steps[j].jobId.None?
  }

  ghost predicate IsLastOfOrder(steps: seq<Step>, n: nat, k: nat, order: int)
    requires n <= |steps|
  {
    k < n && HasJobOfOrder(steps[k], order) && forall j :: k < j < n ==> !HasJobOfOrder(steps[j], order)
  }

  /** The prompt of step `i` is built from the log of its source; without any earlier job it is the task alone. */
  ghost predicate CarriesLog(steps: seq<Step>, i: nat, jobs: map<nat, Job>, prompt: string)
    requires i < |steps|
  {
    if exists k :: 0 <= k < i && steps[k].jobId.Some? then
      exists k: nat, log :: IsSource(steps, i, k) && HandsOn(steps[k], jobs, log) && IsPromptWith(steps[i], log, prompt)
    else prompt == steps[i].prompt
  }

  ghost predicate HandsOn(s: Step, jobs: map<nat, Job>, log: string) {
    s.jobId.Some? && s.jobId.value in jobs && IsContextLog(jobs[s.jobId.value].logs, s.strategy, log)
  }

  lemma {:induction false} NothingBefore(steps: seq<Step>, n: nat, jobs: map<nat, Job>)
    requires n <= |steps| && forall k :: 0 <= k < n ==> steps[k].jobId.None?
    ensures ContextAfter(steps, n, jobs) == NO_CONTEXT
  {
    if n > 0 {
      NothingBefore(steps, n - 1, jobs);
    }
  }

  lemma {:induction false} PreviousIs(steps: seq<Step>, n: nat, jobs: map<nat, Job>, k: nat)
    requires k < n <= |steps| && steps[k].jobId.Some? && forall j :: k < j < n ==> steps[j].jobId.None?
    ensures ContextAfter(steps, n, jobs).previous == Some(StepLogs(steps[k], jobs))
  {
    if k < n - 1 {
      PreviousIs(steps, n - 1, jobs, k);
    }
  }

  lemma {:induction false} NotRemembered(steps: seq<Step>, n: nat, jobs: map<nat, Job>, order: int)
    requires n <= |steps| && forall k :: 0 <= k < n ==> !HasJobOfOrder(steps[k], order)
    ensures order !in ContextAfter(steps, n, jobs).byOrder
  {
    if n > 0 {
      NotRemembered(steps, n - 1, jobs, order);
      assert !HasJobOfOrder(steps[n - 1], order);
    }
  }

  lemma {:induction false} Remembered(steps: seq<Step>, n: nat, jobs: map<nat, Job>, order: int, k: nat)
    requires n <= |steps| && IsLastOfOrder(steps, n, k, order)
    ensures var c := ContextAfter(steps, n, jobs);
            order in c.byOrder && c.byOrder[order] == StepLogs(steps[k], jobs)
  {
    if k < n - 1 {
      Remembered(steps, n - 1, jobs, order, k);
      assert !HasJobOfOrder(steps[n - 1], order);
    }
  }

  lemma {:induction false} LastJob(steps: seq<Step>, n: nat) returns (k: nat)
    requires n <= |steps| && exists j :: 0 <= j < n && steps[j].jobId.Some?
    ensures k < n && steps[k].jobId.Some? && forall j :: k < j < n ==> steps[j].jobId.None?
  {
    if steps[n - 1].jobId.Some? {
      k := n - 1;
    } else {
      k := LastJob(steps, n - 1);
    }
  }

  lemma {:induction false} LastOfOrder(steps: seq<Step>, n: nat, order: int) returns (k: nat)
    requires n <= |steps| && exists j :: 0 <= j < n && HasJobOfOrder(steps[j], order)
    ensures IsLastOfOrder(steps, n, k, order)
  {
    if HasJobOfOrder(steps[n - 1], order) {
      k := n - 1;
    } else {
      k := LastOfOrder(steps, n - 1, order);
    }
  }

  lemma ContextOfSource(steps: seq<Step>, i: nat, jobs: map<nat, Job>) returns (k: nat)
    requires i < |steps| && exists j :: 0 <= j < i && steps[j].jobId.Some?
    ensures IsSource(steps, i, k)
    ensures ContextFor(steps[i], ContextAfter(steps, i, jobs)) == Some(StepLogs(steps[k], jobs))
  {
    if NamesEarlier(steps, i) {
      k := LastOfOrder(steps, i, steps[i].contextFrom.value);
      Remembered(steps, i, jobs, steps[i].contextFrom.value, k);
    } else {
      k := LastJob(steps, i);
      PreviousIs(steps, i, jobs, k);
      if steps[i].contextFrom.Some? {
        NotRemembered(steps, i, jobs, steps[i].contextFrom.value);
      }
    }
  }

  /** The prompt the tables give a step carries the log of its source. */
  lemma PromptCarriesLog(steps: seq<Step>, i: nat, jobs: map<nat, Job>)
    requires i < |steps|
    requires forall k :: 0 <= k < i && steps[k].jobId.Some? ==> steps[k].jobId.value in jobs
    ensures CarriesLog(steps, i, jobs, PromptFor(steps, i, jobs).prompt)
  {
    if exists k :: 0 <= k < i && steps[k].jobId.Some? {
      var k := ContextOfSource(steps, i, jobs);
      var log := StepLogs(steps[k], jobs);
      LogIsContextLog(jobs[steps[k].jobId.value].logs, steps[k].strategy);
      BuiltPrompt(steps[i], log);
      hide IsSource, IsContextLog, IsPromptWith, ContextAfter, ContextFor, BuildPrompt, LogsForContext;
      assert HandsOn(steps[k], jobs, log);
    } else {
      NothingBefore(steps, i, jobs);
    }
  }
}
