/** The observable events of one workflow run and the whole-run properties stated on them. */
module WorkflowTrace {
  import opened Common
  import opened WorkflowRows

  datatype Event =
    | CancelSet
    | Begin(step: nat, number: int)
    | Submit(step: nat, number: int, prompt: string)
    | Finish(step: nat, number: int, status: StepStatus)
    | FellBack(step: nat, from: Option<string>, to: string)
    | Advanced(after: nat)

  type Trace = seq<Event>

  // ---- Serial execution ----

  ghost predicate SucceededBefore(tr: Trace, p: nat, j: nat) {
    exists q :: 0 <= q < p && q < |tr| && tr[q].Finish? && tr[q].step == j && tr[q].status == Succeeded
  }

  /** An attempt begins only when every step ordered before it had succeeded, in this run or earlier. */
  ghost predicate Serial(init: seq<Step>, tr: Trace) {
    forall p, j :: 0 <= p < |tr| && tr[p].Begin? && 0 <= j < tr[p].step && j < |init| ==>
      init[j].status == Succeeded || SucceededBefore(tr, p, j)
  }

  // ---- Counting ----

  function Submits(tr: Trace, i: nat): nat {
    if tr == [] then 0
    else
      var e := tr[|tr| - 1];
      Submits(tr[..|tr| - 1], i) + (if e.Submit? && e.step == i then 1 else 0)
  }

  function Fallbacks(tr: Trace, i: nat): nat {
    if tr == [] then 0
    else
      var e := tr[|tr| - 1];
      Fallbacks(tr[..|tr| - 1], i) + (if e.FellBack? && e.step == i then 1 else 0)
  }

  predicate CancelSeen(tr: Trace) {
    CancelSet in tr
  }

  /** Jobs submitted after the cancel flag was set. */
  function SubmitsAfterCancel(tr: Trace): nat {
    if tr == [] then 0
    else
      var before := tr[..|tr| - 1];
      SubmitsAfterCancel(before) + (if tr[|tr| - 1].Submit? && CancelSeen(before) then 1 else 0)
  }

  // ---- Manual advance ----

  /** The last step begun since the last advance signal. */
  function OpenStep(tr: Trace): Option<nat> {
    if tr == [] then None
    else
      match tr[|tr| - 1]
      case Advanced(_) => None
      case Begin(i, _) => Some(i)
      case _ => OpenStep(tr[..|tr| - 1])
  }

  /** Every step but the first is begun only after an advance signal. */
  predicate Gated(tr: Trace) {
    tr == []
    || (var before := tr[..|tr| - 1];
        Gated(before)
        && (tr[|tr| - 1].Begin? ==> OpenStep(before) in {None, Some(tr[|tr| - 1].step)}))
  }

  /** Some step ordered after step `i` had not succeeded when the run started. */
  predicate SomethingLeft(init: seq<Step>, i: nat) {
    i < |init| && exists j :: 0 <= j < |init| && init[i].order < init[j].order && init[j].status != Succeeded
  }

  /** A run waits to be advanced in manual mode only, and only after a step that left something to do. */
  predicate WaitsForReason(init: seq<Step>, manual: bool, tr: Trace) {
    forall p :: 0 <= p < |tr| && tr[p].Advanced? ==> manual && SomethingLeft(init, tr[p].after)
  }

  // ---- Effect of one more event ----

  lemma Snoc(tr: Trace, e: Event)
    ensures (tr + [e])[..|tr|] == tr && (tr + [e])[|tr|] == e
  {
  }

  lemma AppendCounts(tr: Trace, e: Event)
    ensures forall i: nat :: Submits(tr + [e], i) == Submits(tr, i) + (if e.Submit? && e.step == i then 1 else 0)
    ensures forall i: nat :: Fallbacks(tr + [e], i) == Fallbacks(tr, i) + (if e.FellBack? && e.step == i then 1 else 0)
    ensures SubmitsAfterCancel(tr + [e]) == SubmitsAfterCancel(tr) + (if e.Submit? && CancelSeen(tr) then 1 else 0)
    ensures CancelSeen(tr + [e]) == (CancelSeen(tr) || e == CancelSet)
  {
    Snoc(tr, e);
  }

  lemma AppendGate(tr: Trace, e: Event)
    ensures OpenStep(tr + [e]) == (match e case Advanced(_) => None case Begin(i, _) => Some(i) case _ => OpenStep(tr))
    ensures Gated(tr + [e]) == (Gated(tr) && (e.Begin? ==> OpenStep(tr) in {None, Some(e.step)}))
  {
    Snoc(tr, e);
  }

  lemma AppendSucceeded(tr: Trace, e: Event, p: nat, j: nat)
    requires p <= |tr|
    ensures SucceededBefore(tr + [e], p, j) == SucceededBefore(tr, p, j)
    ensures SucceededBefore(tr + [e], |tr| + 1, j)
            == (SucceededBefore(tr, |tr|, j) || (e.Finish? && e.step == j && e.status == Succeeded))
  {
    var tr' := tr + [e];
    if SucceededBefore(tr, p, j) {
      var q :| 0 <= q < p && tr[q].Finish? && tr[q].step == j && tr[q].status == Succeeded;
      assert tr'[q] == tr[q];
    }
    if SucceededBefore(tr, |tr|, j) {
      var q :| 0 <= q < |tr| && tr[q].Finish? && tr[q].step == j && tr[q].status == Succeeded;
      assert tr'[q] == tr[q];
    }
    if e.Finish? && e.step == j && e.status == Succeeded {
      assert tr'[|tr|] == e;
    }
  }

  lemma AppendSerial(init: seq<Step>, tr: Trace, e: Event)
    requires Serial(init, tr)
    requires e.Begin? ==>
               forall j :: 0 <= j < e.step && j < |init| ==> init[j].status == Succeeded || SucceededBefore(tr, |tr|, j)
    ensures Serial(init, tr + [e])
  {
    var tr' := tr + [e];
    forall p, j | 0 <= p < |tr'| && tr'[p].Begin? && 0 <= j < tr'[p].step && j < |init|
      ensures init[j].status == Succeeded || SucceededBefore(tr', p, j)
    {
      AppendSucceeded(tr, e, p, j);
      if p < |tr| {
        assert tr'[p] == tr[p];
      }
    }
  }
}
