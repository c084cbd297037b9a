/** Mining describes its events as asked about and then allowed, and does not look at the order
    (crates/core/src/learn.rs). Decisions are listed newest first. */
module LearnOrder {
  import opened Common
  import opened Learn

  predicate RowIs(ds: seq<Decision>, i: int, event: string, action: string) {
    0 <= i < |ds| && ds[i].eventId == event && ds[i].action == action
  }

  /** Some question about the event is older than some permission for it. */
  ghost predicate AskedThenAllowed(ds: seq<Decision>, event: string) {
    exists i, j :: j < i && RowIs(ds, i, event, "ask") && RowIs(ds, j, event, "allow")
  }

  /** What the description promises of an event that counts. */
  ghost predicate AsDescribed(ds: seq<Decision>, event: string) {
    AskedThenAllowed(ds, event) && !Has(ds, event, "deny")
  }

  /** Every permission for the event is older than every question about it. */
  ghost predicate AllowedBeforeAsked(ds: seq<Decision>, event: string) {
    forall i, j :: RowIs(ds, i, event, "ask") && RowIs(ds, j, event, "allow") ==> j > i
  }

  lemma HasRow(ds: seq<Decision>, event: string, action: string)
    ensures Has(ds, event, action) <==> exists i :: RowIs(ds, i, event, action)
  {
    if Has(ds, event, action) {
      var i :| 0 <= i < |ds| && ds[i].eventId == event && ds[i].action == action;
      assert RowIs(ds, i, event, action);
    }
  }

  /** Every event as described counts; an event that counts is not as described exactly when every
      permission for it is older than every question about it. */
  lemma DescribedExactly(ds: seq<Decision>, event: string)
    ensures AsDescribed(ds, event) ==> event in Approved(ds)
    ensures event in Approved(ds) ==> (AsDescribed(ds, event) <==> !AllowedBeforeAsked(ds, event))
  {
    HasRow(ds, event, "ask");
    HasRow(ds, event, "allow");
    if AsDescribed(ds, event) {
      var i, j :| j < i && RowIs(ds, i, event, "ask") && RowIs(ds, j, event, "allow");
      assert ds[i].eventId in EventsIn(ds);
    }
    assert forall i :: !(RowIs(ds, i, event, "ask") && RowIs(ds, i, event, "allow"));
  }

  // ---- Groups ----

  ghost function DescribedMembers(ds: seq<Decision>, k: Key): set<string> {
    set e | e in Members(ds, k) && AsDescribed(ds, e)
  }

  ghost function LateMembers(ds: seq<Decision>, k: Key): set<string> {
    set e | e in Members(ds, k) && AllowedBeforeAsked(ds, e)
  }

  /** The groups that would be suggested if mining counted events as described. */
  ghost function DescribedKeys(ds: seq<Decision>, stored: set<Pattern>): set<Key> {
    set k | k in Keys(ds) && |DescribedMembers(ds, k)| >= MIN_SAMPLE_COUNT && PatternOf(k) !in stored
  }

  lemma MembersSplit(ds: seq<Decision>, k: Key)
    ensures Members(ds, k) == DescribedMembers(ds, k) + LateMembers(ds, k)
    ensures |Members(ds, k)| == |DescribedMembers(ds, k)| + |LateMembers(ds, k)|
  {
    forall e | e in Members(ds, k) ensures AsDescribed(ds, e) <==> !AllowedBeforeAsked(ds, e) {
      DescribedExactly(ds, e);
    }
    hide AsDescribed, AllowedBeforeAsked, Members;
    assert DescribedMembers(ds, k) !! LateMembers(ds, k);
  }

  /** Everything the description covers is suggested. What is suggested beyond it are exactly the groups that fewer
      than three of their events make, once the events allowed before they were asked about are left out. */
  lemma SuggestedBeyondDescription(ds: seq<Decision>, stored: set<Pattern>, k: Key)
    ensures k in DescribedKeys(ds, stored) ==> k in NewKeys(ds, stored)
    ensures k in NewKeys(ds, stored) ==>
              (k !in DescribedKeys(ds, stored) <==> |Members(ds, k)| - |LateMembers(ds, k)| < MIN_SAMPLE_COUNT)
  {
    MembersSplit(ds, k);
    hide Members, DescribedMembers, LateMembers;
  }

  // ---- Events that were allowed first ----

  /** For each event a permission and, newer, a question. */
  function LateAsks(es: seq<string>, k: Key): seq<Decision> {
    if es == [] then []
    else [Row(es[0], "ask", k), Row(es[0], "allow", k)] + LateAsks(es[1..], k)
  }

  function Row(event: string, action: string, k: Key): Decision {
    Decision(event, action, k.agent, k.tool, k.dir, 0)
  }

  lemma {:induction false} LateAsksHas(es: seq<string>, k: Key, event: string)
    ensures Has(LateAsks(es, k), event, "ask") <==> event in es
    ensures Has(LateAsks(es, k), event, "allow") <==> event in es
    ensures !Has(LateAsks(es, k), event, "deny")
    ensures event in EventsIn(LateAsks(es, k)) <==> event in es
    ensures event in es ==> FirstAsk(LateAsks(es, k), event) == Some(Row(event, "ask", k))
  {
    if es != [] {
      var rest := LateAsks(es[1..], k);
      LateAsksHas(es[1..], k, event);
      PairHas(Row(es[0], "ask", k), Row(es[0], "allow", k), rest, event);
      assert es == [es[0]] + es[1..];
      hide Has, EventsIn;
    }
  }

  lemma PairHas(a: Decision, b: Decision, rest: seq<Decision>, event: string)
    ensures forall action :: Has([a, b] + rest, event, action) <==>
              || Has(rest, event, action)
              || (a.eventId == event && a.action == action)
              || (b.eventId == event && b.action == action)
    ensures event in EventsIn([a, b] + rest) <==> event in EventsIn(rest) || a.eventId == event || b.eventId == event
    ensures FirstAsk([a, b] + rest, event) ==
            if a.eventId == event && a.action == "ask" then Some(a)
            else if b.eventId == event && b.action == "ask" then Some(b) else FirstAsk(rest, event)
  {
    var all := [a, b] + rest;
    assert all[0] == a && all[1] == b && forall i :: 2 <= i < |all| ==> all[i] == rest[i - 2];
    assert forall i :: 0 <= i < |rest| ==> rest[i] == all[i + 2];
    assert all[1..] == [b] + rest && ([b] + rest)[1..] == rest;
  }

  predicate Distinct(es: seq<string>) {
    forall i, j :: 0 <= i < j < |es| ==> es[i] != es[j]
  }

  lemma {:induction false} LateAsksOrder(es: seq<string>, k: Key, event: string)
    requires Distinct(es)
    ensures AllowedBeforeAsked(LateAsks(es, k), event)
  {
    if es != [] {
      var rest := LateAsks(es[1..], k);
      var all := LateAsks(es, k);
      LateAsksOrder(es[1..], k, event);
      LateAsksHas(es[1..], k, event);
      HasRow(rest, event, "ask");
      HasRow(rest, event, "allow");
      assert event == es[0] ==> event !in es[1..];
      PairOrder(es[0], k, rest, event);
    }
  }

  lemma PairOrder(first: string, k: Key, rest: seq<Decision>, event: string)
    requires AllowedBeforeAsked(rest, event)
    requires event == first ==> forall i :: !RowIs(rest, i, event, "ask") && !RowIs(rest, i, event, "allow")
    ensures AllowedBeforeAsked([Row(first, "ask", k), Row(first, "allow", k)] + rest, event)
  {
    var all := [Row(first, "ask", k), Row(first, "allow", k)] + rest;
    forall i, j | RowIs(all, i, event, "ask") && RowIs(all, j, event, "allow") ensures j > i {
      if i >= 2 {
        assert RowIs(rest, i - 2, event, "ask");
      }
      if j >= 2 {
        assert RowIs(rest, j - 2, event, "allow");
      }
    }
  }

  lemma {:induction false} DistinctCount(es: seq<string>)
    requires Distinct(es)
    ensures |set e | e in es| == |es|
  {
    if es != [] {
      var front := es[..|es| - 1];
      DistinctCount(front);
      assert es == front + [es[|es| - 1]];
      assert es[|es| - 1] !in front;
      assert (set e | e in es) == (set e | e in front) + {es[|es| - 1]};
    }
  }

  /** Three or more events of one kind, each allowed first and asked about afterwards, are suggested,
      although none of them is as described. */
  lemma LateAsksAreSuggested(es: seq<string>, k: Key, stored: set<Pattern>)
    requires Distinct(es) && |es| >= MIN_SAMPLE_COUNT && PatternOf(k) !in stored
    ensures k in NewKeys(LateAsks(es, k), stored)
    ensures DescribedMembers(LateAsks(es, k), k) == {}
  {
    var ds := LateAsks(es, k);
    forall e ensures e in Members(ds, k) <==> e in es {
      LateAsksHas(es, k, e);
    }
    forall e | e in Members(ds, k) ensures !AsDescribed(ds, e) {
      LateAsksOrder(es, k, e);
      DescribedExactly(ds, e);
    }
    assert Members(ds, k) == set e | e in es;
    DistinctCount(es);
    assert es[0] in Members(ds, k);
    LateAsksHas(es, k, es[0]);
    assert k in Keys(ds);
  }
}
