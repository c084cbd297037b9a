/** What is suggested and stored, said on the rows of the decisions (crates/core/src/learn.rs).
    Decisions are listed newest first. */
module LearnShown {
  import opened Common
  import opened Learn

  predicate RowSays(ds: seq<Decision>, i: int, event: string, action: string) {
    0 <= i < |ds| && ds[i].eventId == event && ds[i].action == action
  }

  /** The first question listed for the event. */
  ghost predicate IsFirstAsk(ds: seq<Decision>, i: int, event: string) {
    RowSays(ds, i, event, "ask") && forall j :: j < i ==> !RowSays(ds, j, event, "ask")
  }

  /** The event was asked about and allowed and never denied, and its first question is about this agent, tool and
      directory. */
  ghost predicate Counts(ds: seq<Decision>, event: string, k: Key) {
    && (exists i :: IsFirstAsk(ds, i, event) && ds[i].agent == k.agent && ds[i].tool == k.tool && ds[i].dir == k.dir)
    && (exists i :: RowSays(ds, i, event, "allow")) && (forall i :: !RowSays(ds, i, event, "deny"))
  }

  ghost function Counted(ds: seq<Decision>, k: Key): set<string> {
    set i | 0 <= i < |ds| && Counts(ds, ds[i].eventId, k) :: ds[i].eventId
  }

  lemma HasIs(ds: seq<Decision>, event: string, action: string)
    ensures Has(ds, event, action) <==> exists i :: RowSays(ds, i, event, action)
  {
    if Has(ds, event, action) {
      var i :| 0 <= i < |ds| && ds[i].eventId == event && ds[i].action == action;
      assert RowSays(ds, i, event, action);
    }
  }

  lemma {:induction false} FirstAskAt(ds: seq<Decision>, event: string) returns (i: int)
    ensures FirstAsk(ds, event).Some? ==> IsFirstAsk(ds, i, event) && FirstAsk(ds, event) == Some(ds[i])
    ensures FirstAsk(ds, event).None? ==> forall j :: !RowSays(ds, j, event, "ask")
  {
    i := 0;
    if ds != [] && !(ds[0].eventId == event && ds[0].action == "ask") {
      i := FirstAskAt(ds[1..], event);
      i := i + 1;
      assert forall j :: RowSays(ds, j, event, "ask") ==> RowSays(ds[1..], j - 1, event, "ask");
    }
  }

  lemma OneFirstAsk(ds: seq<Decision>, i: int, j: int, event: string)
    requires IsFirstAsk(ds, i, event) && IsFirstAsk(ds, j, event)
    ensures i == j
  {
  }

  lemma FirstAskHasKey(ds: seq<Decision>, event: string, k: Key)
    ensures FirstAsk(ds, event).Some? && KeyOfDecision(FirstAsk(ds, event).value) == k <==>
            exists i :: IsFirstAsk(ds, i, event) && ds[i].agent == k.agent && ds[i].tool == k.tool && ds[i].dir == k.dir
  {
    var i := FirstAskAt(ds, event);
    hide FirstAsk;
    if j :| IsFirstAsk(ds, j, event) && ds[j].agent == k.agent && ds[j].tool == k.tool && ds[j].dir == k.dir {
      assert RowSays(ds, j, event, "ask");
      OneFirstAsk(ds, i, j, event);
    }
  }

  /** The events of a group, by rows. */
  lemma MembersExactly(ds: seq<Decision>, k: Key)
    ensures forall e :: e in Members(ds, k) <==> Counts(ds, e, k)
    ensures Members(ds, k) == Counted(ds, k)
  {
    forall e ensures e in Members(ds, k) <==> Counts(ds, e, k) {
      HasIs(ds, e, "ask");
      HasIs(ds, e, "allow");
      HasIs(ds, e, "deny");
      FirstAskHasKey(ds, e, k);
      MemberMeans(ds, e, k);
      hide Members, Has, FirstAsk, KeyOfDecision;
    }
    hide Members;
    forall e | Counts(ds, e, k) ensures exists i :: 0 <= i < |ds| && ds[i].eventId == e {
      var i :| RowSays(ds, i, e, "allow");
    }
    hide Counts;
  }

  lemma MemberMeans(ds: seq<Decision>, e: string, k: Key)
    ensures e in Members(ds, k) <==>
            && Has(ds, e, "ask") && Has(ds, e, "allow") && !Has(ds, e, "deny")
            && FirstAsk(ds, e).Some? && KeyOfDecision(FirstAsk(ds, e).value) == k
  {
    if Has(ds, e, "allow") {
      var i :| 0 <= i < |ds| && ds[i].eventId == e && ds[i].action == "allow";
      assert ds[i].eventId in EventsIn(ds);
    }
  }

  // ---- The suggestions ----

  predicate IsFor(p: Pattern, k: Key) {
    p.agent == k.agent && p.tool == k.tool && (k.dir == None ==> p.pattern == "*")
    && (k.dir.Some? ==> p.pattern == k.dir.value)
  }

  /** A suggestion counts the events of its group and names at most ten of them. */
  ghost predicate Says(s: Suggestion, ds: seq<Decision>, k: Key) {
    && IsFor(s.pattern, k) && s.count == |Counted(ds, k)|
    && |s.samples| == (if s.count > 10 then 10 else s.count)
    && (forall i :: 0 <= i < |s.samples| ==> Counts(ds, s.samples[i], k))
    && forall i, j :: 0 <= i < j < |s.samples| ==> s.samples[i] != s.samples[j]
  }

  /** At least three events, and no stored suggestion for the pattern. */
  ghost predicate IsWorth(ds: seq<Decision>, stored: set<Pattern>, k: Key) {
    |Counted(ds, k)| >= 3 && forall p :: p in stored ==> !IsFor(p, k)
  }

  /** Suggestion number i is for group number i; the groups are all different, and are all that are worth one. */
  ghost predicate ForGroups(result: seq<Suggestion>, ds: seq<Decision>, stored: set<Pattern>, keys: seq<Key>) {
    && |keys| == |result|
    && (forall i :: 0 <= i < |keys| ==> Says(result[i], ds, keys[i]))
    && (forall i, j :: 0 <= i < j < |keys| ==> keys[i] != keys[j])
    && (forall k :: k in keys <==> IsWorth(ds, stored, k))
  }

  lemma IsForPattern(p: Pattern, k: Key)
    ensures IsFor(p, k) <==> p == PatternOf(k)
  {
  }

  lemma NewKeysExactly(ds: seq<Decision>, stored: set<Pattern>)
    ensures forall k :: k in NewKeys(ds, stored) <==> IsWorth(ds, stored, k)
  {
    hide Members, Keys, IsFor, PatternOf, Counted;
    NewKeysAre(ds, stored);
    forall k ensures k in NewKeys(ds, stored) <==> IsWorth(ds, stored, k) {
      MembersExactly(ds, k);
      FirstAskIsKnown(ds, k);
      assert forall p :: IsFor(p, k) <==> p == PatternOf(k) by {
        forall p ensures IsFor(p, k) <==> p == PatternOf(k) {
          IsForPattern(p, k);
        }
      }
    }
  }

  lemma SaysFor(s: Suggestion, ds: seq<Decision>, k: Key)
    requires SuggestionFor(s, ds, k)
    ensures Says(s, ds, k)
  {
    hide Counts, Members, Counted, IsFor, PatternOf;
    MembersExactly(ds, k);
    IsForPattern(s.pattern, k);
  }

  /** What mining returns: one suggestion for each group worth one. */
  lemma SuggestedExactly(result: seq<Suggestion>, ds: seq<Decision>, stored: set<Pattern>) returns (keys: seq<Key>)
    requires SuggestsExactly(result, ds, NewKeys(ds, stored))
    ensures ForGroups(result, ds, stored, keys)
  {
    hide NewKeys, SuggestionFor, Says, IsWorth;
    keys :| SuggestionsFor(result, ds, keys) && KeySet(keys) == NewKeys(ds, stored);
    NewKeysExactly(ds, stored);
    forall i | 0 <= i < |keys| ensures Says(result[i], ds, keys[i]) {
      SaysFor(result[i], ds, keys[i]);
    }
    assert forall k :: k in keys <==> k in KeySet(keys);
  }

  // ---- The stored rows ----

  /** The rows after an insert: those before, then for every pattern that was not stored the first suggestion with it,
      in order. */
  ghost predicate StoredFrom(ss: seq<Suggestion>, added: seq<Suggestion>, rows: seq<Suggestion>, at: seq<nat>) {
    && |rows| == |ss| + |at| && rows[..|ss|] == ss
    && (forall m :: 0 <= m < |at| ==> at[m] < |added| && rows[|ss| + m] == added[at[m]])
    && (forall m, n :: 0 <= m < n < |at| ==> at[m] < at[n])
    && (forall i: nat :: i < |added| ==> (i in at <==> IsFirstOf(ss, added, i)))
  }

  ghost predicate IsFirstOf(ss: seq<Suggestion>, added: seq<Suggestion>, i: nat) {
    i < |added|
    && (forall s :: s in ss ==> s.pattern != added[i].pattern)
    && forall j :: 0 <= j < i ==> added[j].pattern != added[i].pattern
  }

  lemma {:induction false} StoredExactly(ss: seq<Suggestion>, added: seq<Suggestion>) returns (at: seq<nat>)
    ensures StoredFrom(ss, added, InsertedAll(ss, added), at)
  {
    if added == [] {
      at := [];
    } else {
      var front, s := added[..|added| - 1], added[|added| - 1];
      var before := StoredExactly(ss, front);
      InsertedPatterns(ss, front);
      assert added == front + [s];
      IsStored(ss, front, s);
      var rows := InsertedAll(ss, front);
      var isNew := s.pattern !in StoredPatterns(rows);
      at := if isNew then before + [|front|] else before;
      hide *;
      OneRowMore(ss, front, s, rows, before, isNew);
    }
  }

  lemma IsStored(ss: seq<Suggestion>, front: seq<Suggestion>, s: Suggestion)
    requires StoredPatterns(InsertedAll(ss, front)) == StoredPatterns(ss) + StoredPatterns(front)
    ensures s.pattern !in StoredPatterns(InsertedAll(ss, front)) <==> IsFirstOf(ss, front + [s], |front|)
    ensures InsertedAll(ss, front + [s]) == if s.pattern in StoredPatterns(InsertedAll(ss, front))
                                            then InsertedAll(ss, front) else InsertedAll(ss, front) + [s]
  {
    assert (front + [s])[..|front|] == front;
    hide InsertedAll;
    assert forall i :: 0 <= i < |ss| ==> ss[i].pattern in StoredPatterns(ss);
    assert forall i :: 0 <= i < |front| ==> front[i].pattern in StoredPatterns(front);
  }

  lemma FirstOfFront(ss: seq<Suggestion>, front: seq<Suggestion>, s: Suggestion)
    ensures forall i: nat :: i < |front| ==> (IsFirstOf(ss, front + [s], i) <==> IsFirstOf(ss, front, i))
  {
    var added := front + [s];
    assert forall i :: 0 <= i < |front| ==> added[i] == front[i];
  }

  lemma OneRowMore(ss: seq<Suggestion>, front: seq<Suggestion>, s: Suggestion, rows: seq<Suggestion>, before: seq<nat>,
                   isNew: bool)
    requires StoredFrom(ss, front, rows, before) && (isNew <==> IsFirstOf(ss, front + [s], |front|))
    ensures StoredFrom(ss, front + [s], if isNew then rows + [s] else rows,
                       if isNew then before + [|front|] else before)
  {
    FirstOfFront(ss, front, s);
    hide IsFirstOf;
    assert |front| !in before;
    if isNew {
      RowAppended(ss, front, s, rows, before);
    } else {
      assert forall m :: 0 <= m < |before| ==> (front + [s])[before[m]] == front[before[m]];
    }
  }

  lemma RowAppended(ss: seq<Suggestion>, front: seq<Suggestion>, s: Suggestion, rows: seq<Suggestion>,
                    before: seq<nat>)
    requires StoredFrom(ss, front, rows, before) && IsFirstOf(ss, front + [s], |front|)
    requires forall i: nat :: i < |front| ==> (IsFirstOf(ss, front + [s], i) <==> IsFirstOf(ss, front, i))
    ensures StoredFrom(ss, front + [s], rows + [s], before + [|front|])
  {
    hide IsFirstOf;
    var added, rows', at := front + [s], rows + [s], before + [|front|];
    assert rows'[..|ss|] == rows[..|ss|];
    forall m | 0 <= m < |at| ensures at[m] < |added| && rows'[|ss| + m] == added[at[m]] {
      if m < |before| {
        assert rows'[|ss| + m] == rows[|ss| + m] && added[at[m]] == front[before[m]];
      }
    }
    assert at[|before|] == |front|;
    forall i: nat | i < |added| ensures i in at <==> IsFirstOf(ss, added, i) {
      assert i in at <==> i in before || i == |front|;
    }
  }
}
