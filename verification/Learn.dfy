/** Mining suggestions out of approved questions (crates/core/src/learn.rs). */
module Learn {
  import opened Common

  const MIN_SAMPLE_COUNT := 3
  const MAX_DECISIONS := 10000

  /** `dir` is what the code makes of the file path: none, or its parent directory or `*`. */
  datatype Decision = Decision(eventId: string, action: string, agent: string, tool: string, dir: Option<string>,
                               at: int)

  datatype Key = Key(agent: string, tool: string, dir: Option<string>)

  datatype Pattern = Pattern(agent: string, tool: string, pattern: string)

  datatype Suggestion = Suggestion(pattern: Pattern, count: nat, samples: seq<string>, created: int)

  function PatternOf(k: Key): Pattern {
    Pattern(k.agent, k.tool, k.dir.GetOr("*"))
  }

  // ---- What should be suggested ----

  predicate Has(ds: seq<Decision>, event: string, action: string) {
    exists i :: 0 <= i < |ds| && ds[i].eventId == event && ds[i].action == action
  }

  /** Asked and allowed at some time, and never denied. */
  predicate IsApproved(ds: seq<Decision>, event: string) {
    Has(ds, event, "ask") && Has(ds, event, "allow") && !Has(ds, event, "deny")
  }

  function EventsIn(ds: seq<Decision>): set<string> {
    set i | 0 <= i < |ds| :: ds[i].eventId
  }

  function Approved(ds: seq<Decision>): set<string> {
    set e | e in EventsIn(ds) && IsApproved(ds, e)
  }

  /** The first question about the event. */
  function FirstAsk(ds: seq<Decision>, event: string): Option<Decision> {
    if ds == [] then None
    else if ds[0].eventId == event && ds[0].action == "ask" then Some(ds[0])
    else FirstAsk(ds[1..], event)
  }

  function KeyOfDecision(d: Decision): Key {
    Key(d.agent, d.tool, d.dir)
  }

  /** The approved events whose question has the key. */
  function Members(ds: seq<Decision>, k: Key): set<string> {
    set e | e in Approved(ds) && FirstAsk(ds, e).Some? && KeyOfDecision(FirstAsk(ds, e).value) == k
  }

  function Keys(ds: seq<Decision>): set<Key> {
    set e | e in Approved(ds) && FirstAsk(ds, e).Some? :: KeyOfDecision(FirstAsk(ds, e).value)
  }

  function NewKeys(ds: seq<Decision>, stored: set<Pattern>): set<Key> {
    set k | k in Keys(ds) && |Members(ds, k)| >= MIN_SAMPLE_COUNT && PatternOf(k) !in stored
  }

  lemma {:induction false} FirstAskSpec(ds: seq<Decision>, event: string)
    ensures match FirstAsk(ds, event)
            case None => !Has(ds, event, "ask")
            case Some(d) => d.eventId == event && d.action == "ask" && d in ds
  {
    if ds != [] {
      FirstAskSpec(ds[1..], event);
      assert forall i :: 0 < i < |ds| ==> ds[i] == ds[1..][i - 1];
    }
  }

  /** Every approved event counts in exactly one group. */
  lemma OneGroupEach(ds: seq<Decision>, event: string)
    requires event in Approved(ds)
    ensures FirstAsk(ds, event).Some?
    ensures forall k :: event in Members(ds, k) <==> k == KeyOfDecision(FirstAsk(ds, event).value)
    ensures KeyOfDecision(FirstAsk(ds, event).value) in Keys(ds)
  {
    FirstAskSpec(ds, event);
  }

  lemma {:induction false} FirstAskInserted(a: seq<Decision>, d: Decision, b: seq<Decision>, event: string)
    requires d.action != "ask"
    ensures FirstAsk(a + [d] + b, event) == FirstAsk(a + b, event)
  {
    if a == [] {
      assert a + [d] + b == [d] + b && a + b == b;
      assert ([d] + b)[1..] == b;
    } else {
      assert (a + [d] + b)[1..] == a[1..] + [d] + b;
      assert (a + b)[1..] == a[1..] + b;
      FirstAskInserted(a[1..], d, b, event);
    }
  }

  lemma HasInserted(a: seq<Decision>, d: Decision, b: seq<Decision>, event: string, action: string)
    ensures Has(a + [d] + b, event, action) <==> Has(a + b, event, action) || (d.eventId == event && d.action == action)
    ensures event in EventsIn(a + [d] + b) <==> event in EventsIn(a + b) || d.eventId == event
  {
    var all, rest := a + [d] + b, a + b;
    assert all[|a|] == d;
    assert forall i :: 0 <= i < |a| ==> all[i] == rest[i];
    assert forall i :: |a| <= i < |rest| ==> all[i + 1] == rest[i];
    assert forall i :: |a| < i < |all| ==> all[i] == rest[i - 1];
  }

  /** One denial, wherever it comes in the list, takes its event out of its group, and touches no other event
      and no other group. */
  lemma DenialRemovesOneEvent(a: seq<Decision>, d: Decision, b: seq<Decision>, k: Key)
    requires d.action == "deny"
    ensures Members(a + [d] + b, k) == Members(a + b, k) - {d.eventId}
  {
    forall e ensures e in Members(a + [d] + b, k) <==> e in Members(a + b, k) && e != d.eventId {
      HasInserted(a, d, b, e, "ask");
      HasInserted(a, d, b, e, "allow");
      HasInserted(a, d, b, e, "deny");
      FirstAskInserted(a, d, b, e);
      hide FirstAsk, Has, EventsIn;
    }
  }

  /** Two different groups print the same pattern exactly when one has no directory and the other `*`. */
  lemma SamePattern(a: Key, b: Key)
    ensures a != b && PatternOf(a) == PatternOf(b) <==>
            a.agent == b.agent && a.tool == b.tool && {a.dir, b.dir} == {None, Some("*")}
  {
    if a.agent == b.agent && a.tool == b.tool && {a.dir, b.dir} == {None, Some("*")} {
      assert None in {a.dir, b.dir} && Some("*") in {a.dir, b.dir};
    }
  }

  function Patterns(ks: set<Key>): set<Pattern> {
    set k | k in ks :: PatternOf(k)
  }

  /** Once the new patterns are stored, the same decisions suggest nothing. */
  lemma SecondRunFindsNothing(ds: seq<Decision>, stored: set<Pattern>)
    ensures NewKeys(ds, stored + Patterns(NewKeys(ds, stored))) == {}
  {
    forall k ensures k !in NewKeys(ds, stored + Patterns(NewKeys(ds, stored))) {
      if k in Keys(ds) && |Members(ds, k)| >= MIN_SAMPLE_COUNT && PatternOf(k) !in stored {
        assert k in NewKeys(ds, stored);
      }
    }
  }

  // ---- generate_suggestions ----

  /** The rows of one event, in order. */
  function OfEvent(ds: seq<Decision>, event: string): seq<Decision> {
    if ds == [] then []
    else OfEvent(ds[..|ds| - 1], event) + (if ds[|ds| - 1].eventId == event then [ds[|ds| - 1]] else [])
  }

  lemma OfEventSnoc(ds: seq<Decision>, d: Decision, event: string)
    ensures OfEvent(ds + [d], event) == OfEvent(ds, event) + (if d.eventId == event then [d] else [])
  {
    assert (ds + [d])[..|ds|] == ds;
  }

  method BuildEventActions(ds: seq<Decision>) returns (m: map<string, seq<Decision>>)
    ensures m.Keys == EventsIn(ds) && forall e :: e in m ==> m[e] == OfEvent(ds, e)
  {
    m := map[];
    var i := 0;
    assert EventsIn([]) == {} && forall e :: OfEvent([], e) == [];
    assert ds[..0] == [];
    hide OfEvent, EventsIn;
    while i < |ds|
      invariant 0 <= i <= |ds| && m.Keys == EventsIn(ds[..i])
      invariant forall e :: (if e in m then m[e] else []) == OfEvent(ds[..i], e)
    {
      var d := ds[i];
      assert ds[..i + 1] == ds[..i] + [d];
      forall e ensures OfEvent(ds[..i + 1], e) == OfEvent(ds[..i], e) + (if d.eventId == e then [d] else []) {
        OfEventSnoc(ds[..i], d, e);
      }
      EventsSnoc(ds[..i], d);
      m := m[d.eventId := (if d.eventId in m then m[d.eventId] else []) + [d]];
      i := i + 1;
    }
    assert ds[..i] == ds;
  }

  lemma EventsSnoc(ds: seq<Decision>, d: Decision)
    ensures EventsIn(ds + [d]) == EventsIn(ds) + {d.eventId}
  {
    var all := ds + [d];
    assert all[|ds|] == d;
    assert forall i :: 0 <= i < |ds| ==> all[i] == ds[i];
  }

  /** An event's own rows decide whether it is approved, and which question comes first. */
  lemma {:induction false} OfEventDecides(ds: seq<Decision>, event: string)
    ensures forall action :: Has(OfEvent(ds, event), event, action) == Has(ds, event, action)
    ensures forall i :: 0 <= i < |OfEvent(ds, event)| ==> OfEvent(ds, event)[i].eventId == event
    ensures FirstAsk(OfEvent(ds, event), event) == FirstAsk(ds, event)
  {
    if ds != [] {
      var front, d := ds[..|ds| - 1], ds[|ds| - 1];
      OfEventDecides(front, event);
      assert front + [d] == ds;
      var rows := OfEvent(front, event);
      assert rows + [] == rows;
      forall action ensures Has(OfEvent(ds, event), event, action) == Has(ds, event, action) {
        HasSnoc(front, d, event, action);
        HasSnoc(rows, d, event, action);
      }
      FirstAskSnoc(front, d, event);
      FirstAskSnoc(rows, d, event);
    }
  }

  lemma HasSnoc(ds: seq<Decision>, d: Decision, event: string, action: string)
    ensures Has(ds + [d], event, action) <==> Has(ds, event, action) || (d.eventId == event && d.action == action)
  {
    assert ds + [d] + [] == ds + [d] && ds + [] == ds;
    HasInserted(ds, d, [], event, action);
  }

  lemma {:induction false} FirstAskSnoc(ds: seq<Decision>, d: Decision, event: string)
    ensures FirstAsk(ds + [d], event) ==
            if FirstAsk(ds, event).Some? then FirstAsk(ds, event)
            else if d.eventId == event && d.action == "ask" then Some(d) else None
  {
    if ds == [] {
      assert ds + [d] == [d] && [d][1..] == [];
    } else {
      assert (ds + [d])[1..] == ds[1..] + [d];
      FirstAskSnoc(ds[1..], d, event);
    }
  }

  ghost predicate DistinctEvents(ds: seq<Decision>) {
    forall i, j :: 0 <= i < j < |ds| ==> ds[i].eventId != ds[j].eventId
  }

  method AnyAction(rows: seq<Decision>, event: string, action: string) returns (found: bool)
    requires forall i :: 0 <= i < |rows| ==> rows[i].eventId == event
    ensures found == Has(rows, event, action)
  {
    found := exists d :: d in rows && d.action == action;
    assert forall i :: 0 <= i < |rows| ==> rows[i] in rows;
  }

  /** The first question of every approved event, in some order. */
  method CollectApproved(ds: seq<Decision>, m: map<string, seq<Decision>>) returns (asked: seq<Decision>)
    requires m.Keys == EventsIn(ds) && forall e :: e in m ==> m[e] == OfEvent(ds, e)
    ensures DistinctEvents(asked) && EventsIn(asked) == Approved(ds)
    ensures forall d :: d in asked ==> FirstAsk(ds, d.eventId) == Some(d)
  {
    asked := [];
    assert EventsIn([]) == {};
    var left := m.Keys;
    ApprovedIs(ds);
    hide OfEvent, Has, FirstAsk, EventsIn, Approved;
    while left != {}
      invariant left <= m.Keys
      invariant DistinctEvents(asked) && EventsIn(asked) == Approved(ds) - left
      invariant forall d :: d in asked ==> FirstAsk(ds, d.eventId) == Some(d)
      decreases left
    {
      var event :| event in left;
      var rows := m[event];
      OfEventDecides(ds, event);
      FirstAskSpec(ds, event);
      var wasAsked := AnyAction(rows, event, "ask");
      var wasDenied := AnyAction(rows, event, "deny");
      var wasAllowed := AnyAction(rows, event, "allow");
      if wasAsked && wasAllowed && !wasDenied {
        var ask := FirstAsk(rows, event);
        if ask.Some? {
          EventsSnoc(asked, ask.value);
          StaysDistinct(asked, ask.value);
          asked := asked + [ask.value];
        }
      }
      left := left - {event};
    }
  }

  lemma ApprovedIs(ds: seq<Decision>)
    ensures forall e :: e in Approved(ds) <==> e in EventsIn(ds) && IsApproved(ds, e)
  {
  }

  lemma StaysDistinct(asked: seq<Decision>, d: Decision)
    requires DistinctEvents(asked) && d.eventId !in EventsIn(asked)
    ensures DistinctEvents(asked + [d])
  {
  }

  function WithKey(asked: seq<Decision>, k: Key): seq<Decision> {
    if asked == [] then []
    else
      var d := asked[|asked| - 1];
      WithKey(asked[..|asked| - 1], k) + (if KeyOfDecision(d) == k then [d] else [])
  }

  lemma WithKeySnoc(asked: seq<Decision>, d: Decision, k: Key)
    ensures WithKey(asked + [d], k) == WithKey(asked, k) + (if KeyOfDecision(d) == k then [d] else [])
  {
    assert (asked + [d])[..|asked|] == asked;
  }

  method GroupByKey(asked: seq<Decision>) returns (groups: map<Key, seq<Decision>>)
    ensures forall k :: k in groups <==> WithKey(asked, k) != []
    ensures forall k :: k in groups ==> groups[k] == WithKey(asked, k)
  {
    groups := map[];
    var i := 0;
    while i < |asked|
      invariant 0 <= i <= |asked|
      invariant forall k :: k in groups <==> WithKey(asked[..i], k) != []
      invariant forall k :: k in groups ==> groups[k] == WithKey(asked[..i], k)
    {
      var d := asked[i];
      var key := KeyOfDecision(d);
      assert asked[..i + 1] == asked[..i] + [d];
      forall k ensures WithKey(asked[..i + 1], k) == WithKey(asked[..i], k) + (if key == k then [d] else []) {
        WithKeySnoc(asked[..i], d, k);
      }
      groups := groups[key := (if key in groups then groups[key] else []) + [d]];
      i := i + 1;
    }
    assert asked[..i] == asked;
  }

  /** A group counts its events. */
  lemma {:induction false} WithKeyCounts(asked: seq<Decision>, k: Key)
    requires DistinctEvents(asked)
    ensures EventsIn(WithKey(asked, k)) == set d | d in asked && KeyOfDecision(d) == k :: d.eventId
    ensures DistinctEvents(WithKey(asked, k)) && |EventsIn(WithKey(asked, k))| == |WithKey(asked, k)|
  {
    if asked == [] {
      assert WithKey(asked, k) == [] && EventsIn([]) == {};
    } else {
      var front, d := asked[..|asked| - 1], asked[|asked| - 1];
      WithKeyCounts(front, k);
      assert front + [d] == asked;
      NewEvent(front, d, k);
      if KeyOfDecision(d) == k {
        EventsSnoc(WithKey(front, k), d);
        StaysDistinct(WithKey(front, k), d);
      } else {
        assert WithKey(asked, k) == WithKey(front, k);
      }
    }
  }

  lemma NewEvent(front: seq<Decision>, d: Decision, k: Key)
    requires DistinctEvents(front + [d])
    requires EventsIn(WithKey(front, k)) == set x | x in front && KeyOfDecision(x) == k :: x.eventId
    ensures DistinctEvents(front) && d.eventId !in EventsIn(WithKey(front, k))
    ensures (set x | x in front + [d] && KeyOfDecision(x) == k :: x.eventId)
            == EventsIn(WithKey(front, k)) + (if KeyOfDecision(d) == k then {d.eventId} else {})
  {
    var all := front + [d];
    assert all[|front|] == d && forall i :: 0 <= i < |front| ==> all[i] == front[i];
    forall x | x in front ensures x.eventId != d.eventId {
      var i :| 0 <= i < |front| && front[i] == x;
      assert all[i].eventId != all[|front|].eventId;
    }
  }

  /** The groups of first questions are the groups of approved events. */
  lemma GroupIsMembers(ds: seq<Decision>, asked: seq<Decision>, k: Key)
    requires DistinctEvents(asked) && EventsIn(asked) == Approved(ds)
    requires forall d :: d in asked ==> FirstAsk(ds, d.eventId) == Some(d)
    ensures EventsIn(WithKey(asked, k)) == Members(ds, k) && |WithKey(asked, k)| == |Members(ds, k)|
    ensures DistinctEvents(WithKey(asked, k))
    ensures k in Keys(ds) <==> WithKey(asked, k) != []
  {
    WithKeyCounts(asked, k);
    var group := WithKey(asked, k);
    EventsOfNothing(group);
    FirstAskIsKnown(ds, k);
    MembersAre(ds, k);
    EventsAre(asked);
    hide *;
    forall e ensures e in EventsIn(group) <==> e in Members(ds, k) {
      if e in Approved(ds) {
        var d :| d in asked && d.eventId == e;
      }
    }
  }

  lemma EventsAre(ds: seq<Decision>)
    ensures forall e :: e in EventsIn(ds) <==> exists d :: d in ds && d.eventId == e
  {
    assert forall i :: 0 <= i < |ds| ==> ds[i] in ds;
  }

  lemma EventsOfNothing(ds: seq<Decision>)
    ensures EventsIn(ds) == {} <==> ds == []
  {
    assert ds != [] ==> ds[0].eventId in EventsIn(ds);
  }

  lemma MembersAre(ds: seq<Decision>, k: Key)
    ensures forall e :: e in Members(ds, k) <==>
              e in Approved(ds) && FirstAsk(ds, e).Some? && KeyOfDecision(FirstAsk(ds, e).value) == k
  {
  }

  lemma FirstAskIsKnown(ds: seq<Decision>, k: Key)
    ensures k in Keys(ds) <==> Members(ds, k) != {}
  {
    if k in Keys(ds) {
      var e :| e in Approved(ds) && FirstAsk(ds, e).Some? && KeyOfDecision(FirstAsk(ds, e).value) == k;
      assert e in Members(ds, k);
    }
    if Members(ds, k) != {} {
      var e :| e in Members(ds, k);
    }
  }

  function EventIds(ds: seq<Decision>): seq<string> {
    if ds == [] then [] else [ds[0].eventId] + EventIds(ds[1..])
  }

  lemma {:induction false} EventIdsAre(ds: seq<Decision>)
    ensures |EventIds(ds)| == |ds| && forall i :: 0 <= i < |ds| ==> EventIds(ds)[i] == ds[i].eventId
  {
    if ds != [] {
      EventIdsAre(ds[1..]);
    }
  }

  /** A suggestion says what its group says. */
  ghost predicate SuggestionFor(s: Suggestion, ds: seq<Decision>, k: Key) {
    && s.pattern == PatternOf(k) && s.count == |Members(ds, k)|
    && |s.samples| == Min(10, s.count) && (forall e :: e in s.samples ==> e in Members(ds, k))
    && forall i, j :: 0 <= i < j < |s.samples| ==> s.samples[i] != s.samples[j]
  }

  lemma SamplesAreMembers(ds: seq<Decision>, group: seq<Decision>, k: Key, now: int)
    requires EventsIn(group) == Members(ds, k) && |group| == |Members(ds, k)| && DistinctEvents(group)
    ensures SuggestionFor(Suggestion(PatternOf(k), |group|, EventIds(group[..Min(10, |group|)]), now), ds, k)
  {
    var first := group[..Min(10, |group|)];
    EventIdsAre(first);
    forall e | e in EventIds(first) ensures e in Members(ds, k) {
      var i :| 0 <= i < |first| && EventIds(first)[i] == e;
      assert group[i].eventId == e;
      assert e in EventsIn(group);
    }
  }

  ghost predicate SuggestionsFor(suggestions: seq<Suggestion>, ds: seq<Decision>, keys: seq<Key>) {
    && |suggestions| == |keys|
    && (forall i :: 0 <= i < |keys| ==> SuggestionFor(suggestions[i], ds, keys[i]))
    && (forall i, j :: 0 <= i < j < |keys| ==> keys[i] != keys[j])
  }

  function KeySet(keys: seq<Key>): set<Key> {
    set k | k in keys
  }

  /** One suggestion for each of the keys, in some order, and no other. */
  ghost predicate SuggestsExactly(suggestions: seq<Suggestion>, ds: seq<Decision>, ks: set<Key>) {
    exists keys :: SuggestionsFor(suggestions, ds, keys) && KeySet(keys) == ks
  }

  /** The loop over the groups: one suggestion for every large group without a stored pattern. */
  method SuggestForGroups(groups: map<Key, seq<Decision>>, stored: set<Pattern>, now: int, ghost ds: seq<Decision>)
    returns (suggestions: seq<Suggestion>)
    requires groups.Keys == Keys(ds)
    requires forall k :: k in groups ==>
               EventsIn(groups[k]) == Members(ds, k) && |groups[k]| == |Members(ds, k)| && DistinctEvents(groups[k])
    ensures SuggestsExactly(suggestions, ds, NewKeys(ds, stored))
    ensures forall s :: s in suggestions ==> s.created == now && s.count >= MIN_SAMPLE_COUNT && s.pattern !in stored
  {
    suggestions := [];
    ghost var keys: seq<Key> := [];
    var left := groups.Keys;
    NewKeysAre(ds, stored);
    hide Keys, Members, NewKeys, EventsIn, SuggestionFor;
    while left != {}
      invariant left <= groups.Keys
      invariant SuggestionsFor(suggestions, ds, keys) && KeySet(keys) == NewKeys(ds, stored) - left
      invariant forall s :: s in suggestions ==> s.created == now && s.count >= MIN_SAMPLE_COUNT && s.pattern !in stored
      decreases left
    {
      var key :| key in left;
      var events := groups[key];
      left := left - {key};
      if |events| < MIN_SAMPLE_COUNT {
        continue;
      }
      if PatternOf(key) in stored {
        continue;
      }
      SamplesAreMembers(ds, events, key, now);
      OneMoreKey(suggestions, ds, keys, key,
                 Suggestion(PatternOf(key), |events|, EventIds(events[..Min(10, |events|)]), now));
      suggestions := suggestions + [Suggestion(PatternOf(key), |events|, EventIds(events[..Min(10, |events|)]), now)];
      keys := keys + [key];
    }
  }

  lemma NewKeysAre(ds: seq<Decision>, stored: set<Pattern>)
    ensures NewKeys(ds, stored) <= Keys(ds)
    ensures forall k :: k in NewKeys(ds, stored) <==>
              k in Keys(ds) && |Members(ds, k)| >= MIN_SAMPLE_COUNT && PatternOf(k) !in stored
  {
  }

  lemma OneMoreKey(suggestions: seq<Suggestion>, ds: seq<Decision>, keys: seq<Key>, key: Key, s: Suggestion)
    requires SuggestionsFor(suggestions, ds, keys) && SuggestionFor(s, ds, key) && key !in KeySet(keys)
    ensures SuggestionsFor(suggestions + [s], ds, keys + [key]) && KeySet(keys + [key]) == KeySet(keys) + {key}
  {
    hide SuggestionFor;
    assert forall i :: 0 <= i < |keys| ==> keys[i] in KeySet(keys);
  }

  function StoredPatterns(ss: seq<Suggestion>): set<Pattern> {
    set i | 0 <= i < |ss| :: ss[i].pattern
  }

  function Latest(ss: seq<Suggestion>): Option<int> {
    if ss == [] then None
    else
      var front := Latest(ss[..|ss| - 1]);
      var c := ss[|ss| - 1].created;
      if front.Some? && front.value > c then front else Some(c)
  }

  predicate NothingNew(ds: seq<Decision>, ss: seq<Suggestion>) {
    Latest(ss).Some? && forall d :: d in ds ==> d.at <= Latest(ss).value
  }

  lemma {:induction false} LatestIs(ss: seq<Suggestion>)
    ensures ss == [] <==> Latest(ss).None?
    ensures forall s :: s in ss ==> Latest(ss).Some? && s.created <= Latest(ss).value
    ensures Latest(ss).Some? ==> exists s :: s in ss && s.created == Latest(ss).value
  {
    if ss != [] {
      var front, s := ss[..|ss| - 1], ss[|ss| - 1];
      LatestIs(front);
      assert ss == front + [s];
    }
  }

  /** No decision is younger than every suggestion. */
  lemma NothingNewIs(ds: seq<Decision>, ss: seq<Suggestion>)
    ensures NothingNew(ds, ss) <==> exists s :: s in ss && forall d :: d in ds ==> d.at <= s.created
  {
    LatestIs(ss);
    hide Latest;
  }

  /** A row whose pattern is stored is ignored. */
  function Inserted(ss: seq<Suggestion>, s: Suggestion): seq<Suggestion> {
    if s.pattern in StoredPatterns(ss) then ss else ss + [s]
  }

  function InsertedAll(ss: seq<Suggestion>, added: seq<Suggestion>): seq<Suggestion> {
    if added == [] then ss else Inserted(InsertedAll(ss, added[..|added| - 1]), added[|added| - 1])
  }

  /** Inserting stores the patterns, and keeps the rows that were there. */
  lemma {:induction false} InsertedPatterns(ss: seq<Suggestion>, added: seq<Suggestion>)
    ensures StoredPatterns(InsertedAll(ss, added)) == StoredPatterns(ss) + StoredPatterns(added)
    ensures ss <= InsertedAll(ss, added)
  {
    if added != [] {
      var front, s := added[..|added| - 1], added[|added| - 1];
      InsertedPatterns(ss, front);
      assert front + [s] == added;
      PatternsSnoc(front, s);
      PatternsSnoc(InsertedAll(ss, front), s);
    }
  }

  /** From the decisions to the suggestions, before anything is stored. */
  method Mine(ds: seq<Decision>, stored: set<Pattern>, now: int) returns (result: seq<Suggestion>)
    ensures SuggestsExactly(result, ds, NewKeys(ds, stored)) && forall s :: s in result ==> s.created == now
  {
    var eventActions := BuildEventActions(ds);
    var asked := CollectApproved(ds, eventActions);
    var groups := GroupByKey(asked);
    forall k ensures EventsIn(WithKey(asked, k)) == Members(ds, k) && |WithKey(asked, k)| == |Members(ds, k)|
                     && DistinctEvents(WithKey(asked, k)) && (k in Keys(ds) <==> WithKey(asked, k) != [])
    {
      GroupIsMembers(ds, asked, k);
    }
    hide Keys, Members, NewKeys, EventsIn, WithKey, Approved, DistinctEvents;
    assert groups.Keys == Keys(ds);
    result := SuggestForGroups(groups, stored, now, ds);
  }

  class AuditStore {
    /** Newest first, as the query orders them. */
    var decisions: seq<Decision>
    var suggestions: seq<Suggestion>

    /** `INSERT OR IGNORE`: the row's id stands for its pattern. */
    method InsertSuggestion(s: Suggestion)
      modifies this`suggestions
      ensures suggestions == Inserted(old(suggestions), s)
    {
      if s.pattern !in StoredPatterns(suggestions) {
        suggestions := suggestions + [s];
      }
    }

    /** `generate_suggestions`: exactly one suggestion for every group of at least three approved events whose
        pattern is not stored; they are inserted, after which all their patterns are stored. */
    method GenerateSuggestions(now: int) returns (result: seq<Suggestion>)
      modifies this`suggestions
      ensures var ds := decisions[..Min(MAX_DECISIONS, |decisions|)];
              var newKeys := NewKeys(ds, StoredPatterns(old(suggestions)));
              if exists s :: s in old(suggestions) && forall d :: d in decisions ==> d.at <= s.created then
                result == [] && suggestions == old(suggestions)
              else
                && (forall s :: s in result ==> s.created == now)
                && SuggestsExactly(result, ds, newKeys)
                && suggestions == InsertedAll(old(suggestions), result)
                && StoredPatterns(suggestions) == StoredPatterns(old(suggestions)) + Patterns(newKeys)
    {
      NothingNewIs(decisions, suggestions);
      if NothingNew(decisions, suggestions) {
        return [];
      }
      hide Keys, Members, NewKeys, NothingNew, Patterns, StoredPatterns, SuggestsExactly, InsertedAll;
      var ds := decisions[..Min(MAX_DECISIONS, |decisions|)];
      result := Mine(ds, StoredPatterns(suggestions), now);
      PatternsOfKeys(result, ds, NewKeys(ds, StoredPatterns(suggestions)));
      InsertedPatterns(suggestions, result);
      Insert(result);
    }

    /** The loop that stores the new suggestions. */
    method Insert(result: seq<Suggestion>)
      modifies this`suggestions
      ensures suggestions == InsertedAll(old(suggestions), result)
    {
      var i := 0;
      while i < |result|
        invariant 0 <= i <= |result|
        invariant suggestions == InsertedAll(old(suggestions), result[..i])
      {
        assert result[..i + 1][..i] == result[..i];
        InsertSuggestion(result[i]);
        i := i + 1;
      }
      assert result[..i] == result;
    }
  }

  lemma PatternsSnoc(ss: seq<Suggestion>, s: Suggestion)
    ensures StoredPatterns(ss + [s]) == StoredPatterns(ss) + {s.pattern}
  {
    var all := ss + [s];
    assert all[|ss|] == s;
    assert forall i :: 0 <= i < |ss| ==> all[i] == ss[i];
  }

  lemma PatternsOfKeys(suggestions: seq<Suggestion>, ds: seq<Decision>, ks: set<Key>)
    requires SuggestsExactly(suggestions, ds, ks)
    ensures StoredPatterns(suggestions) == Patterns(ks)
  {
    var keys :| SuggestionsFor(suggestions, ds, keys) && KeySet(keys) == ks;
    forall p ensures p in StoredPatterns(suggestions) <==> p in Patterns(ks) {
      if p in StoredPatterns(suggestions) {
        var i :| 0 <= i < |suggestions| && suggestions[i].pattern == p;
        assert SuggestionFor(suggestions[i], ds, keys[i]) && keys[i] in KeySet(keys);
      }
      if p in Patterns(ks) {
        var k :| k in KeySet(keys) && PatternOf(k) == p;
        var i :| 0 <= i < |keys| && keys[i] == k;
        assert SuggestionFor(suggestions[i], ds, keys[i]);
      }
    }
  }
}
