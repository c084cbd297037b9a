/** Segments to turns and turns to tool runs (crates/shared_ui/activity_segment.js). */
module TimelineTurns {
  import opened Common
  import opened MaximalRuns
  import opened Timeline

  predicate IsUserSegment(s: Segment) {
    s.Chat? && s.message.role == User
  }

  function ItemCount(s: Segment): nat {
    match s
    case Chat(_) => 0
    case Tools(_, items, _, _, _, _, _) => |items|
    case Single(_) => 1
  }

  function StartOf(s: Segment): Option<int> {
    match s
    case Chat(m) => m.time
    case Tools(_, _, start, _, _, _, _) => start
    case Single(m) => m.time
  }

  function EndOf(s: Segment): Option<int> {
    match s
    case Chat(m) => m.time
    case Tools(_, _, _, end, _, _, _) => end
    case Single(m) => m.time
  }

  function Earlier(t: Option<int>, u: Option<int>): Option<int> {
    if u.Some? && (t.None? || u.value < t.value) then u else t
  }

  function Later(t: Option<int>, u: Option<int>): Option<int> {
    if u.Some? && (t.None? || u.value > t.value) then u else t
  }

  function CountItems(ss: seq<Segment>): nat {
    if ss == [] then 0 else CountItems(ss[..|ss| - 1]) + ItemCount(ss[|ss| - 1])
  }

  function FirstTime(ss: seq<Segment>): Option<int> {
    if ss == [] then None else Earlier(FirstTime(ss[..|ss| - 1]), StartOf(ss[|ss| - 1]))
  }

  function LastTime(ss: seq<Segment>): Option<int> {
    if ss == [] then None else Later(LastTime(ss[..|ss| - 1]), EndOf(ss[|ss| - 1]))
  }

  /** A segment starts with its message or its first tool. */
  predicate StartsAt(s: Segment, t: Option<int>) {
    (s.Chat? && t == s.message.time) || (s.Single? && t == s.item.time) || (s.Tools? && t == s.start)
  }

  predicate EndsAt(s: Segment, t: Option<int>) {
    (s.Chat? && t == s.message.time) || (s.Single? && t == s.item.time) || (s.Tools? && t == s.end)
  }

  /** The earliest start and the latest end of the segments, as far as they have any. */
  ghost predicate AreBounds(ss: seq<Segment>, first: Option<int>, last: Option<int>) {
    && (forall s, t: int :: s in ss && StartsAt(s, Some(t)) ==> first.Some? && first.value <= t)
    && (forall s, t: int :: s in ss && EndsAt(s, Some(t)) ==> last.Some? && last.value >= t)
    && (first.Some? ==> exists s :: s in ss && StartsAt(s, first))
    && (last.Some? ==> exists s :: s in ss && EndsAt(s, last))
  }

  lemma StartsAndEnds(s: Segment)
    ensures forall t :: StartsAt(s, t) <==> t == StartOf(s)
    ensures forall t :: EndsAt(s, t) <==> t == EndOf(s)
  {
  }

  lemma BoundsAre(ss: seq<Segment>)
    ensures AreBounds(ss, FirstTime(ss), LastTime(ss))
  {
    TimesBound(ss);
    hide FirstTime, LastTime, StartOf, EndOf, StartsAt, EndsAt;
    forall s
      ensures (forall t :: StartsAt(s, t) <==> t == StartOf(s)) && (forall t :: EndsAt(s, t) <==> t == EndOf(s))
    {
      StartsAndEnds(s);
    }
  }

  /** The time bounds of a list of segments are bounds, and are reached. */
  lemma {:induction false} TimesBound(ss: seq<Segment>)
    ensures forall s :: s in ss && StartOf(s).Some? ==> FirstTime(ss).Some? && FirstTime(ss).value <= StartOf(s).value
    ensures forall s :: s in ss && EndOf(s).Some? ==> LastTime(ss).Some? && LastTime(ss).value >= EndOf(s).value
    ensures FirstTime(ss).Some? ==> exists s :: s in ss && StartOf(s) == FirstTime(ss)
    ensures LastTime(ss).Some? ==> exists s :: s in ss && EndOf(s) == LastTime(ss)
  {
    if ss != [] {
      var front, s := ss[..|ss| - 1], ss[|ss| - 1];
      TimesBound(front);
      assert ss == front + [s];
      hide StartOf, EndOf, FirstTime, LastTime;
      TimesStep(ss);
    }
  }

  lemma TimesStep(ss: seq<Segment>)
    requires ss != []
    ensures FirstTime(ss) == Earlier(FirstTime(ss[..|ss| - 1]), StartOf(ss[|ss| - 1]))
    ensures LastTime(ss) == Later(LastTime(ss[..|ss| - 1]), EndOf(ss[|ss| - 1]))
  {
  }

  // ---- buildTurnGroups ----

  datatype Turn = Turn(user: Option<Segment>, segments: seq<Segment>, start: Option<int>, end: Option<int>,
                       toolCount: nat, running: bool)

  function Begin(user: Option<Segment>): Turn {
    Turn(user, [], None, None, 0, false)
  }

  function Put(t: Turn, s: Segment): Turn {
    t.(segments := t.segments + [s], start := Earlier(t.start, StartOf(s)), end := Later(t.end, EndOf(s)),
       toolCount := t.toolCount + ItemCount(s))
  }

  /** A user segment opens a turn; any other one joins the last turn. */
  function AddTurn(turns: seq<Turn>, s: Segment): seq<Turn> {
    if IsUserSegment(s) then turns + [Begin(Some(s))]
    else if turns == [] then [Put(Begin(None), s)]
    else turns[..|turns| - 1] + [Put(turns[|turns| - 1], s)]
  }

  function Turns(ss: seq<Segment>): seq<Turn> {
    if ss == [] then [] else AddTurn(Turns(ss[..|ss| - 1]), ss[|ss| - 1])
  }

  lemma TurnsStep(ss: seq<Segment>)
    ensures ss == [] ==> Turns(ss) == []
    ensures ss != [] ==> Turns(ss) == AddTurn(Turns(ss[..|ss| - 1]), ss[|ss| - 1])
  {
  }

  function MarkRunning(turns: seq<Turn>, lastRunning: bool): seq<Turn> {
    if turns == [] then [] else turns[..|turns| - 1] + [turns[|turns| - 1].(running := lastRunning)]
  }

  /** `buildTurnGroups` */
  method BuildTurnGroups(segments: seq<Segment>, isLastRunning: bool) returns (groups: seq<Turn>)
    ensures groups == MarkRunning(Turns(segments), isLastRunning)
  {
    groups := [];
    if |segments| == 0 {
      return;
    }
    hide Put, Begin, Turns, MarkRunning, IsUserSegment;
    TurnsStep([]);
    var current: Option<Turn> := None;
    var i := 0;
    while i < |segments|
      invariant 0 <= i <= |segments|
      invariant Turns(segments[..i]) == if current.Some? then groups + [current.value] else groups
      invariant current.None? ==> groups == []
    {
      var seg := segments[i];
      assert segments[..i + 1][..i] == segments[..i];
      TurnsStep(segments[..i + 1]);
      i := i + 1;
      if IsUserSegment(seg) {
        if current.Some? {
          groups := groups + [current.value];
        }
        current := Some(Begin(Some(seg)));
        continue;
      }
      if current.None? {
        current := Some(Begin(None));
      }
      current := Some(Put(current.value, seg));
    }
    assert segments[..i] == segments;
    if current.Some? {
      groups := groups + [current.value];
    }
    NobodyRuns(segments);
    groups := MarkGroups(groups, isLastRunning);
  }

  /** The closing loop over the groups. */
  method MarkGroups(all: seq<Turn>, isLastRunning: bool) returns (groups: seq<Turn>)
    requires forall t :: t in all ==> !t.running
    ensures groups == MarkRunning(all, isLastRunning)
  {
    groups := all;
    var j := 0;
    while j < |groups|
      invariant 0 <= j <= |groups| == |all|
      invariant forall k :: 0 <= k < |all| ==>
        groups[k] == if k < j then all[k].(running := k == |all| - 1 && isLastRunning) else all[k]
    {
      groups := groups[j := groups[j].(running := j == |groups| - 1 && isLastRunning)];
      j := j + 1;
    }
    assert forall k :: 0 <= k < |all| - 1 ==> all[k] in all;
    assert groups == MarkRunning(all, isLastRunning);
  }

  lemma {:induction false} NobodyRuns(ss: seq<Segment>)
    ensures forall t :: t in Turns(ss) ==> !t.running
  {
    if ss != [] {
      NobodyRuns(ss[..|ss| - 1]);
    }
  }

  function Parts(t: Turn): seq<Segment> {
    (if t.user.Some? then [t.user.value] else []) + t.segments
  }

  function AllParts(turns: seq<Turn>): seq<Segment> {
    if turns == [] then [] else AllParts(turns[..|turns| - 1]) + Parts(turns[|turns| - 1])
  }

  ghost predicate GoodTurn(t: Turn) {
    && (t.user.Some? ==> t.user.value.Chat? && t.user.value.message.role == User)
    && (forall s :: s in t.segments ==> !(s.Chat? && s.message.role == User))
    && t.toolCount == CountItems(t.segments) && t.start == FirstTime(t.segments) && t.end == LastTime(t.segments)
    && AreBounds(t.segments, t.start, t.end)
    && (t.user.None? ==> t.segments != [])
  }

  lemma PutIsGood(t: Turn, s: Segment)
    requires !IsUserSegment(s) && (GoodTurn(t) || t == Begin(None))
    ensures GoodTurn(Put(t, s)) && Parts(Put(t, s)) == Parts(t) + [s]
  {
    var all := t.segments + [s];
    BoundsAre(all);
    TimesStep(all);
    assert CountItems(all) == CountItems(t.segments) + ItemCount(s) by {
      assert all[..|all| - 1] == t.segments;
    }
    assert t.segments == [] ==> FirstTime(t.segments) == None && LastTime(t.segments) == None;
    hide AreBounds, FirstTime, LastTime, CountItems, ItemCount, StartOf, EndOf, Earlier, Later;
    assert all[..|all| - 1] == t.segments;
    assert GoodTurn(Put(t, s));
  }

  lemma BeginIsGood(s: Segment)
    requires IsUserSegment(s)
    ensures GoodTurn(Begin(Some(s))) && Parts(Begin(Some(s))) == [s]
  {
    BoundsAre([]);
  }

  lemma AllPartsSnoc(turns: seq<Turn>, t: Turn)
    ensures AllParts(turns + [t]) == AllParts(turns) + Parts(t)
  {
    assert (turns + [t])[..|turns|] == turns;
  }

  ghost predicate GoodTurns(turns: seq<Turn>) {
    && (forall t :: t in turns ==> GoodTurn(t))
    && (forall k :: 0 < k < |turns| ==> turns[k].user.Some?)
  }

  lemma AddTurnIsGood(turns: seq<Turn>, s: Segment)
    requires GoodTurns(turns)
    ensures GoodTurns(AddTurn(turns, s)) && AllParts(AddTurn(turns, s)) == AllParts(turns) + [s]
  {
    hide GoodTurn, AllParts, Parts, Put;
    if IsUserSegment(s) {
      BeginIsGood(s);
      AllPartsSnoc(turns, Begin(Some(s)));
    } else if turns == [] {
      PutFirst(s);
    } else {
      PutInLast(turns[..|turns| - 1], turns[|turns| - 1], s, turns);
    }
  }

  lemma PutFirst(s: Segment)
    requires !IsUserSegment(s)
    ensures GoodTurns([Put(Begin(None), s)]) && AllParts([Put(Begin(None), s)]) == AllParts([]) + [s]
  {
    hide GoodTurn, AllParts;
    PutIsGood(Begin(None), s);
    var t := Put(Begin(None), s);
    assert Parts(Begin(None)) == [] && Parts(t) == [s];
    AllPartsSnoc([], t);
    hide Parts, Put;
    assert [] + [t] == [t];
  }

  lemma PutInLast(before: seq<Turn>, last: Turn, s: Segment, turns: seq<Turn>)
    requires turns == before + [last] && GoodTurns(turns) && !IsUserSegment(s)
    ensures GoodTurns(before + [Put(last, s)]) && AllParts(before + [Put(last, s)]) == AllParts(turns) + [s]
  {
    assert last in turns && forall t :: t in before ==> t in turns;
    PutIsGood(last, s);
    AllPartsSnoc(before, last);
    AllPartsSnoc(before, Put(last, s));
    assert Put(last, s).user == last.user;
    assert turns[|before|] == last;
    hide GoodTurn, AllParts, Parts, Put;
  }

  /** The turns put together are the segments, in order; only the first may lack a user segment, no other
      user segment is inside a turn, and each turn carries its tool count and time bounds. */
  lemma {:induction false} TurnsCoverSegments(ss: seq<Segment>)
    ensures AllParts(Turns(ss)) == ss && GoodTurns(Turns(ss))
  {
    hide *;
    TurnsStep(ss);
    NoTurns();
    if ss != [] {
      TurnsCoverSegments(ss[..|ss| - 1]);
      AddTurnIsGood(Turns(ss[..|ss| - 1]), ss[|ss| - 1]);
      assert ss[..|ss| - 1] + [ss[|ss| - 1]] == ss;
    }
  }

  lemma NoTurns()
    ensures AllParts([]) == [] && GoodTurns([])
  {
  }

  function SumTurns(turns: seq<Turn>): nat {
    if turns == [] then 0 else SumTurns(turns[..|turns| - 1]) + turns[|turns| - 1].toolCount
  }

  lemma {:induction false} CountAppend(a: seq<Segment>, b: seq<Segment>)
    ensures CountItems(a + b) == CountItems(a) + CountItems(b)
  {
    if b == [] {
      assert a + b == a;
    } else {
      CountAppend(a, b[..|b| - 1]);
      assert (a + b)[..|a + b| - 1] == a + b[..|b| - 1];
    }
  }

  lemma PartsCount(t: Turn)
    requires GoodTurn(t)
    ensures CountItems(Parts(t)) == t.toolCount
  {
    if t.user.Some? {
      CountAppend([t.user.value], t.segments);
      assert [t.user.value][..0] == [];
      assert CountItems([t.user.value]) == 0;
    } else {
      assert [] + t.segments == t.segments;
    }
  }

  lemma {:induction false} TurnsCount(turns: seq<Turn>)
    requires forall t :: t in turns ==> GoodTurn(t)
    ensures SumTurns(turns) == CountItems(AllParts(turns))
  {
    if turns != [] {
      var front, t := turns[..|turns| - 1], turns[|turns| - 1];
      TurnsCount(front);
      PartsCount(t);
      CountAppend(AllParts(front), Parts(t));
    }
  }

  // ---- buildToolRuns ----

  datatype ToolRun = ToolRun(segments: seq<Segment>, toolCount: nat, start: Option<int>, end: Option<int>,
                             running: bool)

  function BothTools(): (Segment, Segment) -> bool {
    (a: Segment, b: Segment) => !a.Chat? && !b.Chat?
  }

  function ShowRun(run: seq<Segment>): ToolRun {
    ToolRun(run, CountItems(run), FirstTime(run), LastTime(run), false)
  }

  /** The maximal stretches without chat, as tool runs. */
  function ShowRuns(stretches: seq<seq<Segment>>): seq<ToolRun> {
    if stretches == [] then []
    else
      var s := stretches[|stretches| - 1];
      ShowRuns(stretches[..|stretches| - 1]) + (if s != [] && !s[0].Chat? then [ShowRun(s)] else [])
  }

  function MarkLast(runs: seq<ToolRun>, running: bool): seq<ToolRun> {
    if runs == [] then [] else runs[..|runs| - 1] + [runs[|runs| - 1].(running := running)]
  }

  function ToolRunsOf(ss: seq<Segment>): seq<ToolRun> {
    ShowRuns(Runs(ss, BothTools()))
  }

  /** Where the loop stands: the last stretch without chat is still open. */
  ghost predicate Collected(stretches: seq<seq<Segment>>, runs: seq<ToolRun>, current: Option<ToolRun>) {
    if current.Some? then
      && stretches != [] && stretches[|stretches| - 1] != [] && !LastOf(stretches).Chat?
      && !stretches[|stretches| - 1][0].Chat?
      && current.value == ShowRun(stretches[|stretches| - 1]) && runs == ShowRuns(stretches[..|stretches| - 1])
    else
      runs == ShowRuns(stretches) && (stretches != [] ==> stretches[|stretches| - 1] != [] && LastOf(stretches).Chat?)
  }

  function PutRun(r: ToolRun, s: Segment): ToolRun {
    r.(segments := r.segments + [s], toolCount := r.toolCount + ItemCount(s),
       start := Earlier(r.start, StartOf(s)), end := Later(r.end, EndOf(s)))
  }

  lemma ShowRunSnoc(run: seq<Segment>, s: Segment)
    ensures ShowRun(run + [s]) == PutRun(ShowRun(run), s)
  {
    assert (run + [s])[..|run|] == run;
  }

  lemma ShowRunsSnoc(stretches: seq<seq<Segment>>, run: seq<Segment>)
    ensures ShowRuns(stretches + [run])
            == ShowRuns(stretches) + (if run != [] && !run[0].Chat? then [ShowRun(run)] else [])
  {
    assert (stretches + [run])[..|stretches|] == stretches;
  }

  lemma CollectedRuns(stretches: seq<seq<Segment>>, runs: seq<ToolRun>, current: Option<ToolRun>)
    requires Collected(stretches, runs, current)
    ensures ShowRuns(stretches) == if current.Some? then runs + [current.value] else runs
  {
  }

  lemma ChatCollected(stretches: seq<seq<Segment>>, runs: seq<ToolRun>, current: Option<ToolRun>, s: Segment)
    requires Collected(stretches, runs, current) && s.Chat?
    ensures Collected(stretches + [[s]], if current.Some? then runs + [current.value] else runs, None)
  {
    CollectedRuns(stretches, runs, current);
    ShowRunsSnoc(stretches, [s]);
  }

  lemma ToolJoins(stretches: seq<seq<Segment>>, runs: seq<ToolRun>, current: ToolRun, s: Segment)
    requires Collected(stretches, runs, Some(current)) && !s.Chat?
    ensures stretches != [] && Collected(AddTo(stretches, s, true), runs, Some(PutRun(current, s)))
  {
    var run := stretches[|stretches| - 1];
    ShowRunSnoc(run, s);
    var next := AddTo(stretches, s, true);
    assert next[..|next| - 1] == stretches[..|stretches| - 1];
    assert next[|next| - 1] == run + [s];
    hide ShowRun, ShowRuns, PutRun;
  }

  lemma ToolOpens(stretches: seq<seq<Segment>>, runs: seq<ToolRun>, s: Segment)
    requires Collected(stretches, runs, None) && !s.Chat?
    ensures Collected(AddTo(stretches, s, false), runs, Some(PutRun(ShowRun([]), s)))
  {
    ShowRunSnoc([], s);
    assert [] + [s] == [s];
    assert (stretches + [[s]])[..|stretches|] == stretches;
    hide ShowRun, ShowRuns, PutRun;
  }

  lemma ToolCollected(stretches: seq<seq<Segment>>, runs: seq<ToolRun>, current: Option<ToolRun>, s: Segment)
    requires Collected(stretches, runs, current) && !s.Chat?
    ensures var joined := stretches != [] && stretches[|stretches| - 1] != [] && !LastOf(stretches).Chat?;
            joined == current.Some?
            && Collected(AddTo(stretches, s, joined), runs,
                         Some(PutRun(if current.Some? then current.value else ShowRun([]), s)))
  {
    if current.Some? {
      ToolJoins(stretches, runs, current.value, s);
    } else {
      ToolOpens(stretches, runs, s);
    }
    hide ShowRun, ShowRuns, PutRun, AddTo;
  }

  lemma NextStretches(ss: seq<Segment>, i: nat)
    requires i < |ss|
    ensures var before := Runs(ss[..i], BothTools());
            && (before != [] ==> before[|before| - 1] != [])
            && Runs(ss[..i + 1], BothTools())
                == AddTo(before, ss[i], before != [] && !LastOf(before).Chat? && !ss[i].Chat?)
  {
    assert ss[..i + 1] == ss[..i] + [ss[i]];
    RunsSnoc(ss[..i], ss[i], BothTools());
    RunsAreMaximal(ss[..i], BothTools());
    NoStretches();
  }

  lemma NoStretches()
    ensures Runs([], BothTools()) == []
  {
  }

  /** `buildToolRuns` */
  method BuildToolRuns(group: Turn) returns (runs: seq<ToolRun>)
    ensures runs == MarkLast(ToolRunsOf(group.segments), group.running)
  {
    if |group.segments| == 0 {
      NoStretches();
      return [];
    }
    runs := CollectRuns(group.segments);
    NoRunRuns(Runs(group.segments, BothTools()));
    runs := MarkRuns(runs, group.running);
  }

  method CollectRuns(segments: seq<Segment>) returns (runs: seq<ToolRun>)
    ensures runs == ToolRunsOf(segments)
  {
    runs := [];
    NoStretches();
    NothingCollected();
    var current: Option<ToolRun> := None;
    var i := 0;
    hide Runs, ShowRun, ShowRuns, AddTo, PutRun, Collected;
    while i < |segments|
      invariant 0 <= i <= |segments|
      invariant Collected(Runs(segments[..i], BothTools()), runs, current)
    {
      var seg := segments[i];
      ghost var before := Runs(segments[..i], BothTools());
      NextStretches(segments, i);
      i := i + 1;
      if seg.Chat? {
        ChatCollected(before, runs, current, seg);
        NewStretch(before, seg);
        if current.Some? {
          runs := runs + [current.value];
          current := None;
        }
        continue;
      }
      ToolCollected(before, runs, current, seg);
      if current.None? {
        current := Some(ToolRun([], 0, None, None, false));
        NothingShown();
      }
      current := Some(PutRun(current.value, seg));
    }
    assert segments[..i] == segments;
    CollectedRuns(Runs(segments, BothTools()), runs, current);
    if current.Some? {
      runs := runs + [current.value];
    }
  }

  /** The closing loop over the runs. */
  method MarkRuns(all: seq<ToolRun>, running: bool) returns (runs: seq<ToolRun>)
    requires forall r :: r in all ==> !r.running
    ensures runs == MarkLast(all, running)
  {
    runs := all;
    var j := 0;
    while j < |runs|
      invariant 0 <= j <= |runs| == |all|
      invariant forall k :: 0 <= k < |all| ==>
        runs[k] == if k < j then all[k].(running := running && k == |all| - 1) else all[k]
    {
      runs := runs[j := runs[j].(running := running && j == |runs| - 1)];
      j := j + 1;
    }
    assert forall k :: 0 <= k < |all| - 1 ==> all[k] in all;
    assert runs == MarkLast(all, running);
  }

  lemma NewStretch(stretches: seq<seq<Segment>>, s: Segment)
    ensures AddTo(stretches, s, false) == stretches + [[s]]
  {
  }

  lemma NothingCollected()
    ensures Collected([], [], None)
  {
  }

  lemma NothingShown()
    ensures ShowRun([]) == ToolRun([], 0, None, None, false)
  {
  }

  lemma {:induction false} NoRunRuns(stretches: seq<seq<Segment>>)
    ensures forall r :: r in ShowRuns(stretches) ==> !r.running
  {
    if stretches != [] {
      NoRunRuns(stretches[..|stretches| - 1]);
    }
  }

  // ---- Counting over all three passes ----

  function SumRuns(runs: seq<ToolRun>): nat {
    if runs == [] then 0 else SumRuns(runs[..|runs| - 1]) + runs[|runs| - 1].toolCount
  }

  lemma SumRunsSnoc(runs: seq<ToolRun>, r: ToolRun)
    ensures SumRuns(runs + [r]) == SumRuns(runs) + r.toolCount
  {
    assert (runs + [r])[..|runs|] == runs;
  }

  lemma {:induction false} ChatCountsNothing(run: seq<Segment>)
    requires forall s :: s in run ==> s.Chat?
    ensures CountItems(run) == 0
  {
    if run != [] {
      ChatCountsNothing(run[..|run| - 1]);
    }
  }

  /** A stretch is all tools or one chat segment. */
  lemma StretchKind(run: seq<Segment>)
    requires run != [] && Chained(run, BothTools())
    ensures run[0].Chat? ==> |run| == 1
    ensures !run[0].Chat? ==> forall s :: s in run ==> !s.Chat?
  {
    if |run| > 1 {
      assert BothTools()(run[0], run[1]);
      forall s | s in run ensures !s.Chat? {
        var i :| 0 <= i < |run| && run[i] == s;
        if i > 0 {
          assert BothTools()(run[i - 1], run[i]);
        }
      }
    }
  }

  lemma {:induction false} StretchesCount(stretches: seq<seq<Segment>>)
    requires Maximal(stretches, BothTools())
    ensures SumRuns(ShowRuns(stretches)) == CountItems(Concat(stretches))
  {
    if stretches != [] {
      var front, run := stretches[..|stretches| - 1], stretches[|stretches| - 1];
      StretchesCount(front);
      StretchKind(run);
      ShowRunsLast(front, run, stretches);
      hide ShowRuns, CountItems, SumRuns, Concat;
      CountAppend(Concat(front), run);
      if run[0].Chat? {
        assert forall s :: s in run ==> s == run[0];
        ChatCountsNothing(run);
      } else {
        SumRunsSnoc(ShowRuns(front), ShowRun(run));
      }
    } else {
      NothingCounted();
    }
  }

  lemma NothingCounted()
    ensures SumRuns(ShowRuns([])) == 0 == CountItems(Concat<Segment>([]))
  {
  }

  lemma ShowRunsLast(front: seq<seq<Segment>>, run: seq<Segment>, stretches: seq<seq<Segment>>)
    requires stretches == front + [run] && run != []
    ensures ShowRuns(stretches) == if run[0].Chat? then ShowRuns(front) else ShowRuns(front) + [ShowRun(run)]
    ensures Concat(stretches) == Concat(front) + run
  {
    assert stretches[..|stretches| - 1] == front;
  }

  lemma ToolRunsCount(ss: seq<Segment>)
    ensures SumRuns(ToolRunsOf(ss)) == CountItems(ss)
  {
    RunsAreMaximal(ss, BothTools());
    StretchesCount(Runs(ss, BothTools()));
  }

  predicate HasNoChat(run: seq<Segment>) {
    forall s :: s in run ==> !s.Chat?
  }

  function NoChat(): seq<Segment> -> bool { run => HasNoChat(run) }

  function SegmentLists(runs: seq<ToolRun>): seq<seq<Segment>> {
    if runs == [] then [] else SegmentLists(runs[..|runs| - 1]) + [runs[|runs| - 1].segments]
  }

  lemma SegmentListsSnoc(runs: seq<ToolRun>, r: ToolRun)
    ensures SegmentLists(runs + [r]) == SegmentLists(runs) + [r.segments]
  {
    assert (runs + [r])[..|runs|] == runs;
  }

  lemma {:induction false} ShownStretches(stretches: seq<seq<Segment>>)
    requires Maximal(stretches, BothTools())
    ensures SegmentLists(ShowRuns(stretches)) == Filter(stretches, NoChat())
  {
    if stretches != [] {
      var front, run := stretches[..|stretches| - 1], stretches[|stretches| - 1];
      ShownStretches(front);
      StretchKind(run);
      assert run[0] in run;
      assert NoChat()(run) <==> !run[0].Chat?;
      ShowRunsLast(front, run, stretches);
      hide ShowRuns, SegmentLists;
      SegmentListsSnoc(ShowRuns(front), ShowRun(run));
    }
  }

  /** The tool runs are, in order, exactly the maximal stretches of segments without chat. */
  lemma ToolRunsAreStretches(ss: seq<Segment>)
    ensures Maximal(Runs(ss, BothTools()), BothTools()) && Concat(Runs(ss, BothTools())) == ss
    ensures SegmentLists(ToolRunsOf(ss)) == Filter(Runs(ss, BothTools()), NoChat())
  {
    RunsAreMaximal(ss, BothTools());
    ShownStretches(Runs(ss, BothTools()));
  }

  // ---- Tool runs by their places ----

  /** A run shows the segments from `from` up to `to`, all of them tools: how many, and from when to when. */
  ghost predicate IsToolRun(ss: seq<Segment>, from: nat, to: nat, r: ToolRun) {
    && from < to <= |ss| && r.segments == ss[from..to]
    && (forall i :: from <= i < to ==> !ss[i].Chat?)
    && (from == 0 || ss[from - 1].Chat?) && (to == |ss| || ss[to].Chat?)
    && r.toolCount == CountItems(r.segments) && AreBounds(r.segments, r.start, r.end)
  }

  /** The runs stand one after the other, and every tool segment stands in one of them. */
  ghost predicate RunsAt(ss: seq<Segment>, runs: seq<ToolRun>, froms: seq<nat>, tos: seq<nat>) {
    RunsUpto(ss, runs, froms, tos, |ss|)
  }

  ghost predicate RunsUpto(ss: seq<Segment>, runs: seq<ToolRun>, froms: seq<nat>, tos: seq<nat>, end: nat) {
    && |froms| == |tos| == |runs| && end <= |ss|
    && (forall k :: 0 <= k < |runs| ==> IsToolRun(ss, froms[k], tos[k], runs[k]) && tos[k] <= end)
    && (forall k, l :: 0 <= k < l < |runs| ==> tos[k] <= froms[l])
    && (forall i :: 0 <= i < end && !ss[i].Chat? ==> exists k :: 0 <= k < |runs| && froms[k] <= i < tos[k])
  }

  /** The first `k` stretches. */
  lemma {:induction false} PlaceRuns(ss: seq<Segment>, stretches: seq<seq<Segment>>, cuts: seq<nat>, k: nat)
    returns (froms: seq<nat>, tos: seq<nat>)
    requires CutAt(ss, stretches, cuts) && Maximal(stretches, BothTools()) && k <= |stretches|
    ensures k < |cuts| && RunsUpto(ss, ShowRuns(stretches[..k]), froms, tos, cuts[k])
  {
    hide *;
    CutEnds(ss, stretches, cuts);
    if k == 0 {
      froms, tos := [], [];
      NoRunsYet(ss);
      assert stretches[..k] == [];
    } else {
      var front, stretch := stretches[..k - 1], stretches[k - 1];
      froms, tos := PlaceRuns(ss, stretches, cuts, k - 1);
      Piece(ss, stretches, cuts, k - 1);
      StretchPlace(ss, stretches, cuts, k - 1);
      assert stretches[..k] == front + [stretch];
      ShowRunsSnoc(front, stretch);
      AppendNothing(ShowRuns(front));
      if stretch[0].Chat? {
        ChatMore(ss, ShowRuns(front), froms, tos, cuts[k - 1], cuts[k]);
      } else {
        OneRunMore(ss, ShowRuns(front), ShowRun(stretch), froms, tos, cuts[k - 1], cuts[k]);
        froms, tos := froms + [cuts[k - 1]], tos + [cuts[k]];
      }
    }
  }

  lemma NoRunsYet(ss: seq<Segment>)
    ensures RunsUpto(ss, ShowRuns([]), [], [], 0)
  {
  }

  lemma ChatMore(ss: seq<Segment>, runs: seq<ToolRun>, froms: seq<nat>, tos: seq<nat>, from: nat, to: nat)
    requires RunsUpto(ss, runs, froms, tos, from) && from <= to <= |ss|
    requires forall i :: from <= i < to ==> ss[i].Chat?
    ensures RunsUpto(ss, runs, froms, tos, to)
  {
    hide IsToolRun;
  }

  lemma OneRunMore(ss: seq<Segment>, runs: seq<ToolRun>, r: ToolRun, f: seq<nat>, t: seq<nat>, from: nat, to: nat)
    requires RunsUpto(ss, runs, f, t, from) && from <= to <= |ss| && IsToolRun(ss, from, to, r)
    ensures RunsUpto(ss, runs + [r], f + [from], t + [to], to)
  {
    hide IsToolRun;
    var froms, tos := f + [from], t + [to];
    forall i | 0 <= i < to && !ss[i].Chat? ensures exists m :: 0 <= m < |froms| && froms[m] <= i < tos[m] {
      if i < from {
        var m :| 0 <= m < |f| && f[m] <= i < t[m];
        assert froms[m] == f[m] && tos[m] == t[m];
      } else {
        assert froms[|f|] <= i < tos[|f|];
      }
    }
  }

  /** Where one stretch stands. */
  lemma StretchPlace(ss: seq<Segment>, stretches: seq<seq<Segment>>, cuts: seq<nat>, k: nat)
    requires CutAt(ss, stretches, cuts) && Maximal(stretches, BothTools()) && k < |stretches|
    ensures stretches[k] != []
    ensures stretches[k][0].Chat? ==> forall i :: cuts[k] <= i < cuts[k + 1] ==> ss[i].Chat?
    ensures !stretches[k][0].Chat? ==> IsToolRun(ss, cuts[k], cuts[k + 1], ShowRun(stretches[k]))
  {
    var from, to, run := cuts[k], cuts[k + 1], stretches[k];
    Piece(ss, stretches, cuts, k);
    CutEnds(ss, stretches, cuts);
    assert Chained(run, BothTools());
    StretchKind(run);
    forall i | from <= i < to ensures ss[i] == run[i - from] && ss[i] in run {
      assert ss[from..to][i - from] == ss[i];
    }
    if !run[0].Chat? {
      BoundsAre(run);
      StretchEnds(ss, stretches, cuts, k);
    } else {
      assert |run| == 1;
    }
  }

  lemma StretchEnds(ss: seq<Segment>, stretches: seq<seq<Segment>>, cuts: seq<nat>, k: nat)
    requires CutAt(ss, stretches, cuts) && Maximal(stretches, BothTools()) && k < |stretches|
    requires forall i :: cuts[k] <= i < cuts[k + 1] ==> !ss[i].Chat?
    ensures cuts[k] == 0 || ss[cuts[k] - 1].Chat?
    ensures cuts[k + 1] == |ss| || ss[cuts[k + 1]].Chat?
  {
    var from, to := cuts[k], cuts[k + 1];
    if from > 0 {
      CutWhereApart(ss, stretches, BothTools(), cuts, from);
    }
    if to < |ss| {
      CutWhereApart(ss, stretches, BothTools(), cuts, to);
      assert cuts[k + 1] in cuts;
    }
  }

  /** The tool runs of a turn, by place: the longest stretches of segments without chat, in order, none left out. */
  lemma ToolRunsByPlace(ss: seq<Segment>) returns (froms: seq<nat>, tos: seq<nat>)
    ensures RunsAt(ss, ToolRunsOf(ss), froms, tos)
  {
    var stretches := Runs(ss, BothTools());
    RunsAreMaximal(ss, BothTools());
    var cuts := RunsCut(stretches);
    CutEnds(ss, stretches, cuts);
    hide Runs, ShowRuns, RunsUpto, CutAt, Maximal;
    froms, tos := PlaceRuns(ss, stretches, cuts, |stretches|);
    assert stretches[..|stretches|] == stretches;
  }

  /** The tool counts of all tool runs of all turns. */
  function TimelineTools(turns: seq<Turn>): nat {
    if turns == [] then 0 else TimelineTools(turns[..|turns| - 1]) + SumRuns(ToolRunsOf(turns[|turns| - 1].segments))
  }

  lemma {:induction false} RunsOfTurnsCount(turns: seq<Turn>)
    requires forall t :: t in turns ==> GoodTurn(t)
    ensures TimelineTools(turns) == SumTurns(turns)
  {
    if turns != [] {
      RunsOfTurnsCount(turns[..|turns| - 1]);
      ToolRunsCount(turns[|turns| - 1].segments);
      assert turns[|turns| - 1] in turns;
    }
  }

  predicate IsTool(m: Message) { m.role == ToolSummary }

  function Tool(): Message -> bool { m => IsTool(m) }

  lemma {:induction false} SegmentItems(ms: seq<Message>)
    ensures CountItems(Scanned(ms).segments) + |PendingItems(Scanned(ms).pending)| == |Filter(ms, Tool())|
  {
    if ms != [] {
      SegmentItems(ms[..|ms| - 1]);
      NextItems(Scanned(ms[..|ms| - 1]), ms[|ms| - 1]);
      hide Next, CountItems;
    }
  }

  lemma CountSnoc(ss: seq<Segment>, s: Segment)
    ensures CountItems(ss + [s]) == CountItems(ss) + ItemCount(s)
  {
    assert (ss + [s])[..|ss|] == ss;
  }

  lemma ClosedItems(s: Scan)
    ensures CountItems(Closed(s)) == CountItems(s.segments) + |PendingItems(s.pending)|
  {
    if s.pending.Some? {
      CountSnoc(s.segments, Finalize(s.pending.value));
    }
  }

  lemma NextItems(s: Scan, m: Message)
    ensures var t := Next(s, m);
            CountItems(t.segments) + |PendingItems(t.pending)|
            == CountItems(s.segments) + |PendingItems(s.pending)| + (if IsTool(m) then 1 else 0)
  {
    ClosedItems(s);
    CountSnoc(s.segments, Single(m));
    CountSnoc(Closed(s), Chat(m));
    hide CountItems, Closed;
  }

  /** Over all three passes no tool is lost: the counts of all tool runs add up to the tool messages. */
  lemma ToolCountsAddUp(ms: seq<Message>)
    ensures TimelineTools(Turns(SegmentsOf(ms))) == |Filter(ms, Tool())|
  {
    SegmentItems(ms);
    ClosedItems(Scanned(ms));
    var ss := SegmentsOf(ms);
    TurnsCoverSegments(ss);
    TurnsCount(Turns(ss));
    RunsOfTurnsCount(Turns(ss));
  }

  /** Only the last run of the last turn is ever shown as running. */
  lemma OnlyLastRuns(ss: seq<Segment>, lastRunning: bool, k: nat, j: nat)
    requires k < |Turns(ss)|
    ensures var turns := MarkRunning(Turns(ss), lastRunning);
            && |turns| == |Turns(ss)|
            && (turns[k].running <==> lastRunning && k == |turns| - 1)
            && var runs := MarkLast(ToolRunsOf(turns[k].segments), turns[k].running);
               j < |runs| ==> (runs[j].running <==> turns[k].running && j == |runs| - 1)
  {
    NobodyRuns(ss);
    var turns := MarkRunning(Turns(ss), lastRunning);
    assert Turns(ss)[k] in Turns(ss);
    var all := ToolRunsOf(turns[k].segments);
    NoRunRuns(Runs(turns[k].segments, BothTools()));
    assert j < |all| ==> all[j] in all;
  }
}
