/** Aggregation of decisions into compact groups and of events into time windows (crates/bridge/src/routes.rs). */
module Aggregate {
  import opened Common
  import opened Text
  import opened MaximalRuns

  const WINDOW_SECS := 30

  /** A timestamp with what an RFC 3339 parser makes of it, in nanoseconds. */
  datatype Time = Time(text: string, instant: Option<int>)

  datatype Decision = Decision(eventId: string, agent: string, tool: string, action: string, ruleId: Option<string>,
                               time: Time, filePath: Option<string>)

  datatype CompactGroup = CompactGroup(key: string, count: nat, first: Time, last: Time, agent: string, tool: string,
                                       action: string, ruleId: Option<string>, sample: Option<string>,
                                       eventIds: seq<string>)

  datatype Item = Group(group: CompactGroup) | Single(decision: Decision)

  const READ_ONLY_TOOLS := {"Read", "ReadFile", "Glob", "Grep", "LS", "List", "TaskUpdate", "Bash"}

  predicate CanAggregate(action: string, tool: string) {
    action != "ask" && action != "deny" && tool in READ_ONLY_TOOLS
  }

  function Key(d: Decision): string {
    d.agent + "|" + (d.tool + "|" + (d.action + "|" + d.ruleId.GetOr("")))
  }

  /** `num_seconds().abs()`: whole seconds, cut towards zero. */
  function WholeSeconds(nanos: int): nat {
    (if nanos < 0 then -nanos else nanos) / 1_000_000_000
  }

  predicate Near(a: Time, b: Time) {
    a.instant.Some? && b.instant.Some? && WholeSeconds(a.instant.value - b.instant.value) <= WINDOW_SECS
  }

  predicate Joins(a: Decision, b: Decision) {
    && CanAggregate(a.action, a.tool) && CanAggregate(b.action, b.tool)
    && Key(a) == Key(b) && Near(a.time, b.time)
  }

  function JoinsRel(): (Decision, Decision) -> bool {
    (a, b) => Joins(a, b)
  }

  function FirstPath(run: seq<Decision>): Option<string> {
    if run == [] then None
    else if FirstPath(run[..|run| - 1]).Some? then FirstPath(run[..|run| - 1]) else run[|run| - 1].filePath
  }

  function Ids(run: seq<Decision>): seq<string> {
    if run == [] then [] else Ids(run[..|run| - 1]) + [run[|run| - 1].eventId]
  }

  /** How one maximal run is shown. */
  function Show(run: seq<Decision>): Item
    requires run != []
  {
    var d := run[0];
    if CanAggregate(d.action, d.tool) then
      Group(CompactGroup(Key(d), |run|, d.time, run[|run| - 1].time, d.agent, d.tool, d.action, d.ruleId,
                         FirstPath(run), Ids(run)))
    else Single(d)
  }

  function ShowAll(runs: seq<seq<Decision>>): seq<Item>
    requires NonEmpty(runs)
  {
    if runs == [] then [] else ShowAll(runs[..|runs| - 1]) + [Show(runs[|runs| - 1])]
  }

  /** Where the loop stands: all runs but an open group are shown. */
  ghost predicate Shown(runs: seq<seq<Decision>>, result: seq<Item>, current: Option<CompactGroup>) {
    NonEmpty(runs) &&
    if current.Some? then
      && runs != [] && Show(runs[|runs| - 1]) == Group(current.value)
      && result == ShowAll(runs[..|runs| - 1])
    else
      && result == ShowAll(runs)
      && (runs != [] ==> Show(runs[|runs| - 1]).Single?)
  }

  /** In a maximal run that may be aggregated every element has the first one's key. */
  lemma {:induction false} OneKey(run: seq<Decision>, i: nat)
    requires i < |run| && Chained(run, JoinsRel())
    ensures Key(run[i]) == Key(run[0])
    ensures |run| > 1 ==> CanAggregate(run[i].action, run[i].tool)
  {
    if i > 0 {
      OneKey(run, i - 1);
      assert JoinsRel()(run[i - 1], run[i]);
    } else if |run| > 1 {
      assert JoinsRel()(run[0], run[1]);
    }
  }

  lemma ShowSnoc(run: seq<Decision>, d: Decision)
    requires run != []
    ensures Show(run).Group? ==>
              var g := Show(run).group;
              Show(run + [d]) == Group(g.(count := g.count + 1, last := d.time, eventIds := g.eventIds + [d.eventId],
                                          sample := if g.sample.None? then d.filePath else g.sample))
  {
    assert (run + [d])[..|run|] == run;
  }

  lemma ShowOne(d: Decision)
    ensures Show([d]) == if CanAggregate(d.action, d.tool)
                         then Group(CompactGroup(Key(d), 1, d.time, d.time, d.agent, d.tool, d.action, d.ruleId,
                                                 d.filePath, [d.eventId]))
                         else Single(d)
  {
    assert [d][..0] == [] && FirstPath([]) == None && Ids([]) == [];
    assert FirstPath([d]) == d.filePath && Ids([d]) == [d.eventId];
  }

  /** Whether the next decision extends the open group, seen from the loop. */
  lemma OpenGroupJoins(ds: seq<Decision>, d: Decision, result: seq<Item>, current: Option<CompactGroup>)
    requires Shown(Runs(ds, JoinsRel()), result, current)
    ensures ds != [] && Joins(ds[|ds| - 1], d) <==>
            && current.Some? && CanAggregate(d.action, d.tool) && current.value.key == Key(d)
            && Near(d.time, current.value.last)
  {
    RunsAreMaximal(ds, JoinsRel());
    if ds == [] {
      assert Runs(ds, JoinsRel()) == [];
    } else {
      hide *;
      OpenGroup(Runs(ds, JoinsRel()), d, result, current);
    }
  }

  lemma OpenGroup(runs: seq<seq<Decision>>, d: Decision, result: seq<Item>, current: Option<CompactGroup>)
    requires Shown(runs, result, current) && Maximal(runs, JoinsRel()) && runs != []
    ensures Joins(LastOf(runs), d) <==>
            && current.Some? && CanAggregate(d.action, d.tool) && current.value.key == Key(d)
            && Near(d.time, current.value.last)
  {
    assert Chained(runs[|runs| - 1], JoinsRel());
    RunJoins(runs[|runs| - 1], d);
    hide Joins, Key, Near, CanAggregate, Show, ShowAll;
  }

  lemma RunJoins(run: seq<Decision>, d: Decision)
    requires run != [] && Chained(run, JoinsRel())
    ensures Joins(run[|run| - 1], d) <==>
            && Show(run).Group? && CanAggregate(d.action, d.tool)
            && Show(run).group.key == Key(d) && Near(d.time, Show(run).group.last)
  {
    OneKey(run, |run| - 1);
    OneKey(run, 0);
    NearSym(run[|run| - 1].time, d.time);
    hide Key, Near;
  }

  lemma NearSym(a: Time, b: Time)
    ensures Near(a, b) == Near(b, a)
  {
  }

  lemma Extend(runs: seq<seq<Decision>>, result: seq<Item>, g: CompactGroup, d: Decision)
    requires Shown(runs, result, Some(g))
    ensures Shown(AddTo(runs, d, true), result,
                  Some(g.(count := g.count + 1, last := d.time, eventIds := g.eventIds + [d.eventId],
                          sample := if g.sample.None? then d.filePath else g.sample)))
  {
    ShowSnoc(runs[|runs| - 1], d);
    var r := AddTo(runs, d, true);
    assert r[..|r| - 1] == runs[..|runs| - 1];
  }

  lemma CloseAndStart(runs: seq<seq<Decision>>, result: seq<Item>, current: Option<CompactGroup>, d: Decision)
    requires Shown(runs, result, current)
    ensures var closed := if current.Some? then result + [Group(current.value)] else result;
            var item := Show([d]);
            if item.Group? then Shown(AddTo(runs, d, false), closed, Some(item.group))
            else Shown(AddTo(runs, d, false), closed + [item], None)
  {
    CloseGroup(runs, result, current);
    var r := AddTo(runs, d, false);
    assert r[..|r| - 1] == runs;
    ShowOne(d);
  }

  lemma CloseGroup(runs: seq<seq<Decision>>, result: seq<Item>, current: Option<CompactGroup>)
    requires Shown(runs, result, current)
    ensures ShowAll(runs) == if current.Some? then result + [Group(current.value)] else result
  {
  }

  lemma NothingShown()
    ensures Shown(Runs([], JoinsRel()), [], None)
  {
  }

  /** `aggregate_decisions`: one item for each maximal run, in order. */
  method AggregateDecisions(decisions: seq<Decision>) returns (result: seq<Item>)
    ensures NonEmpty(Runs(decisions, JoinsRel())) && result == ShowAll(Runs(decisions, JoinsRel()))
  {
    hide Shown, Show, ShowAll, Runs, AddTo, Joins, Key, CanAggregate, Near, FirstPath, Ids, NonEmpty;
    result := [];
    var current: Option<CompactGroup> := None;
    NothingShown();
    var i := 0;
    while i < |decisions|
      invariant 0 <= i <= |decisions|
      invariant Shown(Runs(decisions[..i], JoinsRel()), result, current)
    {
      var d := decisions[i];
      ghost var done := decisions[..i];
      Next(decisions, i);
      OpenGroupJoins(done, d, result, current);
      CloseAndStart(Runs(done, JoinsRel()), result, current, d);
      ShowOne(d);
      i := i + 1;
      if current.Some? {
        var g := current.value;
        if CanAggregate(d.action, d.tool) && g.key == Key(d) {
          if Near(d.time, g.last) {
            Extend(Runs(done, JoinsRel()), result, g, d);
            current := Some(g.(count := g.count + 1, last := d.time, eventIds := g.eventIds + [d.eventId],
                               sample := if g.sample.None? then d.filePath else g.sample));
            continue;
          }
        }
        result := result + [Group(g)];
        current := None;
      }
      if CanAggregate(d.action, d.tool) {
        current := Some(CompactGroup(Key(d), 1, d.time, d.time, d.agent, d.tool, d.action, d.ruleId, d.filePath,
                                     [d.eventId]));
      } else {
        result := result + [Single(d)];
      }
    }
    assert decisions[..i] == decisions;
    CloseGroup(Runs(decisions, JoinsRel()), result, current);
    AllNonEmpty(decisions);
    if current.Some? {
      result := result + [Group(current.value)];
    }
  }

  lemma Next(ds: seq<Decision>, i: nat)
    requires i < |ds|
    ensures Runs(ds[..i + 1], JoinsRel()) ==
            AddTo(Runs(ds[..i], JoinsRel()), ds[i], ds[..i] != [] && Joins(ds[..i][|ds[..i]| - 1], ds[i]))
  {
    assert ds[..i + 1] == ds[..i] + [ds[i]];
    RunsSnoc(ds[..i], ds[i], JoinsRel());
  }

  lemma AllNonEmpty(ds: seq<Decision>)
    ensures NonEmpty(Runs(ds, JoinsRel()))
  {
    RunsAreMaximal(ds, JoinsRel());
  }

  // ---- Nothing is lost, reordered or wrongly merged ----

  lemma {:induction false} ShowAllAt(runs: seq<seq<Decision>>, k: nat)
    requires NonEmpty(runs) && k < |runs|
    ensures |ShowAll(runs)| == |runs| && ShowAll(runs)[k] == Show(runs[k])
  {
    ShowAllLength(runs);
    if k < |runs| - 1 {
      ShowAllLength(runs[..|runs| - 1]);
      ShowAllAt(runs[..|runs| - 1], k);
    } else {
      ShowAllLength(runs[..|runs| - 1]);
    }
  }

  lemma {:induction false} ShowAllLength(runs: seq<seq<Decision>>)
    requires NonEmpty(runs)
    ensures |ShowAll(runs)| == |runs|
  {
    if runs != [] {
      ShowAllLength(runs[..|runs| - 1]);
    }
  }

  function IdsOf(item: Item): seq<string> {
    match item
    case Group(g) => g.eventIds
    case Single(d) => [d.eventId]
  }

  function ItemIds(items: seq<Item>): seq<string> {
    if items == [] then [] else ItemIds(items[..|items| - 1]) + IdsOf(items[|items| - 1])
  }

  lemma {:induction false} IdsAppend(a: seq<Decision>, b: seq<Decision>)
    ensures Ids(a + b) == Ids(a) + Ids(b)
  {
    if b == [] {
      assert a + b == a;
    } else {
      IdsAppend(a, b[..|b| - 1]);
      assert (a + b)[..|a + b| - 1] == a + b[..|b| - 1];
    }
  }

  lemma IdsOfRun(run: seq<Decision>)
    requires run != [] && Chained(run, JoinsRel())
    ensures IdsOf(Show(run)) == Ids(run)
  {
    OneKey(run, 0);
    if |run| == 1 {
      assert run[..0] == [];
    }
  }

  lemma {:induction false} IdsOfRuns(runs: seq<seq<Decision>>)
    requires Maximal(runs, JoinsRel())
    ensures ItemIds(ShowAll(runs)) == Ids(Concat(runs))
  {
    if runs != [] {
      var front, run := runs[..|runs| - 1], runs[|runs| - 1];
      IdsOfRuns(front);
      IdsOfRun(run);
      IdsAppend(Concat(front), run);
      assert ShowAll(runs) == ShowAll(front) + [Show(run)];
      assert (ShowAll(front) + [Show(run)])[..|ShowAll(front)|] == ShowAll(front);
    }
  }

  /** The event ids of all items, in order, are those of the decisions, in order. */
  lemma NothingLostOrReordered(ds: seq<Decision>)
    requires NonEmpty(Runs(ds, JoinsRel()))
    ensures ItemIds(ShowAll(Runs(ds, JoinsRel()))) == Ids(ds)
  {
    RunsAreMaximal(ds, JoinsRel());
    IdsOfRuns(Runs(ds, JoinsRel()));
  }

  /** A group counts its events, all of which have its key, may be aggregated, and lie near their neighbours. */
  lemma GroupIsUniform(ds: seq<Decision>, k: nat)
    requires k < |Runs(ds, JoinsRel())| && NonEmpty(Runs(ds, JoinsRel()))
    ensures var runs := Runs(ds, JoinsRel());
            var run := runs[k];
            k < |ShowAll(runs)| &&
            match ShowAll(runs)[k]
            case Single(d) => run == [d] && !CanAggregate(d.action, d.tool)
            case Group(g) =>
              && g.count == |run| && g.eventIds == Ids(run) && g.first == run[0].time && g.last == run[|run| - 1].time
              && (forall i :: 0 <= i < |run| ==> Key(run[i]) == g.key && CanAggregate(run[i].action, run[i].tool))
              && (forall i, j :: 0 <= i && j == i + 1 < |run| ==> Near(run[i].time, run[j].time))
  {
    RunsAreMaximal(ds, JoinsRel());
    var runs := Runs(ds, JoinsRel());
    ShowAllAt(runs, k);
    assert Chained(runs[k], JoinsRel());
    hide Runs, ShowAll;
    UniformRun(runs[k]);
  }

  lemma UniformRun(run: seq<Decision>)
    requires run != [] && Chained(run, JoinsRel())
    ensures match Show(run)
            case Single(d) => run == [d] && !CanAggregate(d.action, d.tool)
            case Group(g) =>
              && (forall i :: 0 <= i < |run| ==> Key(run[i]) == g.key && CanAggregate(run[i].action, run[i].tool))
              && (forall i, j :: 0 <= i && j == i + 1 < |run| ==> Near(run[i].time, run[j].time))
  {
    OneKey(run, 0);
    forall i | 0 <= i < |run|
      ensures Key(run[i]) == Key(run[0]) && (|run| > 1 ==> CanAggregate(run[i].action, run[i].tool))
    {
      OneKey(run, i);
    }
    forall i, j | 0 <= i && j == i + 1 < |run| ensures Near(run[i].time, run[j].time) {
      assert JoinsRel()(run[i], run[j]);
    }
    hide Key, CanAggregate, Near;
  }

  /** Neighbouring groups with one key are apart: by more than the window, or by an unreadable time. */
  lemma SplitOnlyByGap(ds: seq<Decision>, k: nat)
    requires k + 1 < |Runs(ds, JoinsRel())| && NonEmpty(Runs(ds, JoinsRel()))
    ensures var items := ShowAll(Runs(ds, JoinsRel()));
            k + 1 < |items| &&
            (items[k].Group? && items[k + 1].Group? && items[k].group.key == items[k + 1].group.key ==>
               !Near(items[k].group.last, items[k + 1].group.first))
  {
    RunsAreMaximal(ds, JoinsRel());
    var runs := Runs(ds, JoinsRel());
    ShowAllAt(runs, k);
    ShowAllAt(runs, k + 1);
    var a, b := runs[k], runs[k + 1];
    assert Chained(a, JoinsRel()) && Chained(b, JoinsRel());
    assert !JoinsRel()(a[|a| - 1], b[0]);
    hide *;
    ApartRuns(a, b);
  }

  lemma ApartRuns(a: seq<Decision>, b: seq<Decision>)
    requires a != [] && b != [] && Chained(a, JoinsRel()) && !Joins(a[|a| - 1], b[0])
    ensures Show(a).Group? && Show(b).Group? && Show(a).group.key == Show(b).group.key ==>
              !Near(Show(a).group.last, Show(b).group.first)
  {
    OneKey(a, |a| - 1);
    OneKey(a, 0);
    hide Key, Near, CanAggregate;
  }

  /** The window is whole seconds: gaps up to just under 31 seconds still count as near. */
  lemma NearMeansUnder31Seconds(a: Time, b: Time)
    ensures Near(a, b) <==>
            a.instant.Some? && b.instant.Some? &&
            -31_000_000_000 < a.instant.value - b.instant.value < 31_000_000_000
  {
  }

  // ---- The key ----

  predicate NoBar(s: string) {
    '|' !in s
  }

  lemma CutAtBar(a: string, x: string, b: string, y: string)
    requires NoBar(a) && NoBar(b)
    ensures a + "|" + x == b + "|" + y <==> a == b && x == y
  {
    var s, t := a + "|" + x, b + "|" + y;
    if s == t {
      assert s[..|a|] == a && s[|a|] == '|' && t[..|b|] == b && t[|b|] == '|';
      FindCharUnique(s, '|', |a|);
      FindCharUnique(t, '|', |b|);
      assert s[|a| + 1..] == x && t[|b| + 1..] == y;
    }
  }

  lemma LastBar(x: string, a: string)
    requires NoBar(a)
    ensures var s := x + "|" + a;
            && s[|x|] == '|' && (forall i :: |x| < i < |s| ==> s[i] != '|')
            && s[..|x|] == x && s[|x| + 1..] == a
  {
    var s := x + "|" + a;
    assert forall i :: |x| < i < |s| ==> s[i] == a[i - |x| - 1];
  }

  lemma CutAtLastBar(x: string, a: string, y: string, b: string)
    requires NoBar(a) && NoBar(b)
    ensures x + "|" + a == y + "|" + b <==> x == y && a == b
  {
    LastBar(x, a);
    LastBar(y, b);
  }

  predicate NoBars(d: Decision) {
    NoBar(d.agent) && NoBar(d.action)
  }

  /** Agents, actions and rule ids are written without bars, tool names may hold any text: equal keys then mean equal
      fields, except that a missing rule id and an empty one are the same. So they do for any rule ids when the tool
      names have no bars. */
  lemma KeyMeansFields(d: Decision, e: Decision)
    requires NoBars(d) && NoBars(e)
    requires
      || (NoBar(d.ruleId.GetOr("")) && NoBar(e.ruleId.GetOr("")))
      || (NoBar(d.tool) && NoBar(e.tool))
    ensures Key(d) == Key(e) <==>
            && d.agent == e.agent && d.tool == e.tool && d.action == e.action
            && d.ruleId.GetOr("") == e.ruleId.GetOr("")
  {
    var dRule, eRule := d.ruleId.GetOr(""), e.ruleId.GetOr("");
    var dRest, eRest := d.action + "|" + dRule, e.action + "|" + eRule;
    CutAtBar(d.agent, d.tool + "|" + dRest, e.agent, e.tool + "|" + eRest);
    assert Key(d) == d.agent + "|" + (d.tool + "|" + dRest);
    assert Key(e) == e.agent + "|" + (e.tool + "|" + eRest);
    if NoBar(dRule) && NoBar(eRule) {
      assert d.tool + "|" + dRest == (d.tool + "|" + d.action) + "|" + dRule;
      assert e.tool + "|" + eRest == (e.tool + "|" + e.action) + "|" + eRule;
      CutAtLastBar(d.tool + "|" + d.action, dRule, e.tool + "|" + e.action, eRule);
      CutAtLastBar(d.tool, d.action, e.tool, e.action);
    } else {
      CutAtBar(d.action, dRule, e.action, eRule);
      CutAtBar(d.tool, dRest, e.tool, eRest);
    }
  }

  // ---- Time windows ----

  datatype Event = Event(id: string, tool: string, time: Time)

  datatype Window = Window(tool: string, started: Time, ended: Time, count: nat, allow: nat, ask: nat, deny: nat)

  function ActionOf(e: Event, actions: map<string, string>): string {
    if e.id in actions then actions[e.id] else "allow"
  }

  function OneIf(b: bool): nat {
    if b then 1 else 0
  }

  /** How many of the events have the action. */
  function Tally(es: seq<Event>, actions: map<string, string>, action: string): nat {
    if es == [] then 0
    else Tally(es[..|es| - 1], actions, action) + OneIf(ActionOf(es[|es| - 1], actions) == action)
  }

  function SameTool(): (Event, Event) -> bool {
    (a: Event, b: Event) => a.tool == b.tool && Near(a.time, b.time)
  }

  function ShowWindow(run: seq<Event>, actions: map<string, string>): Window
    requires run != []
  {
    Window(run[0].tool, run[0].time, run[|run| - 1].time, |run|,
           Tally(run, actions, "allow"), Tally(run, actions, "ask"), Tally(run, actions, "deny"))
  }

  function ShowWindows(runs: seq<seq<Event>>, actions: map<string, string>): seq<Window>
    requires NonEmpty(runs)
  {
    if runs == [] then [] else ShowWindows(runs[..|runs| - 1], actions) + [ShowWindow(runs[|runs| - 1], actions)]
  }

  function Reversed(ws: seq<Window>): seq<Window> {
    if ws == [] then [] else [ws[|ws| - 1]] + Reversed(ws[..|ws| - 1])
  }

  lemma {:induction false} OneTool(run: seq<Event>, i: nat)
    requires i < |run| && Chained(run, SameTool())
    ensures run[i].tool == run[0].tool
  {
    if i > 0 {
      OneTool(run, i - 1);
      assert SameTool()(run[i - 1], run[i]);
    }
  }

  lemma TallySnoc(run: seq<Event>, e: Event, actions: map<string, string>, action: string)
    ensures Tally(run + [e], actions, action) == Tally(run, actions, action) + OneIf(ActionOf(e, actions) == action)
  {
    assert (run + [e])[..|run|] == run;
  }

  function NewWindow(e: Event, act: string): Window {
    Window(e.tool, e.time, e.time, 1, OneIf(act == "allow"), OneIf(act == "ask"), OneIf(act == "deny"))
  }

  function Grow(w: Window, e: Event, act: string): Window {
    w.(count := w.count + 1, ended := e.time, allow := w.allow + OneIf(act == "allow"),
       ask := w.ask + OneIf(act == "ask"), deny := w.deny + OneIf(act == "deny"))
  }

  lemma ShowWindowSnoc(run: seq<Event>, e: Event, actions: map<string, string>)
    requires run != []
    ensures ShowWindow(run + [e], actions) == Grow(ShowWindow(run, actions), e, ActionOf(e, actions))
  {
    TallySnoc(run, e, actions, "allow");
    TallySnoc(run, e, actions, "ask");
    TallySnoc(run, e, actions, "deny");
  }

  lemma ShowWindowOne(e: Event, actions: map<string, string>)
    ensures ShowWindow([e], actions) == NewWindow(e, ActionOf(e, actions))
  {
    assert [] + [e] == [e];
    TallySnoc([], e, actions, "allow");
    TallySnoc([], e, actions, "ask");
    TallySnoc([], e, actions, "deny");
  }

  lemma ShowWindowsSnoc(front: seq<seq<Event>>, run: seq<Event>, actions: map<string, string>)
    requires NonEmpty(front) && run != []
    ensures NonEmpty(front + [run])
            && ShowWindows(front + [run], actions) == ShowWindows(front, actions) + [ShowWindow(run, actions)]
  {
    assert (front + [run])[..|front|] == front;
  }

  lemma WindowJoins(run: seq<Event>, e: Event, actions: map<string, string>)
    requires run != [] && Chained(run, SameTool())
    ensures var w := ShowWindow(run, actions);
            SameTool()(run[|run| - 1], e) <==> w.tool == e.tool && Near(e.time, w.ended)
  {
    OneTool(run, |run| - 1);
    NearSym(run[|run| - 1].time, e.time);
    hide Near;
  }

  /** The loop's windows after one more event, given those before it. */
  function NextWindows(windows: seq<Window>, e: Event, act: string): seq<Window> {
    if windows != [] && windows[|windows| - 1].tool == e.tool && Near(e.time, windows[|windows| - 1].ended) then
      windows[..|windows| - 1] + [Grow(windows[|windows| - 1], e, act)]
    else windows + [NewWindow(e, act)]
  }

  lemma AddWindow(runs: seq<seq<Event>>, e: Event, actions: map<string, string>)
    requires Maximal(runs, SameTool())
    ensures var runs' := AddTo(runs, e, runs != [] && SameTool()(LastOf(runs), e));
            && NonEmpty(runs')
            && ShowWindows(runs', actions) == NextWindows(ShowWindows(runs, actions), e, ActionOf(e, actions))
  {
    if runs == [] {
      ShowWindowOne(e, actions);
      ShowWindowsSnoc([], [e], actions);
      assert runs + [[e]] == [[e]];
    } else {
      var front, run := runs[..|runs| - 1], runs[|runs| - 1];
      assert front + [run] == runs && Chained(run, SameTool());
      AddToLast(front, run, e, actions);
      hide ShowWindows, NextWindows, SameTool, ActionOf;
    }
  }

  lemma AddToLast(front: seq<seq<Event>>, run: seq<Event>, e: Event, actions: map<string, string>)
    requires NonEmpty(front) && run != [] && Chained(run, SameTool())
    ensures var joined := front + [run + [e]];
            var apart := front + [run] + [[e]];
            var next := NextWindows(ShowWindows(front + [run], actions), e, ActionOf(e, actions));
            && NonEmpty(joined) && NonEmpty(apart)
            && (SameTool()(run[|run| - 1], e) ==> ShowWindows(joined, actions) == next)
            && (!SameTool()(run[|run| - 1], e) ==> ShowWindows(apart, actions) == next)
  {
    ShowWindowOne(e, actions);
    WindowJoins(run, e, actions);
    ShowWindowSnoc(run, e, actions);
    ShowWindowsSnoc(front, run, actions);
    ShowWindowsSnoc(front, run + [e], actions);
    ShowWindowsSnoc(front + [run], [e], actions);
    hide ShowWindows, ShowWindow, Grow, NewWindow, Near, ActionOf, SameTool;
    var before := ShowWindows(front, actions);
    assert (before + [ShowWindow(run, actions)])[..|before|] == before;
  }

  lemma NextWindow(es: seq<Event>, i: nat, actions: map<string, string>)
    requires i < |es| && NonEmpty(Runs(es[..i], SameTool()))
    ensures NonEmpty(Runs(es[..i + 1], SameTool()))
    ensures ShowWindows(Runs(es[..i + 1], SameTool()), actions) ==
            NextWindows(ShowWindows(Runs(es[..i], SameTool()), actions), es[i], ActionOf(es[i], actions))
  {
    var before := es[..i];
    assert es[..i + 1] == before + [es[i]];
    RunsSnoc(before, es[i], SameTool());
    RunsAreMaximal(before, SameTool());
    AddWindow(Runs(before, SameTool()), es[i], actions);
    assert before == [] ==> Runs(before, SameTool()) == [];
    hide ShowWindows, NextWindows, SameTool, AddTo, Runs;
  }

  lemma EmptyRuns()
    ensures Runs([], SameTool()) == []
  {
  }

  /** `aggregate_time_window_activities`: the newest window first */
  method AggregateTimeWindows(events: seq<Event>, actions: map<string, string>) returns (result: seq<Window>)
    ensures NonEmpty(Runs(events, SameTool()))
    ensures result == Reversed(ShowWindows(Runs(events, SameTool()), actions))
  {
    hide Near, Tally;
    var windows: seq<Window> := [];
    var i := 0;
    EmptyRuns();
    hide Runs, ShowWindow, Grow, NewWindow;
    while i < |events|
      invariant 0 <= i <= |events|
      invariant NonEmpty(Runs(events[..i], SameTool()))
      invariant windows == ShowWindows(Runs(events[..i], SameTool()), actions)
    {
      var e := events[i];
      var act := ActionOf(e, actions);
      NextWindow(events, i, actions);
      i := i + 1;
      if windows != [] {
        var last := windows[|windows| - 1];
        if last.tool == e.tool {
          if Near(e.time, last.ended) {
            windows := windows[..|windows| - 1] + [Grow(last, e, act)];
            continue;
          }
        }
      }
      windows := windows + [NewWindow(e, act)];
    }
    assert events[..i] == events;
    result := Reverse(windows);
  }

  method Reverse(ws: seq<Window>) returns (result: seq<Window>)
    ensures result == Reversed(ws)
  {
    result := [];
    var i := |ws|;
    assert ws[..i] == ws;
    while i > 0
      invariant 0 <= i <= |ws|
      invariant Reversed(ws) == result + Reversed(ws[..i])
    {
      i := i - 1;
      assert ws[..i + 1][..i] == ws[..i];
      result := result + [ws[i]];
    }
  }

  // ---- Totals over all windows ----

  function CountSum(ws: seq<Window>): nat {
    if ws == [] then 0 else CountSum(ws[..|ws| - 1]) + ws[|ws| - 1].count
  }

  function DenySum(ws: seq<Window>): nat {
    if ws == [] then 0 else DenySum(ws[..|ws| - 1]) + ws[|ws| - 1].deny
  }

  lemma {:induction false} TallyAppend(a: seq<Event>, b: seq<Event>, actions: map<string, string>, action: string)
    ensures Tally(a + b, actions, action) == Tally(a, actions, action) + Tally(b, actions, action)
  {
    if b == [] {
      assert a + b == a;
    } else {
      TallyAppend(a, b[..|b| - 1], actions, action);
      assert (a + b)[..|a + b| - 1] == a + b[..|b| - 1];
    }
  }

  lemma {:induction false} SumsOfRuns(runs: seq<seq<Event>>, actions: map<string, string>)
    requires NonEmpty(runs)
    ensures CountSum(ShowWindows(runs, actions)) == |Concat(runs)|
    ensures DenySum(ShowWindows(runs, actions)) == Tally(Concat(runs), actions, "deny")
  {
    if runs != [] {
      var front, run := runs[..|runs| - 1], runs[|runs| - 1];
      SumsOfRuns(front, actions);
      TallyAppend(Concat(front), run, actions, "deny");
      var ws := ShowWindows(front, actions);
      assert (ws + [ShowWindow(run, actions)])[..|ws|] == ws;
    }
  }

  /** Every event is counted in one window, and so is every denial. */
  lemma WindowsCountEverything(events: seq<Event>, actions: map<string, string>)
    requires NonEmpty(Runs(events, SameTool()))
    ensures CountSum(ShowWindows(Runs(events, SameTool()), actions)) == |events|
    ensures DenySum(ShowWindows(Runs(events, SameTool()), actions)) == Tally(events, actions, "deny")
  {
    RunsAreMaximal(events, SameTool());
    SumsOfRuns(Runs(events, SameTool()), actions);
  }
}
