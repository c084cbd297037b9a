/** What the aggregated lists say, by the places of the decisions and events they stand for
    (crates/bridge/src/routes.rs). */
module AggregateShown {
  import opened Common
  import opened MaximalRuns
  import opened Aggregate

  // ---- Decisions ----

  /** Neither asked nor denied, and by a tool that only reads. */
  predicate MayBeGrouped(d: Decision) {
    && d.action != "ask" && d.action != "deny"
    && d.tool in {"Read", "ReadFile", "Glob", "Grep", "LS", "List", "TaskUpdate", "Bash"}
  }

  predicate Under31Seconds(a: Time, b: Time) {
    a.instant.Some? && b.instant.Some? && -31_000_000_000 < a.instant.value - b.instant.value < 31_000_000_000
  }

  /** The two stay in one group. */
  predicate Together(a: Decision, b: Decision) {
    && MayBeGrouped(a) && MayBeGrouped(b) && Under31Seconds(a.time, b.time)
    && a.agent + "|" + a.tool + "|" + a.action + "|" + a.ruleId.GetOr("")
       == b.agent + "|" + b.tool + "|" + b.action + "|" + b.ruleId.GetOr("")
  }

  /** The first file named by a run of decisions. */
  ghost predicate IsSample(run: seq<Decision>, sample: Option<string>) {
    match sample
    case None => forall i :: 0 <= i < |run| ==> run[i].filePath.None?
    case Some(_) =>
      exists i :: 0 <= i < |run| && run[i].filePath == sample && forall j :: 0 <= j < i ==> run[j].filePath.None?
  }

  /** A decision that may not be grouped stands alone; others are shown as a group with the fields of the first one,
      both times, every event id and the first file. */
  ghost predicate ShownAs(run: seq<Decision>, item: Item)
    requires run != []
  {
    if !MayBeGrouped(run[0]) then |run| == 1 && item == Single(run[0])
    else
      item.Group? &&
      var g, d := item.group, run[0];
      && g.key == d.agent + "|" + d.tool + "|" + d.action + "|" + d.ruleId.GetOr("")
      && g.count == |run| && g.first == d.time && g.last == run[|run| - 1].time
      && g.agent == d.agent && g.tool == d.tool && g.action == d.action && g.ruleId == d.ruleId
      && |g.eventIds| == |run| && (forall i :: 0 <= i < |run| ==> g.eventIds[i] == run[i].eventId)
      && IsSample(run, g.sample)
  }

  lemma KeyText(d: Decision)
    ensures Key(d) == d.agent + "|" + d.tool + "|" + d.action + "|" + d.ruleId.GetOr("")
  {
  }

  lemma TogetherJoins(a: Decision, b: Decision)
    ensures JoinsRel()(a, b) <==> Together(a, b)
  {
    KeyText(a);
    KeyText(b);
    NearMeansUnder31Seconds(a.time, b.time);
    hide Key, Near;
  }

  lemma {:induction false} SampleIsFirst(run: seq<Decision>)
    ensures IsSample(run, FirstPath(run))
  {
    if run != [] {
      var front := run[..|run| - 1];
      SampleIsFirst(front);
      if FirstPath(front).Some? {
        var i :| 0 <= i < |front| && front[i].filePath == FirstPath(front)
                 && forall j :: 0 <= j < i ==> front[j].filePath.None?;
        assert run[i] == front[i] && forall j :: 0 <= j < i ==> run[j] == front[j];
      } else {
        assert forall j :: 0 <= j < |front| ==> run[j] == front[j];
      }
    }
  }

  lemma {:induction false} IdsAt(run: seq<Decision>)
    ensures |Ids(run)| == |run| && forall i :: 0 <= i < |run| ==> Ids(run)[i] == run[i].eventId
  {
    if run != [] {
      IdsAt(run[..|run| - 1]);
    }
  }

  lemma RunShown(run: seq<Decision>)
    requires run != [] && Chained(run, JoinsRel())
    ensures ShownAs(run, Show(run))
  {
    KeyText(run[0]);
    SampleIsFirst(run);
    IdsAt(run);
    hide Key, IsSample, FirstPath, Ids;
    if |run| > 1 {
      assert JoinsRel()(run[0], run[1]);
    }
  }

  /** The items are the stretches of decisions between cuts. A stretch is cut exactly where two neighbours do not stay
      together. */
  ghost predicate ItemsAt(ds: seq<Decision>, items: seq<Item>, cuts: seq<nat>) {
    && |cuts| == |items| + 1 && cuts[0] == 0 && cuts[|items|] == |ds|
    && (forall k, l :: 0 <= k && l == k + 1 < |cuts| ==>
          cuts[k] < cuts[l] <= |ds| && ShownAs(ds[cuts[k]..cuts[l]], items[k]))
    && (forall i, j :: 0 <= i && j == i + 1 < |ds| ==> (Together(ds[i], ds[j]) <==> j !in cuts))
  }

  lemma ItemsByPlace(ds: seq<Decision>) returns (cuts: seq<nat>)
    requires NonEmpty(Runs(ds, JoinsRel()))
    ensures ItemsAt(ds, ShowAll(Runs(ds, JoinsRel())), cuts)
  {
    hide *;
    var runs := Runs(ds, JoinsRel());
    RunsAreMaximal(ds, JoinsRel());
    cuts := RunsCut(runs);
    AllShown(runs);
    Placed(ds, runs, ShowAll(runs), cuts);
  }

  lemma AllShown(runs: seq<seq<Decision>>)
    requires Maximal(runs, JoinsRel()) && NonEmpty(runs)
    ensures |ShowAll(runs)| == |runs| && forall k :: 0 <= k < |runs| ==> ShownAs(runs[k], ShowAll(runs)[k])
  {
    hide ShowAll, ShownAs;
    ShowAllLength(runs);
    forall k | 0 <= k < |runs| ensures ShownAs(runs[k], ShowAll(runs)[k]) {
      ShowAllAt(runs, k);
      assert Chained(runs[k], JoinsRel());
      RunShown(runs[k]);
    }
  }

  lemma Placed(ds: seq<Decision>, runs: seq<seq<Decision>>, items: seq<Item>, cuts: seq<nat>)
    requires CutAt(ds, runs, cuts) && Maximal(runs, JoinsRel()) && NonEmpty(runs)
    requires |items| == |runs| && forall k :: 0 <= k < |runs| ==> ShownAs(runs[k], items[k])
    ensures ItemsAt(ds, items, cuts)
  {
    hide CutAt, ShownAs, Together, JoinsRel, Maximal;
    CutEnds(ds, runs, cuts);
    forall k, l | 0 <= k && l == k + 1 < |cuts|
      ensures cuts[k] < cuts[l] <= |ds| && ShownAs(ds[cuts[k]..cuts[l]], items[k])
    {
      Piece(ds, runs, cuts, k);
    }
    forall i, j | 0 <= i && j == i + 1 < |ds| ensures Together(ds[i], ds[j]) <==> j !in cuts {
      TogetherJoins(ds[i], ds[j]);
      CutWhereApart(ds, runs, JoinsRel(), cuts, j);
    }
  }

  // ---- Events ----

  predicate WasDecided(e: Event, actions: map<string, string>, action: string) {
    if e.id in actions then actions[e.id] == action else action == "allow"
  }

  /** How many of the events were decided so; an event without a decision counts as allowed. */
  ghost function HowMany(run: seq<Event>, actions: map<string, string>, action: string): nat {
    |set i | 0 <= i < |run| && WasDecided(run[i], actions, action)|
  }

  lemma {:induction false} TallyIsHowMany(run: seq<Event>, actions: map<string, string>, action: string)
    ensures Tally(run, actions, action) == HowMany(run, actions, action)
  {
    if run == [] {
      NoneDecided(actions, action);
    } else {
      TallyIsHowMany(run[..|run| - 1], actions, action);
      OneMoreDecided(run, actions, action);
      hide HowMany, WasDecided;
      assert WasDecided(run[|run| - 1], actions, action) <==> ActionOf(run[|run| - 1], actions) == action by {
        DecidedAs(run[|run| - 1], actions, action);
      }
    }
  }

  lemma DecidedAs(e: Event, actions: map<string, string>, action: string)
    ensures WasDecided(e, actions, action) <==> ActionOf(e, actions) == action
  {
  }

  lemma NoneDecided(actions: map<string, string>, action: string)
    ensures HowMany([], actions, action) == 0
  {
    var none: seq<Event> := [];
    assert (set i | 0 <= i < |none| && WasDecided(none[i], actions, action)) == {};
  }

  lemma OneMoreDecided(run: seq<Event>, actions: map<string, string>, action: string)
    requires run != []
    ensures HowMany(run, actions, action) == HowMany(run[..|run| - 1], actions, action)
                                             + (if WasDecided(run[|run| - 1], actions, action) then 1 else 0)
  {
    hide WasDecided;
    var front, n := run[..|run| - 1], |run| - 1;
    var all := set i | 0 <= i < |run| && WasDecided(run[i], actions, action);
    var before := set i | 0 <= i < |front| && WasDecided(front[i], actions, action);
    assert n !in before;
    assert forall i :: i in all <==> i in before || (i == n && WasDecided(run[n], actions, action));
    assert all == if WasDecided(run[n], actions, action) then before + {n} else before;
  }

  ghost predicate WindowOf(run: seq<Event>, actions: map<string, string>, w: Window)
    requires run != []
  {
    && w.tool == run[0].tool && w.started == run[0].time && w.ended == run[|run| - 1].time && w.count == |run|
    && w.allow == HowMany(run, actions, "allow") && w.ask == HowMany(run, actions, "ask")
    && w.deny == HowMany(run, actions, "deny")
  }

  predicate OneWindow(a: Event, b: Event) {
    a.tool == b.tool && Under31Seconds(a.time, b.time)
  }

  lemma RunWindow(run: seq<Event>, actions: map<string, string>)
    requires run != []
    ensures WindowOf(run, actions, ShowWindow(run, actions))
  {
    TallyIsHowMany(run, actions, "allow");
    TallyIsHowMany(run, actions, "ask");
    TallyIsHowMany(run, actions, "deny");
  }

  lemma {:induction false} ShowWindowsAt(runs: seq<seq<Event>>, actions: map<string, string>)
    requires NonEmpty(runs)
    ensures |ShowWindows(runs, actions)| == |runs|
    ensures forall k :: 0 <= k < |runs| ==> ShowWindows(runs, actions)[k] == ShowWindow(runs[k], actions)
  {
    if runs != [] {
      ShowWindowsAt(runs[..|runs| - 1], actions);
    }
  }

  lemma {:induction false} ReversedAt(ws: seq<Window>)
    ensures |Reversed(ws)| == |ws| && forall k :: 0 <= k < |ws| ==> Reversed(ws)[k] == ws[|ws| - 1 - k]
  {
    if ws != [] {
      ReversedAt(ws[..|ws| - 1]);
    }
  }

  /** The windows, the newest first, are the stretches of events between cuts; a stretch is cut exactly where two
      neighbours have different tools or are too far apart. */
  ghost predicate WindowsAt(es: seq<Event>, actions: map<string, string>, ws: seq<Window>, cuts: seq<nat>) {
    && |cuts| == |ws| + 1 && cuts[0] == 0 && cuts[|ws|] == |es|
    && (forall k, l :: 0 <= k && l == k + 1 < |cuts| ==> IsStretch(es, actions, ws[|ws| - l], cuts[k], cuts[l]))
    && (forall i, j :: 0 <= i && j == i + 1 < |es| ==> (OneWindow(es[i], es[j]) <==> j !in cuts))
  }

  ghost predicate IsStretch(es: seq<Event>, actions: map<string, string>, w: Window, from: nat, to: nat) {
    from < to <= |es| && WindowOf(es[from..to], actions, w)
  }

  lemma WindowsByPlace(es: seq<Event>, actions: map<string, string>) returns (cuts: seq<nat>)
    requires NonEmpty(Runs(es, SameTool()))
    ensures WindowsAt(es, actions, Reversed(ShowWindows(Runs(es, SameTool()), actions)), cuts)
  {
    hide *;
    var runs := Runs(es, SameTool());
    RunsAreMaximal(es, SameTool());
    cuts := RunsCut(runs);
    AllWindows(runs, actions);
    PlacedWindows(es, runs, actions, Reversed(ShowWindows(runs, actions)), cuts);
  }

  lemma AllWindows(runs: seq<seq<Event>>, actions: map<string, string>)
    requires NonEmpty(runs)
    ensures var ws := Reversed(ShowWindows(runs, actions));
            |ws| == |runs| && forall k :: 0 <= k < |runs| ==> WindowOf(runs[k], actions, ws[|ws| - 1 - k])
  {
    hide ShowWindows, WindowOf, Reversed;
    ShowWindowsAt(runs, actions);
    ReversedAt(ShowWindows(runs, actions));
    forall k | 0 <= k < |runs| ensures WindowOf(runs[k], actions, ShowWindows(runs, actions)[k]) {
      RunWindow(runs[k], actions);
    }
  }

  lemma PlacedWindows(es: seq<Event>, runs: seq<seq<Event>>, actions: map<string, string>, ws: seq<Window>,
                      cuts: seq<nat>)
    requires CutAt(es, runs, cuts) && Maximal(runs, SameTool()) && NonEmpty(runs)
    requires |ws| == |runs| && forall k :: 0 <= k < |runs| ==> WindowOf(runs[k], actions, ws[|ws| - 1 - k])
    ensures WindowsAt(es, actions, ws, cuts)
  {
    hide CutAt, WindowOf, OneWindow, SameTool, Maximal;
    CutEnds(es, runs, cuts);
    forall k, l | 0 <= k && l == k + 1 < |cuts|
      ensures IsStretch(es, actions, ws[|ws| - l], cuts[k], cuts[l])
    {
      Piece(es, runs, cuts, k);
      assert WindowOf(runs[k], actions, ws[|ws| - 1 - k]);
    }
    forall i, j | 0 <= i && j == i + 1 < |es| ensures OneWindow(es[i], es[j]) <==> j !in cuts {
      WindowRelation(es[i], es[j]);
      CutWhereApart(es, runs, SameTool(), cuts, j);
    }
  }

  lemma WindowRelation(a: Event, b: Event)
    ensures SameTool()(a, b) <==> OneWindow(a, b)
  {
    NearMeansUnder31Seconds(a.time, b.time);
  }
}
