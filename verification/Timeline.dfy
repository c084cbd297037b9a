/** The activity timeline: messages to segments, segments to turns, turns to tool runs
    (crates/shared_ui/activity_segment.js). */
module Timeline {
  import opened Common
  import opened MaximalRuns

  datatype Category = Explore | Edit
  datatype Sub = File | Search | Command
  /** What `classifyTool` says about a tool name. */
  datatype Class = Class(category: Category, sub: Sub)

  datatype Role = User | Assistant | ToolSummary | Other

  /** A timestamp is an instant, or missing. */
  datatype Message = Message(id: int, role: Role, toolClass: Option<Class>, time: Option<int>)

  datatype Segment =
    | Chat(message: Message)
    | Tools(category: Category, items: seq<Message>, start: Option<int>, end: Option<int>, files: nat, searches: nat,
            commands: nat)
    | Single(item: Message)

  predicate IsChat(m: Message) {
    m.role == User || m.role == Assistant
  }

  predicate IsClassified(m: Message) {
    m.role == ToolSummary && m.toolClass.Some?
  }

  predicate IsUnknown(m: Message) {
    m.role == ToolSummary && m.toolClass.None?
  }

  predicate IsMain(m: Message) {
    IsChat(m) || IsClassified(m)
  }

  predicate IsVisible(m: Message) {
    IsMain(m) || IsUnknown(m)
  }

  function Filter<T>(xs: seq<T>, p: T -> bool): seq<T> {
    if xs == [] then []
    else Filter(xs[..|xs| - 1], p) + (if p(xs[|xs| - 1]) then [xs[|xs| - 1]] else [])
  }

  lemma FilterSnoc<T>(xs: seq<T>, x: T, p: T -> bool)
    ensures Filter(xs + [x], p) == Filter(xs, p) + (if p(x) then [x] else [])
  {
    assert (xs + [x])[..|xs|] == xs;
  }

  // ---- buildSegments ----

  /** The open run of tools. */
  datatype Pending = Pending(category: Category, items: seq<Message>, start: Option<int>, end: Option<int>,
                             files: nat, searches: nat, commands: nat)

  function Open(m: Message, c: Class): Pending {
    Pending(c.category, [m], m.time, m.time, if c.sub.File? then 1 else 0, if c.sub.Search? then 1 else 0,
            if c.sub.Command? then 1 else 0)
  }

  function Merge(p: Pending, m: Message, c: Class): Pending {
    p.(items := p.items + [m], end := if m.time.Some? then m.time else p.end,
       files := p.files + (if c.sub.File? then 1 else 0), searches := p.searches + (if c.sub.Search? then 1 else 0),
       commands := p.commands + (if c.sub.Command? then 1 else 0))
  }

  /** `_finalizeSeg` */
  function Finalize(p: Pending): Segment {
    Tools(p.category, p.items, p.start, p.end, p.files, p.searches, p.commands)
  }

  datatype Scan = Scan(segments: seq<Segment>, pending: Option<Pending>)

  function Closed(s: Scan): seq<Segment> {
    if s.pending.Some? then s.segments + [Finalize(s.pending.value)] else s.segments
  }

  function Next(s: Scan, m: Message): Scan {
    if IsChat(m) then Scan(Closed(s) + [Chat(m)], None)
    else if !m.role.ToolSummary? then s
    else
      match m.toolClass
      case None => s.(segments := s.segments + [Single(m)])
      case Some(c) =>
        if s.pending.Some? && s.pending.value.category == c.category then
          s.(pending := Some(Merge(s.pending.value, m, c)))
        else Scan(Closed(s), Some(Open(m, c)))
  }

  function Scanned(ms: seq<Message>): Scan {
    if ms == [] then Scan([], None) else Next(Scanned(ms[..|ms| - 1]), ms[|ms| - 1])
  }

  function SegmentsOf(ms: seq<Message>): seq<Segment> {
    Closed(Scanned(ms))
  }

  method BuildSegments(messages: seq<Message>) returns (segments: seq<Segment>)
    ensures segments == SegmentsOf(messages)
  {
    if |messages| == 0 {
      return [];
    }
    segments := [];
    var pending: Option<Pending> := None;
    var i := 0;
    while i < |messages|
      invariant 0 <= i <= |messages|
      invariant Scanned(messages[..i]) == Scan(segments, pending)
    {
      var m := messages[i];
      assert messages[..i + 1][..i] == messages[..i];
      i := i + 1;
      if m.role == User || m.role == Assistant {
        if pending.Some? {
          segments := segments + [Finalize(pending.value)];
          pending := None;
        }
        segments := segments + [Chat(m)];
        continue;
      }
      if m.role != ToolSummary {
        continue;
      }
      if m.toolClass.None? {
        segments := segments + [Single(m)];
        continue;
      }
      var c := m.toolClass.value;
      if pending.Some? && pending.value.category == c.category {
        pending := Some(Merge(pending.value, m, c));
        continue;
      }
      if pending.Some? {
        segments := segments + [Finalize(pending.value)];
      }
      pending := Some(Open(m, c));
    }
    assert messages[..i] == messages;
    if pending.Some? {
      segments := segments + [Finalize(pending.value)];
    }
  }

  // ---- Where every message goes ----

  /** Two tools go together when they are classified alike. */
  function Alike(): (Message, Message) -> bool {
    (a: Message, b: Message) =>
      && a.role == ToolSummary && a.toolClass.Some? && b.role == ToolSummary && b.toolClass.Some?
      && a.toolClass.value.category == b.toolClass.value.category
  }

  function Main(): Message -> bool {
    (m: Message) => m.role == User || m.role == Assistant || (m.role == ToolSummary && m.toolClass.Some?)
  }

  function Unknown(): Message -> bool { (m: Message) => m.role == ToolSummary && m.toolClass.None? }

  function Visible(): Message -> bool { (m: Message) => m.role != Other }

  function MessagesIn(s: Segment): seq<Message> {
    match s
    case Chat(m) => [m]
    case Tools(_, items, _, _, _, _, _) => items
    case Single(m) => [m]
  }

  function MessagesOf(ss: seq<Segment>): seq<Message> {
    if ss == [] then [] else MessagesOf(ss[..|ss| - 1]) + MessagesIn(ss[|ss| - 1])
  }

  lemma MessagesSnoc(ss: seq<Segment>, s: Segment)
    ensures MessagesOf(ss + [s]) == MessagesOf(ss) + MessagesIn(s)
  {
    assert (ss + [s])[..|ss|] == ss;
  }

  /** The messages in segments of single unclassified tools, or those in all other segments. */
  function Shown(ss: seq<Segment>, single: bool): seq<Message> {
    if ss == [] then []
    else Shown(ss[..|ss| - 1], single) + (if ss[|ss| - 1].Single? == single then MessagesIn(ss[|ss| - 1]) else [])
  }

  lemma ShownSnoc(ss: seq<Segment>, s: Segment, single: bool)
    ensures Shown(ss + [s], single) == Shown(ss, single) + (if s.Single? == single then MessagesIn(s) else [])
  {
    assert (ss + [s])[..|ss|] == ss;
  }

  function PendingItems(p: Option<Pending>): seq<Message> {
    if p.Some? then p.value.items else []
  }

  /** Chat messages and classified tools keep their order, and so do unclassified tools. */
  lemma {:induction false} OrderWithinKinds(ms: seq<Message>)
    ensures var s := Scanned(ms);
            && Shown(s.segments, false) + PendingItems(s.pending) == Filter(ms, Main())
            && Shown(s.segments, true) == Filter(ms, Unknown())
  {
    if ms != [] {
      var front, m := ms[..|ms| - 1], ms[|ms| - 1];
      OrderWithinKinds(front);
      NextKeepsOrder(Scanned(front), m);
      FilterSnoc(front, m, Main());
      FilterSnoc(front, m, Unknown());
      assert front + [m] == ms;
      hide Next, Shown, Filter;
    }
  }

  lemma NextKeepsOrder(s: Scan, m: Message)
    ensures var t := Next(s, m);
            && Shown(t.segments, false) + PendingItems(t.pending)
               == Shown(s.segments, false) + PendingItems(s.pending) + (if IsMain(m) then [m] else [])
            && Shown(t.segments, true) == Shown(s.segments, true) + (if IsUnknown(m) then [m] else [])
  {
    ClosedShows(s);
    ShownSnoc(s.segments, Single(m), false);
    ShownSnoc(s.segments, Single(m), true);
    ShownSnoc(Closed(s), Chat(m), false);
    ShownSnoc(Closed(s), Chat(m), true);
    hide Shown, Closed;
  }

  lemma ClosedShows(s: Scan)
    ensures Shown(Closed(s), false) == Shown(s.segments, false) + PendingItems(s.pending)
    ensures Shown(Closed(s), true) == Shown(s.segments, true)
  {
    if s.pending.Some? {
      ShownSnoc(s.segments, Finalize(s.pending.value), false);
      ShownSnoc(s.segments, Finalize(s.pending.value), true);
    }
  }

  /** The segments hold the chat messages and classified tools in their order, and the unclassified tools in theirs. */
  lemma SegmentsKeepOrder(ms: seq<Message>)
    ensures Shown(SegmentsOf(ms), false) == Filter(ms, Main())
    ensures Shown(SegmentsOf(ms), true) == Filter(ms, Unknown())
  {
    OrderWithinKinds(ms);
    ClosedShows(Scanned(ms));
  }

  lemma {:induction false} ShownTogether(ss: seq<Segment>)
    ensures multiset(MessagesOf(ss)) == multiset(Shown(ss, false)) + multiset(Shown(ss, true))
  {
    if ss != [] {
      ShownTogether(ss[..|ss| - 1]);
    }
  }

  lemma FilterLast(ms: seq<Message>, p: Message -> bool)
    ensures ms == [] ==> Filter(ms, p) == []
    ensures ms != [] ==> var m := ms[|ms| - 1];
                         Filter(ms, p) == Filter(ms[..|ms| - 1], p) + (if p(m) then [m] else [])
  {
  }

  lemma Kinds(m: Message)
    ensures Visible()(m) == (IsMain(m) || IsUnknown(m)) && Main()(m) == IsMain(m) && Unknown()(m) == IsUnknown(m)
    ensures !(IsMain(m) && IsUnknown(m))
  {
  }

  lemma {:induction false} FilterTogether(ms: seq<Message>)
    ensures multiset(Filter(ms, Visible())) == multiset(Filter(ms, Main())) + multiset(Filter(ms, Unknown()))
  {
    hide *;
    FilterLast(ms, Visible());
    FilterLast(ms, Main());
    FilterLast(ms, Unknown());
    if ms != [] {
      var front, m := ms[..|ms| - 1], ms[|ms| - 1];
      FilterTogether(front);
      Kinds(m);
      SplitGrows(Filter(front, Visible()), Filter(front, Main()), Filter(front, Unknown()), m, IsMain(m), IsUnknown(m));
    }
  }

  lemma SplitGrows(v: seq<Message>, a: seq<Message>, b: seq<Message>, m: Message, inA: bool, inB: bool)
    requires multiset(v) == multiset(a) + multiset(b) && !(inA && inB)
    ensures multiset(v + (if inA || inB then [m] else []))
            == multiset(a + (if inA then [m] else [])) + multiset(b + (if inB then [m] else []))
  {
    assert v + [] == v && a + [] == a && b + [] == b;
  }

  /** Each user, assistant and tool message lands in exactly one segment, the others in none. */
  lemma SegmentsConserve(ms: seq<Message>)
    ensures multiset(MessagesOf(SegmentsOf(ms))) == multiset(Filter(ms, Visible()))
  {
    SegmentsKeepOrder(ms);
    ShownTogether(SegmentsOf(ms));
    FilterTogether(ms);
  }

  // ---- When the whole order is kept ----

  /** An unclassified tool arrives while a run of tools is open. */
  predicate Overtakes(ms: seq<Message>) {
    ms != [] && (Overtakes(ms[..|ms| - 1]) || (IsUnknown(ms[|ms| - 1]) && Scanned(ms[..|ms| - 1]).pending.Some?))
  }

  ghost predicate DifferAt(a: seq<Message>, b: seq<Message>, k: int) {
    0 <= k < |a| && k < |b| && a[k] != b[k]
  }

  lemma ClosedMessages(s: Scan)
    ensures MessagesOf(Closed(s)) == MessagesOf(s.segments) + PendingItems(s.pending)
  {
    if s.pending.Some? {
      MessagesSnoc(s.segments, Finalize(s.pending.value));
    }
  }

  /** What one message adds to the messages laid out so far. */
  lemma NextMessages(s: Scan, m: Message)
    ensures var t := Next(s, m);
            && MessagesOf(s.segments) <= MessagesOf(t.segments)
            && (IsUnknown(m) ==> MessagesOf(t.segments) == MessagesOf(s.segments) + [m] && t.pending == s.pending)
            && (!IsUnknown(m) ==> MessagesOf(t.segments) + PendingItems(t.pending)
                                  == MessagesOf(s.segments) + PendingItems(s.pending)
                                      + (if IsVisible(m) then [m] else []))
  {
    ClosedMessages(s);
    MessagesSnoc(s.segments, Single(m));
    MessagesSnoc(Closed(s), Chat(m));
    hide MessagesOf, Closed;
  }

  lemma {:induction false} PendingIsClassified(ms: seq<Message>)
    ensures forall m :: m in PendingItems(Scanned(ms).pending) ==> IsClassified(m)
    ensures Scanned(ms).pending.Some? ==> Scanned(ms).pending.value.items != []
  {
    if ms != [] {
      PendingIsClassified(ms[..|ms| - 1]);
    }
  }

  lemma ScannedLast(ms: seq<Message>)
    ensures ms == [] ==>
              Scanned(ms) == Scan([], None) && MessagesOf([]) == [] && PendingItems(None) == [] && !Overtakes(ms)
    ensures ms != [] ==> Scanned(ms) == Next(Scanned(ms[..|ms| - 1]), ms[|ms| - 1])
    ensures ms != [] ==>
              (Overtakes(ms) <==>
               Overtakes(ms[..|ms| - 1]) || (IsUnknown(ms[|ms| - 1]) && Scanned(ms[..|ms| - 1]).pending.Some?))
  {
  }

  lemma OpenPending(ms: seq<Message>, m: Message)
    requires IsUnknown(m)
    ensures var p := Scanned(ms).pending;
            if p.Some? then PendingItems(p) != [] && PendingItems(p)[0] != m else PendingItems(p) == []
  {
    PendingIsClassified(ms);
    var items := PendingItems(Scanned(ms).pending);
    assert items != [] ==> items[0] in items;
  }

  lemma {:induction false} OvertakingShows(ms: seq<Message>) returns (k: int)
    ensures var s := Scanned(ms);
            if Overtakes(ms) then DifferAt(MessagesOf(s.segments), Filter(ms, Visible()), k)
            else MessagesOf(s.segments) + PendingItems(s.pending) == Filter(ms, Visible())
  {
    hide *;
    k := 0;
    ScannedLast(ms);
    FilterLast(ms, Visible());
    if ms != [] {
      var front, m := ms[..|ms| - 1], ms[|ms| - 1];
      k := OvertakingShows(front);
      NextMessages(Scanned(front), m);
      Kinds(m);
      VisibleIs(m);
      var a, a' := MessagesOf(Scanned(front).segments), MessagesOf(Scanned(ms).segments);
      if Overtakes(front) {
        DifferenceStays(a, Filter(front, Visible()), a', Filter(ms, Visible()), k);
      } else if IsUnknown(m) {
        OpenPending(front, m);
        if Scanned(front).pending.Some? {
          k := |a|;
          DifferenceHere(a, PendingItems(Scanned(front).pending), m);
        } else {
          AppendNothing(a);
          AppendNothing(a + [m]);
        }
      }
    }
  }

  lemma VisibleIs(m: Message)
    ensures Visible()(m) == IsVisible(m) && (IsUnknown(m) ==> IsVisible(m))
  {
  }

  lemma DifferenceHere(a: seq<Message>, p: seq<Message>, m: Message)
    requires p != [] && p[0] != m
    ensures DifferAt(a + [m], a + p + [m], |a|)
  {
  }

  lemma DifferenceStays(a: seq<Message>, b: seq<Message>, a': seq<Message>, b': seq<Message>, k: int)
    requires DifferAt(a, b, k) && a <= a' && b <= b'
    ensures DifferAt(a', b', k)
  {
  }

  /** A run of tools is open at the end: one came after the last chat message. */
  ghost predicate RunIsOpen(ms: seq<Message>) {
    exists j :: 0 <= j < |ms| && ms[j].role == ToolSummary && ms[j].toolClass.Some?
                && forall k :: j < k < |ms| ==> ms[k].role != User && ms[k].role != Assistant
  }

  lemma RunIsOpenSnoc(ms: seq<Message>, m: Message)
    ensures RunIsOpen(ms + [m]) <==>
            !IsChat(m) && (IsClassified(m) || RunIsOpen(ms))
  {
    var all := ms + [m];
    assert all[|ms|] == m;
    if RunIsOpen(ms) && !IsChat(m) {
      var j :| 0 <= j < |ms| && ms[j].role == ToolSummary && ms[j].toolClass.Some?
               && forall k :: j < k < |ms| ==> ms[k].role != User && ms[k].role != Assistant;
      assert all[j] == ms[j];
    }
    if RunIsOpen(all) && !IsClassified(m) {
      var j :| 0 <= j < |all| && all[j].role == ToolSummary && all[j].toolClass.Some?
               && forall k :: j < k < |all| ==> all[k].role != User && all[k].role != Assistant;
      assert all[j] == ms[j] && forall k :: j < k < |ms| ==> all[k] == ms[k];
    }
  }

  lemma {:induction false} PendingMeansOpen(ms: seq<Message>)
    ensures Scanned(ms).pending.Some? <==> RunIsOpen(ms)
  {
    if ms != [] {
      var front, m := ms[..|ms| - 1], ms[|ms| - 1];
      PendingMeansOpen(front);
      hide RunIsOpen;
      RunIsOpenSnoc(front, m);
      assert front + [m] == ms;
    }
  }

  /** Some unclassified tool comes after a classified one with no chat message between. */
  lemma {:induction false} OvertakesExactly(ms: seq<Message>)
    ensures Overtakes(ms) <==>
            exists k :: 0 <= k < |ms| && ms[k].role == ToolSummary && ms[k].toolClass.None? && RunIsOpen(ms[..k])
  {
    if ms != [] {
      var front, n := ms[..|ms| - 1], |ms| - 1;
      OvertakesExactly(front);
      PendingMeansOpen(front);
      hide RunIsOpen, Scanned;
      assert forall k :: 0 <= k < n ==> front[k] == ms[k] && front[..k] == ms[..k];
    }
  }

  /** The segments lay all messages out in their order exactly when no unclassified tool arrives
      while a run of tools is open. */
  lemma OrderKeptExactlyWithoutOvertaking(ms: seq<Message>)
    ensures MessagesOf(SegmentsOf(ms)) == Filter(ms, Visible()) <==> !Overtakes(ms)
  {
    var k := OvertakingShows(ms);
    ClosedMessages(Scanned(ms));
  }

  // ---- Tool segments are maximal runs ----

  /** How many of the tools are of a kind. */
  ghost function HowMany(items: seq<Message>, sub: Sub): nat {
    |set i | 0 <= i < |items| && items[i].toolClass.Some? && items[i].toolClass.value.sub == sub|
  }

  lemma OneItemMore(items: seq<Message>, m: Message, sub: Sub)
    ensures HowMany(items + [m], sub)
            == HowMany(items, sub) + (if m.toolClass.Some? && m.toolClass.value.sub == sub then 1 else 0)
    ensures HowMany([], sub) == 0
  {
    var all := items + [m];
    var before := set i | 0 <= i < |items| && items[i].toolClass.Some? && items[i].toolClass.value.sub == sub;
    var after := set i | 0 <= i < |all| && all[i].toolClass.Some? && all[i].toolClass.value.sub == sub;
    assert |items| !in before;
    assert after == if m.toolClass.Some? && m.toolClass.value.sub == sub then before + {|items|} else before;
    var none: seq<Message> := [];
    assert (set i | 0 <= i < |none| && none[i].toolClass.Some? && none[i].toolClass.value.sub == sub) == {};
  }

  /** The last time any of the tools carries. */
  ghost predicate IsLastTime(items: seq<Message>, end: Option<int>) {
    match end
    case None => forall m :: m in items ==> m.time.None?
    case Some(_) =>
      exists i :: 0 <= i < |items| && items[i].time == end && forall j :: i < j < |items| ==> items[j].time.None?
  }

  lemma LastTimeOn(items: seq<Message>, m: Message, end: Option<int>)
    requires IsLastTime(items, end)
    ensures IsLastTime(items + [m], if m.time.Some? then m.time else end)
  {
    var all := items + [m];
    assert all[|items|] == m;
    if m.time.None? && end.Some? {
      var i :| 0 <= i < |items| && items[i].time == end && forall j :: i < j < |items| ==> items[j].time.None?;
      assert all[i] == items[i];
    }
  }

  ghost predicate GoodPending(p: Pending) {
    && p.items != [] && p.start == p.items[0].time && IsLastTime(p.items, p.end)
    && (forall m :: m in p.items ==>
          m.role == ToolSummary && m.toolClass.Some? && m.toolClass.value.category == p.category)
    && p.files == HowMany(p.items, File) && p.searches == HowMany(p.items, Search)
    && p.commands == HowMany(p.items, Command)
  }

  lemma {:induction false} PendingIsGood(ms: seq<Message>)
    ensures Scanned(ms).pending.Some? ==> GoodPending(Scanned(ms).pending.value)
  {
    if ms != [] {
      PendingIsGood(ms[..|ms| - 1]);
      NextPendingIsGood(Scanned(ms[..|ms| - 1]), ms[|ms| - 1]);
      hide GoodPending, Next;
    }
  }

  lemma NextPendingIsGood(s: Scan, m: Message)
    requires s.pending.Some? ==> GoodPending(s.pending.value)
    ensures Next(s, m).pending.Some? ==> GoodPending(Next(s, m).pending.value)
  {
    hide GoodPending;
    if IsClassified(m) {
      OpenIsGood(m, m.toolClass.value);
      if s.pending.Some? && s.pending.value.category == m.toolClass.value.category {
        MergeIsGood(s.pending.value, m, m.toolClass.value);
      }
    }
  }

  lemma OpenIsGood(m: Message, c: Class)
    requires IsClassified(m) && m.toolClass == Some(c)
    ensures GoodPending(Open(m, c))
  {
    assert [] + [m] == [m];
    OneItemMore([], m, File);
    OneItemMore([], m, Search);
    OneItemMore([], m, Command);
    LastTimeOn([], m, None);
    hide HowMany, IsLastTime;
  }

  lemma MergeIsGood(p: Pending, m: Message, c: Class)
    requires GoodPending(p) && IsClassified(m) && m.toolClass == Some(c) && c.category == p.category
    ensures GoodPending(Merge(p, m, c))
  {
    OneItemMore(p.items, m, File);
    OneItemMore(p.items, m, Search);
    OneItemMore(p.items, m, Command);
    LastTimeOn(p.items, m, p.end);
    hide HowMany, IsLastTime;
  }

  /** The messages of each segment that is not a single unclassified tool. */
  function ItemRuns(ss: seq<Segment>): seq<seq<Message>> {
    if ss == [] then []
    else ItemRuns(ss[..|ss| - 1]) + (if ss[|ss| - 1].Single? then [] else [MessagesIn(ss[|ss| - 1])])
  }

  lemma ItemRunsSnoc(ss: seq<Segment>, s: Segment)
    ensures ItemRuns(ss + [s]) == ItemRuns(ss) + (if s.Single? then [] else [MessagesIn(s)])
  {
    assert (ss + [s])[..|ss|] == ss;
  }

  function OpenRun(p: Option<Pending>): seq<seq<Message>> {
    if p.Some? then [p.value.items] else []
  }

  /** The runs laid out so far, and whether the last one may still grow. */
  ghost predicate Laid(s: Scan, runs: seq<seq<Message>>) {
    && ItemRuns(s.segments) + OpenRun(s.pending) == runs
    && (s.pending.Some? ==> GoodPending(s.pending.value))
    && (s.pending.None? && runs != [] ==> runs[|runs| - 1] != [] && IsChat(LastOf(runs)))
  }

  lemma ClosedRuns(s: Scan)
    ensures ItemRuns(Closed(s)) == ItemRuns(s.segments) + OpenRun(s.pending)
  {
    if s.pending.Some? {
      ItemRunsSnoc(s.segments, Finalize(s.pending.value));
    }
  }

  lemma ChatLaid(s: Scan, m: Message, runs: seq<seq<Message>>)
    requires Laid(s, runs) && IsChat(m)
    ensures Laid(Next(s, m), runs + [[m]])
  {
    ClosedRuns(s);
    ItemRunsSnoc(Closed(s), Chat(m));
    hide ItemRuns, Closed, GoodPending;
  }

  lemma ToolStartsRun(s: Scan, m: Message, runs: seq<seq<Message>>)
    requires Laid(s, runs) && IsClassified(m)
             && !(s.pending.Some? && s.pending.value.category == m.toolClass.value.category)
    ensures Laid(Next(s, m), runs + [[m]])
  {
    ClosedRuns(s);
    NextPendingIsGood(s, m);
    hide ItemRuns, Closed, GoodPending;
  }

  lemma ToolJoinsRun(s: Scan, m: Message, runs: seq<seq<Message>>)
    requires Laid(s, runs) && IsClassified(m) && s.pending.Some?
             && s.pending.value.category == m.toolClass.value.category
    ensures runs != [] && Laid(Next(s, m), AddTo(runs, m, true))
  {
    NextPendingIsGood(s, m);
    hide ItemRuns, GoodPending;
    assert runs[|runs| - 1] == s.pending.value.items && runs[..|runs| - 1] == ItemRuns(s.segments);
  }

  lemma OtherLaid(s: Scan, m: Message, runs: seq<seq<Message>>)
    requires Laid(s, runs) && !IsMain(m)
    ensures Laid(Next(s, m), runs)
  {
    ItemRunsSnoc(s.segments, Single(m));
    hide ItemRuns, GoodPending;
    assert ItemRuns(s.segments) + [] == ItemRuns(s.segments);
  }

  /** Whether the next tool joins the open run, and whether it joins the last run laid out. */
  lemma SameJoin(s: Scan, m: Message, runs: seq<seq<Message>>)
    requires Laid(s, runs) && NonEmpty(runs)
    ensures runs != [] && Alike()(LastOf(runs), m) <==>
            IsClassified(m) && s.pending.Some? && s.pending.value.category == m.toolClass.value.category
  {
    hide ItemRuns;
    if s.pending.Some? {
      var items := s.pending.value.items;
      assert runs[|runs| - 1] == items && items[|items| - 1] in items;
    }
  }

  lemma NextLaid(s: Scan, m: Message, runs: seq<seq<Message>>)
    requires Laid(s, runs) && NonEmpty(runs)
    ensures IsMain(m) ==> Laid(Next(s, m), AddTo(runs, m, runs != [] && Alike()(LastOf(runs), m)))
    ensures !IsMain(m) ==> Laid(Next(s, m), runs)
  {
    SameJoin(s, m, runs);
    hide Laid, Next, Alike;
    if !IsMain(m) {
      OtherLaid(s, m, runs);
    } else if IsChat(m) {
      ChatLaid(s, m, runs);
    } else if s.pending.Some? && s.pending.value.category == m.toolClass.value.category {
      ToolJoinsRun(s, m, runs);
    } else {
      ToolStartsRun(s, m, runs);
    }
  }

  lemma {:induction false} ScannedLaid(ms: seq<Message>)
    ensures Laid(Scanned(ms), Runs(Filter(ms, Main()), Alike()))
  {
    hide *;
    ScannedLast(ms);
    FilterLast(ms, Main());
    if ms == [] {
      NothingLaid();
    } else {
      var front, m := ms[..|ms| - 1], ms[|ms| - 1];
      var main := Filter(front, Main());
      ScannedLaid(front);
      RunsAreMaximal(main, Alike());
      RunsSnoc(main, m, Alike());
      MaximalNonEmpty(Runs(main, Alike()));
      NextLaid(Scanned(front), m, Runs(main, Alike()));
      Kinds(m);
      EmptyRuns(main);
      AppendNothing(main);
    }
  }

  lemma EmptyRuns(ms: seq<Message>)
    ensures ms == [] ==> Runs(ms, Alike()) == []
  {
  }

  lemma MaximalNonEmpty(runs: seq<seq<Message>>)
    requires Maximal(runs, Alike())
    ensures NonEmpty(runs)
  {
  }

  lemma NothingLaid()
    ensures Laid(Scan([], None), Runs([], Alike()))
  {
  }

  /** Leaving the single unclassified tools out, the segments are the maximal runs of tools of one category
      and the chat messages one by one. */
  lemma SegmentsAreMaximalRuns(ms: seq<Message>)
    ensures ItemRuns(SegmentsOf(ms)) == Runs(Filter(ms, Main()), Alike())
  {
    ScannedLaid(ms);
    ClosedRuns(Scanned(ms));
  }

  ghost predicate GoodSegment(s: Segment) {
    s.Tools? ==> GoodPending(Pending(s.category, s.items, s.start, s.end, s.files, s.searches, s.commands))
  }

  /** Every tool segment holds tools of its category, counted by kind. */
  lemma {:induction false} SegmentsAreGood(ms: seq<Message>)
    ensures forall s :: s in Scanned(ms).segments ==> GoodSegment(s)
    ensures forall s :: s in SegmentsOf(ms) ==> GoodSegment(s)
  {
    PendingIsGood(ms);
    if ms != [] {
      SegmentsAreGood(ms[..|ms| - 1]);
      PendingIsGood(ms[..|ms| - 1]);
      hide GoodPending;
    }
  }

  // ---- Durations ----

  /** Milliseconds between the ends; a missing time counts as the epoch. */
  function Duration(start: Option<int>, end: Option<int>): (d: nat)
    ensures start.Some? && end.Some? && start.value <= end.value ==> start.value + d == end.value
    ensures start.Some? && end.Some? && end.value < start.value ==> d == 0
  {
    if end.GetOr(0) > start.GetOr(0) then end.GetOr(0) - start.GetOr(0) else 0
  }

  /** A run whose first tool has no time lasts since the epoch as soon as a later one has a time. */
  lemma MissingFirstTimeCountsFromEpoch(a: Message, b: Message)
    requires IsClassified(a) && IsClassified(b) && a.toolClass.value.category == b.toolClass.value.category
    requires a.time.None? && b.time.Some? && b.time.value > 0
    ensures |SegmentsOf([a, b])| == 1 && SegmentsOf([a, b])[0].Tools?
    ensures Duration(SegmentsOf([a, b])[0].start, SegmentsOf([a, b])[0].end) == b.time.value
  {
    assert [a, b][..1] == [a] && [a][..0] == [];
    assert Scanned([a]) == Next(Scanned([]), a) && Scanned([]) == Scan([], None);
    assert Scanned([a, b]) == Next(Scanned([a]), b);
  }
}
