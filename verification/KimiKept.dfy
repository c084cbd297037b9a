/** What an add and a remove leave of the Kimi file, said on its old and new lines
    (crates/core/src/hook_status.rs). */
module KimiKept {
  import opened Common
  import opened Text
  import opened Positions
  import opened LineEnds
  import opened KimiBlocks
  import opened KimiHooks
  import opened KimiHookBlock
  import opened KimiAppend
  import opened KimiLineEnds
  import opened KimiReconcile
  import opened KimiRoundTrip
  import opened KimiPositions

  // ---- Lines that go at the end ----

  /** `a` is `b` without up to `k` blank lines at its end, up to carriage returns at line ends. */
  ghost predicate Cut(a: seq<string>, b: seq<string>, k: nat) {
    && |a| <= |b| <= |a| + k && Alike(a, b[..|a|])
    && forall m :: |a| <= m < |b| ==> Bare(b[m]) == ""
  }

  lemma CutTwice(a: seq<string>, b: seq<string>, c: seq<string>, j: nat, k: nat)
    requires Cut(a, b, j) && Cut(b, c, k)
    ensures Cut(a, c, j + k)
  {
    assert forall m :: 0 <= m < |b| ==> Bare(b[m]) == Bare(c[..|b|][m]);
    assert forall m :: 0 <= m < |a| ==> Bare(a[m]) == Bare(b[..|a|][m]);
  }

  lemma AlikeCut(a: seq<string>, b: seq<string>)
    requires Alike(a, b)
    ensures Cut(a, b, 0)
  {
    assert b[..|a|] == b;
  }

  lemma DropCuts(a: seq<string>, ls: seq<string>)
    requires Alike(a, DropTrailingBlank(ls))
    ensures Cut(a, ls, 1)
  {
    var b := DropTrailingBlank(ls);
    assert ls == b || ls == b + [""];
    assert |a| == |b| && ls[..|b|] == b;
    assert Bare("") == "";
    hide DropTrailingBlank, Bare;
  }

  /** Joining and splitting again cuts one blank line at most. */
  lemma PassCuts(ls: seq<string>)
    requires NoNewlines(ls)
    ensures Cut(Lines(Join(ls)), ls, 1)
  {
    LinesOfJoinAlike(ls);
    hide Lines, Join;
    DropCuts(Lines(Join(ls)), ls);
  }

  lemma {:induction false} FlattenAlike(a: seq<Block>, b: seq<Block>)
    requires AlikeBlockLists(a, b)
    ensures Alike(Flatten(a), Flatten(b))
  {
    if a != [] {
      var n := |a| - 1;
      FlattenAlike(a[..n], b[..n]);
      AlikeAppend(Flatten(a[..n]), Flatten(b[..n]), a[n], b[n]);
    }
  }

  lemma SameDropped(a: Block, b: Block, p: Block -> bool)
    requires Alike(a, b) && IgnoresCr(p)
    ensures IsHookBlock(a) && p(a) <==> IsHookBlock(b) && p(b)
  {
    HookBlockAlike(a, b);
  }

  lemma AlikeListSnoc(a: seq<Block>, b: seq<Block>, x: Block, y: Block)
    requires AlikeBlockLists(a, b) && Alike(x, y)
    ensures AlikeBlockLists(a + [x], b + [y]) && AlikeBlockLists(a + [], b + [])
  {
    hide Alike;
  }

  lemma {:induction false} KeepAlike(a: seq<Block>, b: seq<Block>, p: Block -> bool)
    requires AlikeBlockLists(a, b) && IgnoresCr(p)
    ensures AlikeBlockLists(Keep(a, p), Keep(b, p))
  {
    if a != [] {
      var n := |a| - 1;
      assert Alike(a[n], b[n]);
      SameDropped(a[n], b[n], p);
      KeepAlike(a[..n], b[..n], p);
      hide Keep, IsHookBlock, Alike, IgnoresCr, AlikeBlockLists;
      assert a == a[..n] + [a[n]] && b == b[..n] + [b[n]];
      KeepSnoc(a[..n], a[n], p);
      KeepSnoc(b[..n], b[n], p);
      AlikeListSnoc(Keep(a[..n], p), Keep(b[..n], p), a[n], b[n]);
    }
  }

  lemma RemoveAlike(a: seq<string>, b: seq<string>, p: Block -> bool)
    requires Alike(a, b) && IgnoresCr(p)
    ensures Alike(Remove(a, p), Remove(b, p))
  {
    BlocksAlike(a, b);
    KeepAlike(Blocks(a), Blocks(b), p);
    FlattenAlike(Keep(Blocks(a), p), Keep(Blocks(b), p));
  }

  function Blanks(n: nat): seq<string> {
    seq(n, _ => "")
  }

  lemma {:induction false} RemoveBlanks(ls: seq<string>, n: nat, p: Block -> bool) returns (j: nat)
    requires IgnoresBlank(p)
    ensures j <= n && Remove(ls + Blanks(n), p) == Remove(ls, p) + Blanks(j)
  {
    hide *;
    OneBlankMore(ls, n);
    if n == 0 {
      j := 0;
      OneBlankMore(Remove(ls, p), 0);
    } else {
      var i := RemoveBlanks(ls, n - 1, p);
      RemoveWithBlank(ls + Blanks(n - 1), p);
      j := if LastDropped(ls + Blanks(n - 1), p) then i else i + 1;
      OneBlankMore(Remove(ls, p), i + 1);
      AppendNothing(Remove(ls, p) + Blanks(i));
    }
  }

  lemma OneBlankMore(ls: seq<string>, n: nat)
    ensures ls + Blanks(0) == ls
    ensures n > 0 ==> ls + Blanks(n) == ls + Blanks(n - 1) + [""]
  {
  }

  /** A removal of the shorter lines is the removal of the longer ones, cut in the same way. */
  lemma RemoveCut(a: seq<string>, b: seq<string>, k: nat, p: Block -> bool)
    requires Cut(a, b, k) && IgnoresBlank(p) && IgnoresCr(p)
    ensures Cut(Remove(a, p), Remove(b, p), k)
  {
    var n := |b| - |a|;
    var c := a + Blanks(n);
    assert Alike(c, b) by {
      assert forall m :: 0 <= m < |a| ==> Bare(a[m]) == Bare(b[..|a|][m]);
    }
    RemoveAlike(c, b, p);
    var j := RemoveBlanks(a, n, p);
    hide Remove;
    ShorterAlike(Remove(a, p), Remove(b, p), j);
  }

  lemma ShorterAlike(a: seq<string>, b: seq<string>, j: nat)
    requires Alike(a + Blanks(j), b)
    ensures Cut(a, b, j)
  {
    var c := a + Blanks(j);
    assert forall m :: 0 <= m < |c| ==> Bare(c[m]) == Bare(b[m]);
    assert forall m :: |a| <= m < |c| ==> c[m] == "";
  }

  // ---- Lines that stay ----

  /** Stripping keeps, in order, exactly the lines other than `hooks = []`. */
  lemma {:induction false} StripByPosition(ls: seq<string>) returns (at: seq<int>)
    ensures Picks(ls, at, Strip(ls)) && OtherLines(ls, at)
  {
    hide *;
    if ls == [] {
      at := [];
      NothingStripped();
    } else {
      var rest := StripByPosition(ls[1..]);
      at := OneLineMore(ls, rest, Strip(ls[1..]));
      StripStep(ls);
    }
  }

  /** `at` are the positions of the lines other than `hooks = []`. */
  predicate OtherLines(ls: seq<string>, at: seq<int>) {
    forall r :: 0 <= r < |ls| ==> (r in at <==> Trim(ls[r]) != "hooks = []")
  }

  lemma NothingStripped()
    ensures Picks([], [], Strip([])) && OtherLines([], [])
  {
  }

  lemma OneLineMore(ls: seq<string>, rest: seq<int>, kept: seq<string>) returns (at: seq<int>)
    requires ls != [] && Picks(ls[1..], rest, kept) && OtherLines(ls[1..], rest)
    ensures OtherLines(ls, at)
    ensures Picks(ls, at, (if Trim(ls[0]) == "hooks = []" then [] else [ls[0]]) + kept)
  {
    hide Trim, Picks, Prefixed;
    var stays := Trim(ls[0]) != "hooks = []";
    at := Prefixed(stays, rest);
    PrefixedMembers(ls, rest, kept, stays);
    PrefixedPicks(ls, rest, kept, stays);
  }

  lemma StripStep(ls: seq<string>)
    requires ls != []
    ensures Strip(ls) == (if Trim(ls[0]) == "hooks = []" then [] else [ls[0]]) + Strip(ls[1..])
  {
  }

  /** An old command line of this program. */
  predicate OldCommand(l: string) {
    "command = " <= Trim(l) && Contains(Trim(l), "checkpoint-hook")
  }

  predicate NewMark(l: string) {
    Contains(l, "agent-aspect-hook")
  }

  function Old(): string -> bool { l => OldCommand(l) }

  function New(): string -> bool { l => NewMark(l) }

  function OldOrNew(): string -> bool { l => OldCommand(l) || NewMark(l) }

  lemma OldMeans(b: Block)
    ensures Legacy(b) <==> IsMarked(b, Old())
  {
    assert forall l :: Old()(l) == LegacyCommandLine(l);
    hide Old, LegacyCommandLine;
    assert forall j :: 0 <= j < |b| ==> b[j] in b;
  }

  lemma NewMeans(b: Block)
    ensures Ours(b) <==> IsMarked(b, New())
  {
    assert forall l :: New()(l) == MarkedLine(l);
    hide New, MarkedLine;
    assert forall j :: 0 <= j < |b| ==> b[j] in b;
  }

  lemma EitherMark(l: string)
    ensures OldOrNew()(l) == (Old()(l) || New()(l))
  {
  }

  lemma EitherMeans(b: Block)
    ensures Either(Ours, Legacy)(b) <==> IsMarked(b, OldOrNew())
  {
    hide OldOrNew, Old, New, Ours, Legacy;
    OldMeans(b);
    NewMeans(b);
    forall l ensures OldOrNew()(l) == (Old()(l) || New()(l)) {
      EitherMark(l);
    }
  }

  lemma MarkMeans()
    ensures MeansMarked(Legacy, Old()) && MeansMarked(Either(Ours, Legacy), OldOrNew())
  {
    forall b: Block
      ensures Legacy(b) <==> IsMarked(b, Old())
      ensures Either(Ours, Legacy)(b) <==> IsMarked(b, OldOrNew())
    {
      OldMeans(b);
      EitherMeans(b);
    }
  }

  // ---- Sections among the lines that stay ----

  /** No line that goes opens a section or has the mark. */
  predicate OnlyPlainGo(ls: seq<string>, at: seq<int>, mark: string -> bool) {
    forall r :: 0 <= r < |ls| && (OpensSection(ls[r]) || mark(ls[r])) ==> r in at
  }

  lemma OpensHookOpens(l: string)
    ensures OpensHook(l) ==> OpensSection(l)
  {
  }

  lemma SectionStays(ls: seq<string>, at: seq<int>, kept: seq<string>, mark: string -> bool, m: int, n: int)
    requires Picks(ls, at, kept) && OnlyPlainGo(ls, at, mark) && 0 <= m < |at| && 0 <= n < |at|
    ensures InHookAt(kept, m, n) <==> InHookAt(ls, at[m], at[n])
  {
    hide OpensSection, OpensHook;
    if InHookAt(kept, m, n) {
      forall r | at[m] < r <= at[n] ensures !OpensSection(ls[r]) {
        if r in at {
          var j :| 0 <= j < |at| && at[j] == r;
          assert kept[j] == ls[r];
        }
      }
    }
    if InHookAt(ls, at[m], at[n]) {
      forall j | m < j <= n ensures !OpensSection(kept[j]) {
        assert kept[j] == ls[at[j]];
      }
    }
  }

  lemma MarkedStays(ls: seq<string>, at: seq<int>, kept: seq<string>, mark: string -> bool, m: int)
    requires Picks(ls, at, kept) && OnlyPlainGo(ls, at, mark) && 0 <= m < |at|
    ensures InMarkedHook(kept, m, mark) <==> InMarkedHook(ls, at[m], mark)
  {
    hide OpensSection, OpensHook;
    if InMarkedHook(kept, m, mark) {
      var h, q :| InHookAt(kept, h, m) && InHookAt(kept, h, q) && mark(kept[q]);
      InHookIsLine(kept, h, m);
      InHookIsLine(kept, h, q);
      SectionStays(ls, at, kept, mark, h, m);
      SectionStays(ls, at, kept, mark, h, q);
      assert kept[q] == ls[at[q]];
    }
    if InMarkedHook(ls, at[m], mark) {
      var h, q :| InHookAt(ls, h, at[m]) && InHookAt(ls, h, q) && mark(ls[q]);
      InHookIsLine(ls, h, q);
      OpenerOpens(ls, h, q);
      var i :| 0 <= i < |at| && at[i] == h;
      var j :| 0 <= j < |at| && at[j] == q;
      SectionStays(ls, at, kept, mark, i, m);
      SectionStays(ls, at, kept, mark, i, j);
      assert kept[j] == ls[q];
    }
  }

  lemma OpenerOpens(ls: seq<string>, h: int, q: int)
    requires InHookAt(ls, h, q)
    ensures OpensSection(ls[h])
  {
    OpensHookOpens(ls[h]);
  }

  // ---- What an add keeps ----

  /** `at` are the positions of the lines an add keeps: all but the `hooks = []` lines and the hook sections with an
      old command. */
  ghost predicate KeptByAdd(ls: seq<string>, at: seq<int>) {
    && Increasing(at) && (forall m :: 0 <= m < |at| ==> 0 <= at[m] < |ls|)
    && forall r :: 0 <= r < |ls| ==> (r in at <==> Trim(ls[r]) != "hooks = []" && !InMarkedHook(ls, r, Old()))
  }

  lemma EmptyHooksIsPlain(l: string)
    requires Trim(l) == "hooks = []"
    ensures !OpensSection(l) && !OldCommand(l)
  {
    assert Trim(l)[0] == 'h' && "command = "[0] == 'c';
  }

  /** Line by line, that is what stripping and removing the legacy blocks leave. */
  lemma KeptLinesOfAdd(ls: seq<string>) returns (at: seq<int>)
    ensures KeptByAdd(ls, at) && Picks(ls, at, Remove(Strip(ls), Legacy))
  {
    var others := StripByPosition(ls);
    var mid := Strip(ls);
    MarkMeans();
    var next := RemoveByPosition(mid, Legacy, Old());
    ThroughPicks(ls, others, mid, next, Remove(mid, Legacy));
    at := Through(others, next);
    OnlyPlainGoes(ls, others);
    hide Strip, Remove, Legacy, InMarkedHook, OnlyPlainGo, Through, Trim;
    forall r | 0 <= r < |ls| ensures r in at <==> Trim(ls[r]) != "hooks = []" && !InMarkedHook(ls, r, Old()) {
      if r in others {
        var m :| 0 <= m < |others| && others[m] == r;
        MarkedStays(ls, others, mid, Old(), m);
      }
    }
  }

  lemma OnlyPlainGoes(ls: seq<string>, at: seq<int>)
    requires OtherLines(ls, at)
    ensures OnlyPlainGo(ls, at, Old())
  {
    forall r | 0 <= r < |ls| && (OpensSection(ls[r]) || OldCommand(ls[r])) ensures r in at {
      if Trim(ls[r]) == "hooks = []" {
        EmptyHooksIsPlain(ls[r]);
      }
    }
  }

  lemma BaseIsCut(content: string)
    ensures Cut(Lines(BaseText(content)), Remove(Strip(Lines(content)), Legacy), 2)
  {
    hide *;
    var ls := Strip(Lines(content));
    var mid := Lines(Join(ls));
    var kept := Remove(mid, Legacy);
    BaseIs(content);
    LinesHaveNoNewlines(content);
    StripNoNewlines(Lines(content));
    PassCuts(ls);
    BothIgnore();
    RemoveCut(mid, ls, 1, Legacy);
    LinesHaveNoNewlines(Join(ls));
    KeptNoNewlines(mid, Legacy);
    PassCuts(kept);
    CutTwice(Lines(Join(kept)), kept, Remove(ls, Legacy), 1, 1);
  }

  lemma BaseIs(content: string)
    ensures BaseText(content) == Join(Remove(Lines(Join(Strip(Lines(content)))), Legacy))
  {
  }

  // ---- What an add appends ----

  /** A basic string of TOML (section "String" of TOML 1.0.0) with escaped backslashes and quotes read back. */
  function Unescape(s: string): Option<string> {
    if s == "" then Some("")
    else if s[0] == '"' then None
    else if s[0] == '\\' then
      if |s| >= 2 && (s[1] == '\\' || s[1] == '"') && Unescape(s[2..]).Some?
      then Some([s[1]] + Unescape(s[2..]).value) else None
    else if Unescape(s[1..]).Some? then Some([s[0]] + Unescape(s[1..]).value) else None
  }

  lemma UnescapeOne(c: char, rest: string)
    ensures Unescape((if c == '\\' || c == '"' then ['\\', c] else [c]) + rest)
            == if Unescape(rest).Some? then Some([c] + Unescape(rest).value) else None
  {
    var e := (if c == '\\' || c == '"' then ['\\', c] else [c]) + rest;
    assert if c == '\\' || c == '"' then e[2..] == rest else e[1..] == rest;
  }

  lemma {:induction false} UnescapeEscape(s: string)
    ensures Unescape(Escape(s)) == Some(s)
  {
    if s != "" {
      UnescapeEscape(s[1..]);
      assert Escape(s) == (if s[0] == '\\' || s[0] == '"' then ['\\', s[0]] else [s[0]]) + Escape(s[1..]);
      hide Escape, Unescape;
      UnescapeOne(s[0], Escape(s[1..]));
      assert s == [s[0]] + s[1..];
    }
  }

  /** The section written for one event. */
  ghost predicate IsSectionFor(b: Block, event: string, hook: string) {
    && |b| == (if event == "PreToolUse" then 4 else 3)
    && b[0] == "[[hooks]]" && b[1] == "event = \"" + event + "\""
    && (event == "PreToolUse" ==> b[2] == "matcher = \"*\"")
    && exists quoted :: Unescape(quoted) == Some("AGENT_ASPECT_AGENT=kimi " + hook)
                        && b[|b| - 1] == "command = \"" + quoted + "\""
  }

  lemma HookBlockIsSection(event: string, hook: string)
    ensures IsSectionFor(HookBlock(event, hook), event, hook)
  {
    UnescapeEscape(HookCommand(hook));
    hide Escape, Unescape;
    var quoted := Escape(HookCommand(hook));
    assert AGENT_PREFIX + " " + hook == "AGENT_ASPECT_AGENT=kimi " + hook;
    assert Unescape(quoted) == Some("AGENT_ASPECT_AGENT=kimi " + hook);
  }

  /** One section for each event in order, with a blank line in front of each but the first. */
  ghost predicate AppendedFor(tail: seq<string>, events: seq<string>, hook: string) {
    if events == [] then tail == []
    else if |events| == 1 then IsSectionFor(tail, events[0], hook)
    else exists n: nat :: SplitsAt(tail, n) && AppendedFor(tail[..n], events[..|events| - 1], hook)
                          && IsSectionFor(tail[n + 1..], events[|events| - 1], hook)
  }

  predicate SplitsAt(tail: seq<string>, n: nat) {
    n < |tail| && tail[n] == ""
  }

  lemma AppendOneMore(tail: seq<string>, events: seq<string>, event: string, hook: string)
    requires AppendedFor(tail, events, hook)
    ensures events == [] ==> AppendedFor(HookBlock(event, hook), events + [event], hook)
    ensures events != [] ==> AppendedFor(tail + [""] + HookBlock(event, hook), events + [event], hook)
  {
    var b, more := HookBlock(event, hook), events + [event];
    HookBlockIsSection(event, hook);
    hide HookBlock, IsSectionFor;
    if events != [] {
      var longer := tail + [""] + b;
      assert SplitsAt(longer, |tail|) && longer[..|tail|] == tail && longer[|tail| + 1..] == b;
      assert more[..|more| - 1] == events;
    }
  }

  /** The new lines are those of the old text with its last line ended, a blank line if need be, and the sections. */
  ghost predicate AppendedText(content: string, out: string, added: seq<string>, hook: string, tail: seq<string>) {
    && AppendedFor(tail, added, hook)
    && if added == [] then out == content
       else EndsWithNewline(out) && Lines(out) == Lines(Closed(content)) + Separator(content) + tail
  }

  lemma BlockFacts(event: string, hook: string)
    requires EventName(event) && HookPath(hook)
    ensures AllPlain(HookBlock(event, hook)) && EndsWithNewline(Terminate(HookBlock(event, hook)))
  {
    HookBlockFacts(event, hook);
    TerminateEnds(HookBlock(event, hook));
  }

  lemma EndedText(mid: string)
    ensures EndsWithNewline(mid) ==> Closed(mid) == mid && Separator(mid) == [""]
  {
  }

  lemma AppendText(content: string, mid: string, added: seq<string>, event: string, hook: string, tail: seq<string>)
    returns (longer: seq<string>)
    requires AppendedText(content, mid, added, hook, tail) && EventName(event) && HookPath(hook)
    ensures AppendedText(content, WithBlock(mid, HookBlock(event, hook)), added + [event], hook, longer)
  {
    hide Lines, WithBlock, AllPlain, Separator, Closed, HookBlock, AppendedFor, EventName, HookPath, Terminate;
    var b := HookBlock(event, hook);
    BlockFacts(event, hook);
    LinesWithBlock(mid, b);
    BlockEndsText(mid, b);
    EndedText(mid);
    AppendOneMore(tail, added, event, hook);
    longer := if added == [] then b else tail + [""] + b;
    Regroup(Lines(Closed(content)), Separator(content), tail, b);
  }

  lemma Regroup(ls: seq<string>, sep: seq<string>, tail: seq<string>, b: seq<string>)
    ensures ls + sep + tail + [""] + b == ls + sep + (tail + [""] + b)
  {
  }

  lemma {:induction false} AppendsExactly(content: string, events: seq<string>, hook: string)
    returns (tail: seq<string>)
    requires EventNames(events) && HookPath(hook)
    ensures AppendedText(content, AddedText(content, events, hook), AddedEvents(content, events, hook), hook, tail)
  {
    hide *;
    AddedNothing(content, events, hook);
    if events == [] {
      tail := [];
      NothingAppended(content, hook);
    } else {
      var before, event := events[..|events| - 1], events[|events| - 1];
      AddedStep(content, events, hook);
      NamesSnoc(events);
      tail := AppendsExactly(content, before, hook);
      if !HasCurrentHook(AddedText(content, before, hook), event) {
        tail := AppendText(content, AddedText(content, before, hook), AddedEvents(content, before, hook), event, hook,
                           tail);
      }
    }
  }

  lemma NothingAppended(content: string, hook: string)
    ensures AppendedText(content, content, [], hook, [])
  {
  }

  // ---- The file after an add ----

  /** The old and the new lines of a file: of the lines at the positions `at` all but up to two blank ones at the end
      are left, in order and up to carriage returns at line ends; then comes `tail`. */
  ghost predicate Follows(before: seq<string>, after: seq<string>, at: seq<int>, n: nat, tail: seq<string>) {
    && n <= |at| <= n + 2 && |after| == n + |tail|
    && (forall m :: 0 <= m < |at| ==> 0 <= at[m] < |before|)
    && (forall m :: 0 <= m < n ==> Bare(after[m]) == Bare(before[at[m]]))
    && (forall m :: n <= m < |at| ==> Bare(before[at[m]]) == "")
    && after[n..] == tail
  }

  lemma CutFollows(before: seq<string>, at: seq<int>, kept: seq<string>, base: seq<string>, tail: seq<string>)
    requires Picks(before, at, kept) && Cut(base, kept, 2)
    ensures Follows(before, base + tail, at, |base|, tail)
  {
    var after := base + tail;
    assert forall m :: 0 <= m < |base| ==> after[m] == base[m];
    assert forall m :: 0 <= m < |base| ==> Bare(base[m]) == Bare(kept[..|base|][m]);
  }

  /** What an add does to a file, for every text. If it has nothing to add and found no legacy event, the text stays.
      Otherwise the new lines are the old ones, in order, without the `hooks = []` lines and the hook sections with an
      old command, and then a section for each event that was added. */
  lemma AddKeeps(content: string, events: seq<string>, hook: string)
    returns (at: seq<int>, n: nat, sep: seq<string>, tail: seq<string>)
    requires EventNames(events) && HookPath(hook)
    ensures var report := AddReport(content, events, hook);
            var text := AfterAdd(content, events, hook);
            if report.added == [] && report.removed == [] then text == content
            else
              && KeptByAdd(Lines(content), at)
              && (sep == [] || sep == [""]) && AppendedFor(tail, report.added, hook)
              && Follows(Lines(content), Lines(text), at, n, if report.added == [] then [] else sep + tail)
  {
    var base := BaseText(content);
    at := KeptLinesOfAdd(Lines(content));
    BaseIsCut(content);
    tail := AppendsExactly(base, events, hook);
    sep := Separator(base);
    ClosedAlike(base);
    SepIs(base);
    ReportIs(content, events, hook);
    hide *;
    n := AddFollows(Lines(content), at, Remove(Strip(Lines(content)), Legacy), base, AddedText(base, events, hook),
                    AddedEvents(base, events, hook), hook, tail);
  }

  lemma SepIs(base: string)
    ensures Separator(base) == [] || Separator(base) == [""]
  {
  }

  lemma ReportIs(content: string, events: seq<string>, hook: string)
    ensures var report := AddReport(content, events, hook);
            && report.added == AddedEvents(BaseText(content), events, hook)
            && AfterAdd(content, events, hook) == if report.added == [] && report.removed == [] then content
                                                  else AddedText(BaseText(content), events, hook)
  {
    hide AddedEvents, AddedText, BaseText, LegacyEvents;
  }

  lemma AddFollows(before: seq<string>, at: seq<int>, kept: seq<string>, base: string, out: string,
                   added: seq<string>, hook: string, tail: seq<string>)
    returns (n: nat)
    requires Picks(before, at, kept) && Cut(Lines(base), kept, 2) && AppendedText(base, out, added, hook, tail)
    requires Alike(Lines(Closed(base)), Lines(base))
    ensures AppendedFor(tail, added, hook)
    ensures Follows(before, Lines(out), at, n, if added == [] then [] else Separator(base) + tail)
  {
    hide Lines, Closed, Separator, AppendedFor, Picks, Cut, Follows, Alike;
    if added == [] {
      CutFollows(before, at, kept, Lines(base), []);
      AppendNothing(Lines(base));
      n := |Lines(base)|;
    } else {
      var closed := Lines(Closed(base));
      AlikeCut(closed, Lines(base));
      CutTwice(closed, Lines(base), kept, 0, 2);
      CutFollows(before, at, kept, closed, Separator(base) + tail);
      assert closed + Separator(base) + tail == closed + (Separator(base) + tail);
      n := |closed|;
    }
  }

  // ---- The file after a remove ----

  /** `at` are the positions of the lines a remove keeps: all but the hook sections with a mark. */
  ghost predicate KeptByRemove(ls: seq<string>, at: seq<int>) {
    && Increasing(at) && (forall m :: 0 <= m < |at| ==> 0 <= at[m] < |ls|)
    && forall r :: 0 <= r < |ls| ==> (r in at <==> !InMarkedHook(ls, r, OldOrNew()))
  }

  lemma CleanedIsCut(content: string)
    ensures Cut(Lines(Cleaned(content)), Remove(Lines(content), Either(Ours, Legacy)), 2)
  {
    hide *;
    var ls := Lines(content);
    var first := Remove(ls, Ours);
    var mid := Lines(Join(first));
    var kept := Remove(mid, Legacy);
    CleanedIs(content);
    LinesHaveNoNewlines(content);
    KeptNoNewlines(ls, Ours);
    PassCuts(first);
    BothIgnore();
    RemoveCut(mid, first, 1, Legacy);
    RemoveTwice(ls, Ours, Legacy);
    LinesHaveNoNewlines(Join(first));
    KeptNoNewlines(mid, Legacy);
    PassCuts(kept);
    CutTwice(Lines(Join(kept)), kept, Remove(first, Legacy), 1, 1);
  }

  lemma CleanedIs(content: string)
    ensures Cleaned(content) == Join(Remove(Lines(Join(Remove(Lines(content), Ours))), Legacy))
  {
  }

  /** What a remove does to a file, for every text. If no dropped section names an event the text stays; otherwise the
      new lines are the old ones, in order, without the hook sections that have the marker or an old command. */
  lemma RemoveKeeps(content: string) returns (at: seq<int>, n: nat)
    ensures if RemoveReport(content).removed == [] then AfterRemove(content) == content
            else KeptByRemove(Lines(content), at) && Follows(Lines(content), Lines(AfterRemove(content)), at, n, [])
  {
    hide *;
    at := KeptLinesOfRemove(Lines(content));
    CleanedIsCut(content);
    var after := Lines(Cleaned(content));
    n := |after|;
    CutFollows(Lines(content), at, Remove(Lines(content), Either(Ours, Legacy)), after, []);
    AppendNothing(after);
    AfterRemoveIs(content);
  }

  lemma KeptLinesOfRemove(ls: seq<string>) returns (at: seq<int>)
    ensures KeptByRemove(ls, at) && Picks(ls, at, Remove(ls, Either(Ours, Legacy)))
  {
    MarkMeans();
    at := RemoveByPosition(ls, Either(Ours, Legacy), OldOrNew());
  }

  lemma AfterRemoveIs(content: string)
    ensures AfterRemove(content) == if RemoveReport(content).removed == [] then content else Cleaned(content)
  {
    hide RemoveReport, Cleaned;
  }
}
