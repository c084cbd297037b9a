/** Adding and removing undo each other, and when they do not
    (crates/core/src/hook_status.rs). */
module KimiRoundTrip {
  import opened Common
  import opened Text
  import opened LineEnds
  import opened KimiBlocks
  import opened KimiHooks
  import opened KimiHookBlock
  import opened KimiInstalled
  import opened KimiAppend
  import opened KimiLineEnds
  import opened KimiReconcile

  // ---- The base text ----

  predicate NoEmptyHooks(ls: seq<string>) {
    forall l :: l in ls ==> Trim(l) != EMPTY_HOOKS
  }

  lemma {:induction false} StripFacts(ls: seq<string>)
    ensures NoEmptyHooks(Strip(ls))
    ensures forall l :: l in Strip(ls) ==> l in ls
    ensures NoEmptyHooks(ls) ==> Strip(ls) == ls
  {
    if ls != [] {
      StripFacts(ls[1..]);
      assert ls == [ls[0]] + ls[1..];
    }
  }

  lemma BlankIsFine()
    ensures Plain("") && Trim("") != EMPTY_HOOKS
  {
  }

  lemma EmptyHooksDropBlank(ls: seq<string>)
    ensures NoEmptyHooks(DropTrailingBlank(ls)) <==> NoEmptyHooks(ls)
  {
    BlankIsFine();
    if ls != [] && ls[|ls| - 1] == "" {
      assert ls == DropTrailingBlank(ls) + [""];
    }
  }

  /** Joining lines and splitting them again changes nothing that a scanner looks at. */
  lemma PassKeeps(ls: seq<string>, p: Block -> bool, eventLine: string)
    requires NoNewlines(ls) && IgnoresBlank(p) && IgnoresCr(p) && eventLine != ""
    ensures var out := Lines(Join(ls));
            && NoNewlines(out)
            && (NoneMeet(out, p) <==> NoneMeet(ls, p)) && (NoEmptyHooks(out) <==> NoEmptyHooks(ls))
            && FirstHit(out, false, eventLine) == FirstHit(ls, false, eventLine)
  {
    var out, kept := Lines(Join(ls)), DropTrailingBlank(ls);
    LinesOfJoinAlike(ls);
    LinesHaveNoNewlines(Join(ls));
    NoneMeetAlike(out, kept, p);
    NoneMeetDropBlank(ls, p);
    EmptyHooksAlike(out, kept);
    EmptyHooksDropBlank(ls);
    FirstHitAlike(out, kept, false, eventLine);
    HitDropBlank(ls, eventLine);
    hide *;
    EmptyHooksIs(out);
    EmptyHooksIs(kept);
  }

  lemma EmptyHooksIs(ls: seq<string>)
    ensures NoEmptyHooks(ls) <==> forall l :: l in ls ==> Trim(l) != EMPTY_HOOKS
  {
  }

  lemma BothIgnore()
    ensures IgnoresBlank(Ours) && IgnoresCr(Ours) && IgnoresBlank(Legacy) && IgnoresCr(Legacy)
  {
    OursIgnoresBlank();
    LegacyIgnoresBlank();
    OursIgnoresCr();
    LegacyIgnoresCr();
  }

  lemma StripNoNewlines(ls: seq<string>)
    requires NoNewlines(ls)
    ensures NoNewlines(Strip(ls))
  {
    StripFacts(ls);
    forall i | 0 <= i < |Strip(ls)| ensures '\n' !in Strip(ls)[i] {
      assert Strip(ls)[i] in Strip(ls);
    }
  }

  /** The base text has no `hooks = []` line and no legacy hook block. */
  lemma BaseFacts(content: string)
    ensures NoEmptyHooks(Lines(BaseText(content))) && NoneMeet(Lines(BaseText(content)), Legacy)
  {
    var kept := Strip(Lines(content));
    var stripped := Lines(Stripped(content));
    var base := Remove(stripped, Legacy);
    BothIgnore();
    LinesHaveNoNewlines(content);
    StripNoNewlines(Lines(content));
    StripFacts(Lines(content));
    PassKeeps(kept, Legacy, EVENT_KEY);
    KeptNoNewlines(stripped, Legacy);
    KeptLines(stripped, Legacy);
    RemovedNoneMeet(stripped, Legacy, Legacy);
    PassKeeps(base, Legacy, EVENT_KEY);
    hide Lines, Remove, Legacy, NoneMeet, Trim, FirstHit, Strip, Join;
    assert NoEmptyHooks(base);
  }

  // ---- What adding leaves ----

  predicate EventName(e: string) {
    OneLine(e) && '"' !in e
  }

  predicate EventNames(es: seq<string>) {
    forall e :: e in es ==> EventName(e)
  }

  ghost predicate GoodBlock(b: Block, event: string) {
    && HookShaped(b) && Ours(b) && !Legacy(b) && AllPlain(b) && NoEmptyHooks(b)
    && b[|b| - 1] != "" && LastEvent(b) == Some(event)
  }

  lemma HookBlockFacts(event: string, hook: string)
    requires EventName(event) && HookPath(hook)
    ensures Written(HookBlock(event, hook), event) && GoodBlock(HookBlock(event, hook), event)
  {
    var b := HookBlock(event, hook);
    WrittenBlock(event, hook);
    WrittenShape(b, event);
    LastEventOfWritten(b, event);
  }

  lemma WrittenShape(b: Block, event: string)
    requires Written(b, event)
    ensures HookShaped(b) && Ours(b) && !Legacy(b) && AllPlain(b) && NoEmptyHooks(b) && b[|b| - 1] != ""
  {
    var last := b[|b| - 1];
    TrimContains(last, HOOK_MARKER);
    assert last in b && MarkedLine(last);
    forall l | l in b ensures !LegacyCommandLine(l) {
      var j :| 0 <= j < |b| && b[j] == l;
      assert j == |b| - 1 || !CommandStart(b[j]);
    }
    assert forall j :: 0 <= j < |b| ==> b[j] in b;
  }

  lemma {:induction false} LastEventBefore(b: Block, k: nat)
    requires k <= |b| && forall j :: k <= j < |b| ==> EventOf(b[j]) == None
    ensures LastEvent(b) == LastEvent(b[..k])
  {
    if k < |b| {
      LastEventBefore(b[..|b| - 1], k);
      assert b[..|b| - 1][..k] == b[..k];
    } else {
      assert b[..k] == b;
    }
  }

  lemma LastEventOfWritten(b: Block, event: string)
    requires Written(b, event) && EventName(event)
    ensures LastEvent(b) == Some(event)
  {
    LastEventBefore(b, 2);
    assert b[..2] == [b[0]] + [b[1]];
    LastEventSnoc([b[0]], b[1]);
    EventOfEventLine(b[1], event);
  }

  /** The parser reads back the event name that was written. */
  lemma EventOfEventLine(l: string, event: string)
    requires Trim(l) == EventLine(event) && '"' !in event
    ensures EventOf(l) == Some(event)
  {
    var quoted := "\"" + event + "\"";
    assert EventLine(event) == EVENT_KEY + quoted;
    assert EventLine(event)[|EVENT_KEY|..] == quoted;
    TrimFixed(quoted);
    QuotesTrimmed(event);
  }

  lemma QuotesTrimmed(event: string)
    requires '"' !in event
    ensures TrimQuotesEnd(TrimQuotesStart("\"" + event + "\"")) == event
  {
    var quoted := "\"" + event + "\"";
    assert quoted[1..] == event + "\"";
    if event == "" {
      assert quoted[1..] == "\"" && "\""[1..] == "";
    } else {
      assert event[0] in event && event[|event| - 1] in event;
      assert TrimQuotesStart(event + "\"") == event + "\"";
      assert (event + "\"")[..|event|] == event;
    }
  }

  /** The lines after adding hooks, against the lines `ls` of the text with its last line ended. */
  ghost predicate Extended(ls: seq<string>, sep: seq<string>, out: seq<string>, added: seq<string>) {
    && (NoneMeet(ls, Legacy) ==> NoneMeet(out, Legacy))
    && (NoEmptyHooks(ls) ==> NoEmptyHooks(out))
    && RemovedEvents(Blocks(out), Ours) == RemovedEvents(Blocks(ls), Ours) + added
    && LastDropped(out, Ours)
    && Remove(out, Ours) == Remove(ls + sep, Ours)
  }

  /** What the file looks like after hooks for `added` were appended to `content`. */
  ghost predicate ExtendedText(content: string, out: string, added: seq<string>) {
    if added == [] then out == content
    else EndsWithNewline(out) && Extended(Lines(Closed(content)), Separator(content), Lines(out), added)
  }

  lemma ExtendLines(out: seq<string>, sep: seq<string>, b: Block)
    requires NoEmptyHooks(b) && (sep == [] || sep == [""])
    ensures NoEmptyHooks(out) ==> NoEmptyHooks(out + sep + b)
  {
    BlankIsFine();
  }

  lemma ExtendLegacy(out: seq<string>, sep: seq<string>, b: Block, event: string)
    requires GoodBlock(b, event) && (sep == [] || sep == [""])
    ensures NoneMeet(out, Legacy) ==> NoneMeet(out + sep + b, Legacy)
  {
    hide Legacy, NoneMeet;
    LegacyIgnoresBlank();
    RemoveWithBlank(out, Legacy);
    assert sep == [] ==> out + sep == out;
    RemoveWithHook(out + sep, b, Legacy);
  }

  lemma ExtendOurs(out: seq<string>, sep: seq<string>, b: Block, event: string)
    requires GoodBlock(b, event) && (sep == [] || sep == [""])
    ensures var res := out + sep + b;
            && RemovedEvents(Blocks(res), Ours) == RemovedEvents(Blocks(out), Ours) + [event]
            && LastDropped(res, Ours)
            && Remove(res, Ours) == Remove(out + sep, Ours)
            && (LastDropped(out, Ours) ==> Remove(res, Ours) == Remove(out, Ours))
  {
    hide Ours, NoneMeet, Remove, LastDropped;
    OursIgnoresBlank();
    RemoveWithBlank(out, Ours);
    assert sep == [] ==> out + sep == out;
    RemoveWithHook(out + sep, b, Ours);
  }

  lemma ExtendFirst(ls: seq<string>, sep: seq<string>, event: string, b: Block)
    requires (sep == [] || sep == [""]) && GoodBlock(b, event)
    ensures Extended(ls, sep, ls + sep + b, [event])
  {
    ExtendLines(ls, sep, b);
    ExtendLegacy(ls, sep, b, event);
    ExtendOurs(ls, sep, b, event);
    hide Ours, Legacy, NoEmptyHooks, NoneMeet, LastDropped, Remove, RemovedEvents;
  }

  lemma ExtendNext(ls: seq<string>, sep: seq<string>, out: seq<string>, added: seq<string>, event: string, b: Block)
    requires Extended(ls, sep, out, added) && GoodBlock(b, event)
    ensures Extended(ls, sep, out + [""] + b, added + [event])
  {
    assert NoEmptyHooks(b);
    ExtendLines(out, [""], b);
    ExtendLegacy(out, [""], b, event);
    ExtendOurs(out, [""], b, event);
    hide Ours, Legacy, NoEmptyHooks, NoneMeet, LastDropped, Remove, RemovedEvents, Blocks, GoodBlock;
    Associate(RemovedEvents(Blocks(ls), Ours), added, [event]);
  }

  lemma Associate(a: seq<string>, b: seq<string>, c: seq<string>)
    ensures (a + b) + c == a + (b + c)
  {
  }

  lemma ExtendText(content: string, mid: string, added: seq<string>, event: string, b: Block)
    requires ExtendedText(content, mid, added) && GoodBlock(b, event)
    ensures ExtendedText(content, WithBlock(mid, b), added + [event])
  {
    assert AllPlain(b) && b != [];
    assert added == [] || (EndsWithNewline(mid) ==> Closed(mid) == mid && Separator(mid) == [""]);
    assert Separator(content) == [] || Separator(content) == [""];
    hide Extended, Lines, WithBlock, AllPlain, GoodBlock, Separator, Closed;
    LinesWithBlock(mid, b);
    TerminateEnds(b);
    BlockEndsText(mid, b);
    if added == [] {
      ExtendFirst(Lines(Closed(content)), Separator(content), event, b);
      assert added + [event] == [event];
    } else {
      ExtendNext(Lines(Closed(content)), Separator(content), Lines(mid), added, event, b);
    }
  }

  lemma BlockEndsText(mid: string, b: Block)
    requires EndsWithNewline(Terminate(b))
    ensures EndsWithNewline(WithBlock(mid, b))
  {
  }

  lemma {:induction false} TerminateEnds(b: Block)
    requires b != []
    ensures EndsWithNewline(Terminate(b))
  {
    TerminateIsJoin(b);
  }

  lemma {:induction false} AddedLines(content: string, events: seq<string>, hook: string)
    requires EventNames(events) && HookPath(hook)
    ensures ExtendedText(content, AddedText(content, events, hook), AddedEvents(content, events, hook))
  {
    hide *;
    AddedNothing(content, events, hook);
    NothingAdded(content);
    if events != [] {
      var before, event := events[..|events| - 1], events[|events| - 1];
      AddedStep(content, events, hook);
      NamesSnoc(events);
      AddedLines(content, before, hook);
      HookBlockFacts(event, hook);
      ExtendText(content, AddedText(content, before, hook), AddedEvents(content, before, hook), event,
                 HookBlock(event, hook));
    }
  }

  lemma NothingAdded(content: string)
    ensures ExtendedText(content, content, [])
  {
  }

  lemma NamesSnoc(events: seq<string>)
    requires EventNames(events) && events != []
    ensures EventNames(events[..|events| - 1]) && EventName(events[|events| - 1])
  {
  }

  lemma AddedNothing(content: string, events: seq<string>, hook: string)
    ensures events == [] ==> AddedText(content, events, hook) == content && AddedEvents(content, events, hook) == []
  {
  }

  lemma AddedStep(content: string, events: seq<string>, hook: string)
    requires events != []
    ensures var before, event := events[..|events| - 1], events[|events| - 1];
            var mid, added := AddedText(content, before, hook), AddedEvents(content, before, hook);
            if HasCurrentHook(mid, event) then
              AddedText(content, events, hook) == mid && AddedEvents(content, events, hook) == added
            else
              && AddedText(content, events, hook) == WithBlock(mid, HookBlock(event, hook))
              && AddedEvents(content, events, hook) == added + [event]
  {
    hide HasCurrentHook, WithBlock, HookBlock;
  }

  /** Ending the last line changes nothing that a scanner looks at. */
  lemma ClosedKeeps(content: string, p: Block -> bool, eventLine: string)
    requires IgnoresCr(p)
    ensures var ls, closed := Lines(content), Lines(Closed(content));
            && (NoneMeet(closed, p) <==> NoneMeet(ls, p)) && (NoEmptyHooks(closed) <==> NoEmptyHooks(ls))
            && RemovedEvents(Blocks(closed), p) == RemovedEvents(Blocks(ls), p)
            && FirstHit(closed, false, eventLine) == FirstHit(ls, false, eventLine)
  {
    var ls, closed := Lines(content), Lines(Closed(content));
    ClosedAlike(content);
    NoneMeetAlike(closed, ls, p);
    EmptyHooksAlike(closed, ls);
    BlocksAlike(closed, ls);
    RemovedEventsAlike(Blocks(closed), Blocks(ls), p);
    FirstHitAlike(closed, ls, false, eventLine);
    hide *;
    EmptyHooksIs(closed);
    EmptyHooksIs(ls);
  }

  lemma TidyAfterAdd(base: string, f: string, added: seq<string>)
    requires ExtendedText(base, f, added) && NoneMeet(Lines(base), Legacy) && NoEmptyHooks(Lines(base))
    ensures NoEmptyHooks(Lines(f)) && NoneMeet(Lines(f), Legacy)
  {
    LegacyIgnoresCr();
    ClosedKeeps(base, Legacy, EVENT_KEY);
    hide Lines, NoEmptyHooks, NoneMeet, Legacy, IgnoresCr, FirstHit, RemovedEvents;
  }

  // ---- Add is idempotent, unless a foreign command comes first ----

  lemma {:induction false} AddedHits(content: string, events: seq<string>, hook: string, asked: string)
    requires EventNames(events) && HookPath(hook)
    ensures var first := FirstHit(Lines(content), false, EventLine(asked));
            var added := AddedEvents(content, events, hook);
            && FirstHit(Lines(AddedText(content, events, hook)), false, EventLine(asked))
               == (if first.Some? then first else if asked in added then Some(true) else None)
            && (asked in added <==> asked in events && first != Some(true))
  {
    hide *;
    AddedNothing(content, events, hook);
    if events != [] {
      var before, event := events[..|events| - 1], events[|events| - 1];
      AddedStep(content, events, hook);
      NamesSnoc(events);
      AddedHits(content, before, hook, asked);
      AddedHits(content, before, hook, event);
      assert events == before + [event];
      HasCurrentIsHit(AddedText(content, before, hook), event);
      HitAfterBlock(AddedText(content, before, hook), event, hook, asked);
    }
  }

  lemma HasCurrentIsHit(content: string, event: string)
    ensures HasCurrentHook(content, event) <==> FirstHit(Lines(content), false, EventLine(event)) == Some(true)
  {
  }

  lemma HitAfterBlock(mid: string, event: string, hook: string, asked: string)
    requires EventName(event) && HookPath(hook)
    ensures var first := FirstHit(Lines(mid), false, EventLine(asked));
            FirstHit(Lines(WithBlock(mid, HookBlock(event, hook))), false, EventLine(asked))
            == if first.Some? then first else if asked == event then Some(true) else None
  {
    var b := HookBlock(event, hook);
    hide HookBlock, WithBlock, Lines, FirstHit, Closed, EventLine;
    HookBlockFacts(event, hook);
    assert AllPlain(b) && b != [] && IsHookHeader(b[0]);
    LinesWithBlock(mid, b);
    HitInBlock(b, event, asked);
    EventLinesDiffer(asked, event);
    OursIgnoresCr();
    ClosedKeeps(mid, Ours, EventLine(asked));
    var ls := Lines(Closed(mid)) + Separator(mid);
    HitAppendBlank(Lines(Closed(mid)), false, EventLine(asked));
    assert Separator(mid) == [] ==> ls == Lines(Closed(mid));
    HitAppend(ls, b, false, EventLine(asked));
  }

  lemma {:induction false} NothingToAdd(content: string, events: seq<string>, hook: string)
    ensures AddedEvents(content, events, hook) == [] <==> forall e :: e in events ==> HasCurrentHook(content, e)
    ensures AddedEvents(content, events, hook) == [] ==> AddedText(content, events, hook) == content
  {
    hide *;
    if events == [] {
      AddedNothing(content, events, hook);
    } else {
      var before, event := events[..|events| - 1], events[|events| - 1];
      NothingToAdd(content, before, hook);
      AddedStep(content, events, hook);
      assert events == before + [event];
    }
  }

  /** A text without legacy hooks and `hooks = []` lines keeps its lines through the clean-up. */
  lemma BaseOfTidy(f: string, eventLine: string)
    requires NoEmptyHooks(Lines(f)) && NoneMeet(Lines(f), Legacy) && eventLine != ""
    ensures LegacyEvents(Stripped(f)) == []
    ensures FirstHit(Lines(BaseText(f)), false, eventLine) == FirstHit(Lines(f), false, eventLine)
    ensures BaseText(f) == Pass(Pass(f))
  {
    StripFacts(Lines(f));
    LinesHaveNoNewlines(f);
    BothIgnore();
    PassKeeps(Lines(f), Legacy, eventLine);
    var once := Lines(Stripped(f));
    NothingToRemove(once, Legacy);
    PassKeeps(once, Legacy, eventLine);
    hide Lines, Join, FirstHit, NoneMeet, Legacy, NoEmptyHooks, Remove, RemovedEvents, Strip, IgnoresCr, IgnoresBlank;
  }

  ghost predicate ForeignFirst(content: string, event: string) {
    FirstHit(Lines(BaseText(content)), false, EventLine(event)) == Some(false)
  }

  lemma ForeignIsHit(content: string, event: string)
    ensures ForeignFirst(content, event) <==> FirstHit(Lines(BaseText(content)), false, EventLine(event)) == Some(false)
  {
  }

  lemma ThreeAnswers(first: Option<bool>)
    ensures first == None || first == Some(true) || first == Some(false)
  {
    match first
    case None =>
    case Some(b) =>
      if b {
        assert first == Some(true);
      } else {
        assert first == Some(false);
      }
  }

  /** What the check answers in the file that an add has written. */
  lemma HitAfterAdd(content: string, events: seq<string>, hook: string, e: string)
    requires EventNames(events) && HookPath(hook) && AddReport(content, events, hook) != Report([], [])
    ensures var f := AfterAdd(content, events, hook);
            var first := FirstHit(Lines(BaseText(content)), false, EventLine(e));
            && FirstHit(Lines(BaseText(f)), false, EventLine(e))
               == (if first.Some? then first else if e in events then Some(true) else None)
            && LegacyEvents(Stripped(f)) == []
  {
    var base := BaseText(content);
    var f := AfterAdd(content, events, hook);
    assert f == AddedText(base, events, hook);
    hide *;
    BaseFacts(content);
    AddedLines(base, events, hook);
    TidyAfterAdd(base, f, AddedEvents(base, events, hook));
    EventLinesDiffer(e, e);
    BaseOfTidy(f, EventLine(e));
    AddedHits(base, events, hook, e);
  }

  /** A second add does nothing exactly when no enabled event is first named by somebody else's hook. */
  lemma AddTwice(content: string, events: seq<string>, hook: string)
    requires EventNames(events) && HookPath(hook)
    ensures var f := AfterAdd(content, events, hook);
            && AddReport(f, events, hook).removed == []
            && (AddReport(f, events, hook).added == [] <==> forall e :: e in events ==> !ForeignFirst(content, e))
            && ((forall e :: e in events ==> !ForeignFirst(content, e)) ==> AfterAdd(f, events, hook) == f)
  {
    var f := AfterAdd(content, events, hook);
    NothingToAdd(BaseText(content), events, hook);
    NothingToAdd(BaseText(f), events, hook);
    forall e | e in events ensures HasCurrentHook(BaseText(f), e) <==> !ForeignFirst(content, e) {
      SecondHit(content, events, hook, e);
    }
    if AddReport(content, events, hook) != Report([], []) {
      HitAfterAdd(content, events, hook, "");
    }
    hide BaseText, AddedText, AddedEvents, HasCurrentHook, ForeignFirst, LegacyEvents, Stripped, FirstHit, Lines;
  }

  lemma SecondHit(content: string, events: seq<string>, hook: string, e: string)
    requires EventNames(events) && HookPath(hook) && e in events
    ensures HasCurrentHook(BaseText(AfterAdd(content, events, hook)), e) <==> !ForeignFirst(content, e)
  {
    var f := AfterAdd(content, events, hook);
    NothingToAdd(BaseText(content), events, hook);
    HasCurrentIsHit(BaseText(f), e);
    HasCurrentIsHit(BaseText(content), e);
    ForeignIsHit(content, e);
    ThreeAnswers(FirstHit(Lines(BaseText(content)), false, EventLine(e)));
    hide BaseText, AddedText, AddedEvents, HasCurrentHook, ForeignFirst, LegacyEvents, Stripped, FirstHit, Lines,
        EventLine;
    if AddReport(content, events, hook) != Report([], []) {
      HitAfterAdd(content, events, hook, e);
    }
  }

  // ---- A foreign command makes every add append one more block ----

  function AddTimes(content: string, events: seq<string>, hook: string, n: nat): string {
    if n == 0 then content else AfterAdd(AddTimes(content, events, hook, n - 1), events, hook)
  }

  /** Somebody else's hook stays the first to name the event, so the event is added again. */
  lemma ForeignStaysFirst(content: string, events: seq<string>, hook: string, e: string)
    requires EventNames(events) && HookPath(hook) && ForeignFirst(content, e)
    ensures ForeignFirst(AfterAdd(content, events, hook), e)
    ensures e in events ==> e in AddReport(content, events, hook).added
  {
    ForeignIsHit(content, e);
    AddedHits(BaseText(content), events, hook, e);
    hide BaseText, AddedText, AddedEvents, ForeignFirst, FirstHit, Lines, EventLine, Stripped, LegacyEvents;
    if AddReport(content, events, hook) != Report([], []) {
      HitAfterAdd(content, events, hook, e);
      ForeignIsHit(AfterAdd(content, events, hook), e);
    }
  }

  lemma {:induction false} ForeignAddsForever(content: string, events: seq<string>, hook: string, e: string, n: nat)
    requires EventNames(events) && HookPath(hook) && ForeignFirst(content, e) && e in events
    ensures ForeignFirst(AddTimes(content, events, hook, n), e)
    ensures e in AddReport(AddTimes(content, events, hook, n), events, hook).added
  {
    hide ForeignFirst, AddReport, AfterAdd;
    if n > 0 {
      ForeignAddsForever(content, events, hook, e, n - 1);
      ForeignStaysFirst(AddTimes(content, events, hook, n - 1), events, hook, e);
    }
    ForeignStaysFirst(AddTimes(content, events, hook, n), events, hook, e);
  }
}
