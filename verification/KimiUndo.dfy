/** What removing after adding leaves, and what a removal leaves behind
    (crates/core/src/hook_status.rs). */
module KimiUndo {
  import opened Common
  import opened Text
  import opened LineEnds
  import opened KimiBlocks
  import opened KimiHooks
  import opened KimiHookBlock
  import opened KimiInstalled
  import opened KimiAppend
  import opened KimiLineEnds
  import opened KimiReconcile
  import opened KimiRoundTrip

  // ---- Remove undoes add ----

  /** What is left of a text after an add and a remove: its lines and the separator, passed on once more. */
  function RoundTrip(base: string): string {
    Pass(Join(Lines(Closed(base)) + Separator(base)))
  }

  lemma NotLastDropped(ls: seq<string>, p: Block -> bool)
    requires NoneMeet(ls, p)
    ensures !LastDropped(ls, p)
  {
  }

  /** Appending the separator to lines that none of the blocks to drop is in. */
  lemma SeparatorStays(ls: seq<string>, sep: seq<string>, p: Block -> bool)
    requires NoneMeet(ls, p) && IgnoresBlank(p) && (sep == [] || sep == [""])
    ensures NoneMeet(ls + sep, p) && Remove(ls + sep, p) == ls + sep
  {
    RemoveWithBlank(ls, p);
    NotLastDropped(ls, p);
    assert sep == [] ==> ls + sep == ls;
    NothingToRemove(ls + sep, p);
    hide NoneMeet, Remove, LastDropped;
  }

  lemma SeparatorShape(content: string)
    ensures Separator(content) == [] || Separator(content) == [""]
    ensures NoNewlines(Lines(Closed(content)) + Separator(content))
  {
    LinesHaveNoNewlines(Closed(content));
    hide Lines;
  }

  /** Nothing of ours was in the text: taking the added blocks out leaves its lines and the separator. */
  lemma OursTakenOut(content: string, out: string, added: seq<string>)
    requires ExtendedText(content, out, added) && added != [] && NoneMeet(Lines(content), Ours)
    ensures WithoutOurs(out) == Join(Lines(Closed(content)) + Separator(content))
    ensures RemovedEvents(Blocks(Lines(out)), Ours) == added
  {
    BothIgnore();
    ClosedKeeps(content, Ours, EVENT_KEY);
    SeparatorShape(content);
    var ls := Lines(Closed(content));
    SeparatorStays(ls, Separator(content), Ours);
    NothingToRemove(ls, Ours);
    hide Lines, Remove, RemovedEvents, Ours, NoneMeet, LastDropped, Join, Closed, Separator, Blocks, FirstHit,
        NoEmptyHooks;
    assert [] + added == added;
  }

  lemma RemoveExtended(content: string, out: string, added: seq<string>)
    requires ExtendedText(content, out, added) && added != []
    requires NoneMeet(Lines(content), Ours) && NoneMeet(Lines(content), Legacy)
    ensures RemoveReport(out) == Report([], added) && AfterRemove(out) == RoundTrip(content)
  {
    OursTakenOut(content, out, added);
    BothIgnore();
    ClosedKeeps(content, Legacy, EVENT_KEY);
    SeparatorShape(content);
    var kept := Lines(Closed(content)) + Separator(content);
    SeparatorStays(Lines(Closed(content)), Separator(content), Legacy);
    PassKeeps(kept, Legacy, EVENT_KEY);
    NothingToRemove(Lines(Join(kept)), Legacy);
    hide Lines, Remove, RemovedEvents, Ours, Legacy, NoneMeet, LastDropped, Join, Closed, Separator, Blocks, FirstHit,
         NoEmptyHooks, WithoutOurs, ExtendedText;
    assert LegacyEvents(WithoutOurs(out)) == [];
    assert Union(added, []) == added;
  }

  /** Removing after adding passes the cleaned-up text on once more, and reports the events that were added. */
  lemma RemoveUndoesAdd(content: string, events: seq<string>, hook: string)
    requires EventNames(events) && HookPath(hook)
    requires AddReport(content, events, hook).added != []
    requires NoneMeet(Lines(BaseText(content)), Ours)
    ensures var f := AfterAdd(content, events, hook);
            && RemoveReport(f) == Report([], AddReport(content, events, hook).added)
            && AfterRemove(f) == RoundTrip(BaseText(content))
  {
    BaseFacts(content);
    var base := BaseText(content);
    AddedLines(base, events, hook);
    hide BaseText, AddedText, AddedEvents, ExtendedText, NoneMeet, RemoveReport, AfterRemove, RoundTrip;
    RemoveExtended(base, AddedText(base, events, hook), AddedEvents(base, events, hook));
  }

  /** Line by line that is the text itself, up to carriage returns at line ends. */
  lemma RoundTripLines(base: string)
    requires Separator(base) != []
    ensures RoundTrip(base) == Join(Lines(Join(Lines(Closed(base)) + Separator(base))))
    ensures Alike(Lines(Join(Lines(Closed(base)) + Separator(base))), Lines(base))
  {
    SeparatorShape(base);
    var ls := Lines(Closed(base));
    LinesOfJoinAlike(ls + [""]);
    assert DropTrailingBlank(ls + [""]) == ls;
    ClosedAlike(base);
    hide Lines, Join, Closed;
  }

  lemma RoundTripText(base: string)
    ensures var once := Pass(Closed(base));
            RoundTrip(base) == Pass(if Separator(base) == [] then once else if base == "" then "" else once + "\n")
    ensures Separator(base) != [] || (base != "" && !EndsWithNewline(base))
  {
    var ls := Lines(Closed(base));
    EmptyLines(Closed(base));
    if Separator(base) == [] {
      assert ls + [] == ls;
    } else if base == "" {
      assert ls + [""] == [""];
    } else {
      JoinAppendBlank(ls);
    }
  }

  lemma CrLfsExtend(s: string)
    requires CrLfs(s + "\n") == 0
    ensures CrLfs(s) == 0
  {
    CrLfsContained(s);
    CrLfsContained(s + "\n");
    if Contains(s, "\r\n") {
      var i :| 0 <= i <= |s| - 2 && OccursAt(s, "\r\n", i);
      assert (s + "\n")[i..i + 2] == s[i..i + 2];
      assert OccursAt(s + "\n", "\r\n", i);
    }
  }

  lemma EndedText(s: string)
    ensures EndsWithNewline(s + "\n") && WithoutFinalNewline(s + "\n") == s
  {
  }

  /** An add and a remove never make the text longer, and keep its length only by keeping it. */
  lemma RoundTripLength(base: string)
    ensures |RoundTrip(base)| <= |base|
    ensures |RoundTrip(base)| == |base| ==> !EndsWithNewline(base) && CrLfs(base + "\n") == 0
    ensures !EndsWithNewline(base) && CrLfs(base + "\n") == 0 ==> RoundTrip(base) == base
  {
    RoundTripText(base);
    var once := Pass(Closed(base));
    PassLength(Closed(base));
    PassLength(once + "\n");
    PassLength(once);
    EndedText(once);
    EndedText(base);
    EmptyLines("");
    if CrLfs(base + "\n") == 0 {
      CrLfsExtend(base);
    }
    assert CrLfs("\n") == 0;
    hide RoundTrip, Pass, CrLfs, Separator;
    if base == "" {
      assert base + "\n" == "\n";
    } else if EndsWithNewline(base) {
    } else if CrLfs(base + "\n") == 0 {
      assert once == base;
    }
  }

  /** On a file with none of our hooks, no legacy hooks and no `hooks = []` line, adding and removing restores the
      file exactly when it ends in no newline and has no carriage return in front of a newline or at its end. */
  lemma RestoredExactly(content: string, events: seq<string>, hook: string)
    requires EventNames(events) && HookPath(hook)
    requires NoEmptyHooks(Lines(content)) && NoneMeet(Lines(content), Legacy) && NoneMeet(Lines(content), Ours)
    requires AddReport(content, events, hook).added != []
    ensures var back := AfterRemove(AfterAdd(content, events, hook));
            && back == RoundTrip(Pass(Pass(content)))
            && (back == content <==> !EndsWithNewline(content) && !Contains(content + "\n", "\r\n"))
  {
    BothIgnore();
    BaseOfTidy(content, EVENT_KEY);
    LinesHaveNoNewlines(content);
    PassKeeps(Lines(content), Ours, EVENT_KEY);
    PassKeeps(Lines(Pass(content)), Ours, EVENT_KEY);
    RemoveUndoesAdd(content, events, hook);
    PassLength(content);
    PassLength(Pass(content));
    RoundTripLength(Pass(Pass(content)));
    CrLfsContained(content + "\n");
    if CrLfs(content + "\n") == 0 {
      CrLfsExtend(content);
    }
    hide *;
    FinalNewlineIs(content);
    FinalNewlineIs(Pass(content));
  }

  lemma FinalNewlineIs(s: string)
    ensures !EndsWithNewline(s) ==> WithoutFinalNewline(s) == s
  {
  }

  // ---- Remove is complete, unless nothing it removed names an event ----

  /** After a removal no hook of ours is left exactly when a removed block named an event
      or there was none to begin with. */
  lemma RemovalComplete(content: string)
    ensures var ls := Lines(content);
            var left := Lines(AfterRemove(content));
            NoneMeet(left, Ours) && NoneMeet(left, Legacy)
            <==> RemoveReport(content).removed != [] || (NoneMeet(ls, Ours) && NoneMeet(ls, Legacy))
  {
    CleanedMeetsNone(content);
    hide NoneMeet, Lines, Cleaned, RemoveReport;
  }

  lemma CleanedMeetsNone(content: string)
    ensures NoneMeet(Lines(Cleaned(content)), Ours) && NoneMeet(Lines(Cleaned(content)), Legacy)
  {
    BothIgnore();
    var ls := Lines(content);
    LinesHaveNoNewlines(content);
    var kept := Remove(ls, Ours);
    KeptNoNewlines(ls, Ours);
    RemovedNoneMeet(ls, Ours, Ours);
    PassKeeps(kept, Ours, EVENT_KEY);
    var mid := Lines(WithoutOurs(content));
    KeptNoNewlines(mid, Legacy);
    RemovedNoneMeet(mid, Legacy, Ours);
    var rest := Remove(mid, Legacy);
    PassKeeps(rest, Ours, EVENT_KEY);
    PassKeeps(rest, Legacy, EVENT_KEY);
    hide Lines, Remove, Ours, Legacy, NoneMeet, Join, FirstHit, NoEmptyHooks, IgnoresCr, IgnoresBlank;
  }

  lemma OneBlock(b: Block, p: Block -> bool)
    requires HookShaped(b)
    ensures Blocks(b) == [b]
    ensures RemovedEvents(Blocks(b), p) == if p(b) then Listed(LastEvent(b)) else []
    ensures p(b) ==> Remove(b, p) == []
    ensures NoneMeet(b, p) <==> !p(b)
  {
    assert [] + b == b;
    BlocksWithHook([], b);
    RemoveWithHook([], b, p);
  }

  /** A hook block with a marked command and no event line. */
  lemma UnnamedBlock(b: Block)
    requires HookShaped(b) && AllPlain(b) && Ours(b) && LastEvent(b) == None && b[|b| - 1] != ""
    ensures AfterRemove(Join(b)) == Join(b) && !NoneMeet(Lines(Join(b)), Ours)
  {
    LinesOfJoin(b);
    OneBlock(b, Ours);
    assert WithoutOurs(Join(b)) == "" && Lines("") == [];
  }

  lemma UnnamedMarkedBlock(h: string, l: string)
    requires IsHookHeader(h) && !IsHeader(l) && EventOf(h) == None && EventOf(l) == None && MarkedLine(l)
    requires l != "" && Plain(h) && Plain(l)
    ensures AfterRemove(Join([h, l])) == Join([h, l]) && !NoneMeet(Lines(Join([h, l])), Ours)
  {
    hide AfterRemove, NoneMeet;
    var b := [h, l];
    assert l in b;
    LastEventBefore(b, 0);
    assert LastEvent(b[..0]) == None;
    UnnamedBlock(b);
  }

  /** A marked block without an event line stays in the file. */
  lemma UnnamedBlockStays()
    ensures var content := Join([HOOKS_HEADER, "command = \"agent-aspect-hook\""]);
            AfterRemove(content) == content && !NoneMeet(Lines(content), Ours)
  {
    HeaderLine();
    TrimFixed(HOOKS_HEADER);
    MarkedLineExample("command = \"agent-aspect-hook\"");
    hide *;
    UnnamedMarkedBlock(HOOKS_HEADER, "command = \"agent-aspect-hook\"");
  }

  /** A foreign hook for the event, as somebody else would write it. */
  lemma ForeignHook(b: Block, event: string)
    requires |b| == 3 && HookShaped(b) && AllPlain(b) && NoEmptyHooks(b) && b[2] != ""
    requires Trim(b[1]) == EventLine(event) && EventOf(b[1]).Some? && Trim(b[2]) != EventLine(event)
    requires CommandStart(b[2]) && !Contains(Trim(b[2]), HOOK_MARKER) && !Legacy(b)
    ensures ForeignFirst(Join(b), event)
  {
    LinesOfJoin(b);
    OneBlock(b, Legacy);
    ForeignHits(b, EventLine(event), event);
    hide Lines, FirstHit, NoneMeet, Legacy, EventLine, AllPlain, NoEmptyHooks, Contains, CommandStart, HookShaped, Join;
    BaseOfTidy(Join(b), EventLine(event));
    ForeignIsHit(Join(b), event);
  }

  lemma ForeignHits(b: Block, eventLine: string, event: string)
    requires |b| == 3 && IsHookHeader(b[0]) && eventLine == EventLine(event)
    requires Trim(b[1]) == eventLine && CommandStart(b[2]) && !Contains(Trim(b[2]), HOOK_MARKER)
    requires Trim(b[2]) != eventLine && !IsHeader(b[2]) && EventOf(b[1]).Some?
    ensures FirstHit(b, false, eventLine) == Some(false) && eventLine != ""
  {
    EventLinesDiffer(event, event);
    HookHeaderIsHeader(b[0]);
    hide Contains, EventLine;
    assert b[1..] == [b[1], b[2]] && b[1..][1..] == [b[2]];
    NotHookHeader(b[1]);
    assert FirstHit([b[2]], true, eventLine) == Some(false);
  }

  lemma SayLine(l: string)
    requires l == "command = \"say\""
    ensures LineIs(l, false, false, true) && !Contains(Trim(l), HOOK_MARKER) && !LegacyCommandLine(l)
  {
    TrimFixed(l);
    MissingChar(l, HOOK_MARKER, 1);
    MissingChar(l, LEGACY_MARKER, 1);
  }

  lemma ForeignLines(h: string, ev: string, cmd: string, event: string)
    requires LineIs(h, true, false, false) && IsHookHeader(h)
    requires LineIs(ev, false, true, false) && ev == EventLine(event)
    requires LineIs(cmd, false, false, true) && !Contains(Trim(cmd), HOOK_MARKER) && !LegacyCommandLine(cmd)
    ensures ForeignFirst(Join([h, ev, cmd]), event)
  {
    var b := [h, ev, cmd];
    assert forall l :: l in b ==> l == h || l == ev || l == cmd;
    assert !LegacyCommandLine(h) && !LegacyCommandLine(ev);
    hide ForeignFirst, EventLine, Contains, Trim, LegacyCommandLine;
    ForeignHook(b, event);
  }

  const FOREIGN_COMMAND := "command = \"say\""

  /** Somebody else's hook for `Stop`: however often an add that enables it is done, the next one appends
      one more block for it. */
  lemma ForeignHookAddsForever(events: seq<string>, hook: string, n: nat)
    requires EventNames(events) && HookPath(hook) && "Stop" in events
    ensures var content := Join([HOOKS_HEADER, EventLine("Stop"), FOREIGN_COMMAND]);
            "Stop" in AddReport(AddTimes(content, events, hook, n), events, hook).added
  {
    HeaderLine();
    TrimFixed(HOOKS_HEADER);
    EventLineFacts("Stop");
    SayLine(FOREIGN_COMMAND);
    hide *;
    ForeignLines(HOOKS_HEADER, EventLine("Stop"), FOREIGN_COMMAND, "Stop");
    ForeignAddsForever(Join([HOOKS_HEADER, EventLine("Stop"), FOREIGN_COMMAND]), events, hook, "Stop", n);
  }
}
