/** What appending hook blocks to the Kimi file does to its lines, its blocks and the check for an
    installed hook (crates/core/src/hook_status.rs). */
module KimiAppend {
  import opened Common
  import opened Text
  import opened LineEnds
  import opened KimiBlocks
  import opened KimiHooks
  import opened KimiHookBlock

  // ---- Lines of the extended text ----

  function WithBlock(content: string, b: Block): string {
    (if Trim(content) != "" && !EndsWithNewline(content) then content + "\n" else content) + "\n" + Terminate(b)
  }

  /** The blank line in front of an appended block; text of blanks only, without a final newline, gets none. */
  function Separator(content: string): seq<string> {
    if content != "" && Trim(content) == "" && !EndsWithNewline(content) then [] else [""]
  }

  /** The text with its last line ended. */
  function Closed(content: string): string {
    if content == "" || EndsWithNewline(content) then content else content + "\n"
  }

  /** The first line of text that ends in the middle of a line. */
  lemma FirstOfUnfinished(a: string) returns (n: nat, rest: string)
    requires a != "" && !EndsWithNewline(a)
    ensures n <= |a| && rest == (if n < |a| then a[n + 1..] else "")
    ensures n == |a| ==> Lines(a) == [a] && Lines(a + "\n") == [StripCr(a)]
    ensures n < |a| ==> a[n] == '\n' && '\n' !in a[..n] && rest != "" && !EndsWithNewline(rest)
                        && Lines(a) == [StripCr(a[..n])] + Lines(rest)
  {
    n := FindChar(a, '\n');
    rest := if n < |a| then a[n + 1..] else "";
    if n == |a| {
      assert a[..n] == a;
      OnlyLine(a);
    } else {
      assert rest != "" && rest[|rest| - 1] == a[|a| - 1];
    }
  }

  lemma OnlyLine(a: string)
    requires a != "" && '\n' !in a
    ensures Lines(a) == [a] && Lines(a + "\n") == [StripCr(a)]
  {
    LinesOfOne(a);
    CutAfter(a, "");
    assert a + "\n" + "" == a + "\n" && Lines("") == [];
  }

  lemma OneLineAlike(a: string)
    ensures Alike([StripCr(a)], [a])
  {
    BareStrip(a);
  }

  lemma SameFirst(first: string, a: seq<string>, b: seq<string>)
    requires Alike(a, b)
    ensures Alike([first] + a, [first] + b)
  {
  }

  /** Ending the last line keeps the lines alike. */
  lemma {:induction false} LinesOfUnfinished(a: string)
    requires a != "" && !EndsWithNewline(a)
    ensures Alike(Lines(a + "\n"), Lines(a))
    decreases |a|
  {
    hide *;
    var n, rest := FirstOfUnfinished(a);
    if n < |a| {
      LinesOfUnfinished(rest);
      CutAtNewline(a, "\n", n);
      SameFirst(StripCr(a[..n]), Lines(rest + "\n"), Lines(rest));
    } else {
      OneLineAlike(a);
    }
  }

  lemma ClosedAlike(content: string)
    ensures Alike(Lines(Closed(content)), Lines(content))
  {
    if content == "" || EndsWithNewline(content) {
      AlikeSelf(Lines(content));
    } else {
      LinesOfUnfinished(content);
    }
  }

  /** How the text is extended: `head` ends at a line end, `tail` is what comes after it. */
  lemma WithBlockParts(content: string, b: Block) returns (head: string, tail: string)
    ensures WithBlock(content, b) == head + tail && (head == "" || EndsWithNewline(head))
    ensures head == Closed(content)
    ensures tail == (if Separator(content) == [] then Terminate(b) else "\n" + Terminate(b))
    ensures Separator(content) == [] || Separator(content) == [""]
  {
    if content == "" || EndsWithNewline(content) {
      head, tail := content, "\n" + Terminate(b);
    } else {
      head := content + "\n";
      tail := if Trim(content) != "" then "\n" + Terminate(b) else Terminate(b);
    }
    var base := if Trim(content) != "" && !EndsWithNewline(content) then content + "\n" else content;
    AppendAssoc(base, "\n", Terminate(b));
    AppendAssoc(content, "\n", Terminate(b));
    assert Trim("") == "";
    hide Terminate, Trim;
  }

  lemma LinesWithBlock(content: string, b: Block)
    requires AllPlain(b)
    ensures Lines(WithBlock(content, b)) == Lines(Closed(content)) + Separator(content) + b
  {
    hide *;
    var head, tail := WithBlockParts(content, b);
    BlockTail(b);
    LinesAppend(head, tail);
    SeparatorLines(Lines(head), Separator(content), b);
  }

  lemma SeparatorLines(ls: seq<string>, sep: seq<string>, b: Block)
    ensures ls + sep + b == ls + (sep + b) && (sep == [] ==> sep + b == b)
  {
  }

  lemma BlockTail(b: Block)
    requires AllPlain(b)
    ensures Lines("\n" + Terminate(b)) == [""] + b && Lines(Terminate(b)) == b
  {
    LinesOfTerminated(b, "");
    assert Lines("") == [];
    hide Lines, Terminate, AllPlain;
    var t := Terminate(b);
    AppendNothing(t);
    AppendNothing(b);
    LinesStep("", t);
    PrependNothing("\n");
  }

  lemma PrependNothing(s: string)
    ensures "" + s == s
  {
  }

  // ---- Blocks of the extended lines ----

  ghost predicate NoneMeet(ls: seq<string>, p: Block -> bool) {
    forall b :: b in Blocks(ls) && IsHookBlock(b) ==> !p(b)
  }

  predicate Dropped(b: Block, p: Block -> bool) {
    IsHookBlock(b) && p(b)
  }

  predicate LastDropped(ls: seq<string>, p: Block -> bool) {
    var bs := Blocks(ls);
    bs != [] && Dropped(bs[|bs| - 1], p)
  }

  ghost predicate IgnoresBlank(p: Block -> bool) {
    forall b: Block :: p(b + [""]) == p(b)
  }

  ghost predicate HookShaped(b: Block) {
    IsHookBlock(b) && forall j :: 0 < j < |b| ==> !IsHeader(b[j])
  }

  lemma BlocksWithHook(ls: seq<string>, b: Block)
    requires HookShaped(b)
    ensures Blocks(ls + b) == Blocks(ls) + [b]
  {
    BlocksWellSplit(ls);
    var bs := Blocks(ls);
    HookHeaderIsHeader(b[0]);
    assert (bs + [b])[..|bs|] == bs;
    BlocksOfFlatten(bs + [b]);
  }

  lemma RemoveWithHook(ls: seq<string>, b: Block, p: Block -> bool)
    requires HookShaped(b)
    ensures Remove(ls + b, p) == Remove(ls, p) + (if p(b) then [] else b)
    ensures RemovedEvents(Blocks(ls + b), p)
            == RemovedEvents(Blocks(ls), p) + (if p(b) then Listed(LastEvent(b)) else [])
    ensures LastDropped(ls + b, p) == p(b)
    ensures NoneMeet(ls + b, p) <==> NoneMeet(ls, p) && !p(b)
  {
    var bs := Blocks(ls);
    BlocksWithHook(ls, b);
    KeepLast(bs + [b], p);
    assert (bs + [b])[..|bs|] == bs;
    assert b in Blocks(ls + b);
  }

  lemma RemoveWithBlank(ls: seq<string>, p: Block -> bool)
    requires IgnoresBlank(p)
    ensures Remove(ls + [""], p) == Remove(ls, p) + (if LastDropped(ls, p) then [] else [""])
    ensures RemovedEvents(Blocks(ls + [""]), p) == RemovedEvents(Blocks(ls), p)
    ensures LastDropped(ls + [""], p) == LastDropped(ls, p)
    ensures NoneMeet(ls + [""], p) <==> NoneMeet(ls, p)
  {
    BlocksWellSplit(ls);
    BlankIsPlainText();
    BlocksSnoc(ls, "");
    var bs, bs' := Blocks(ls), Blocks(ls + [""]);
    if bs == [] {
      assert bs' == [[""]];
      KeepLast(bs', p);
      assert bs'[..0] == [];
    } else {
      BlankAtEnd(bs, p);
    }
  }

  lemma BlankAtEnd(bs: seq<Block>, p: Block -> bool)
    requires IgnoresBlank(p) && bs != [] && bs[|bs| - 1] != []
    ensures var bs' := AddLine(bs, "", false);
            var dropped := Dropped(bs[|bs| - 1], p);
            && Flatten(Keep(bs', p)) == Flatten(Keep(bs, p)) + (if dropped then [] else [""])
            && RemovedEvents(bs', p) == RemovedEvents(bs, p)
            && bs' != [] && Dropped(bs'[|bs'| - 1], p) == dropped
            && ((forall b :: b in bs' && IsHookBlock(b) ==> !p(b))
                <==> (forall b :: b in bs && IsHookBlock(b) ==> !p(b)))
  {
    hide AddLine, Flatten, Keep, RemovedEvents, LastEvent;
    var front, b := bs[..|bs| - 1], bs[|bs| - 1];
    var b' := b + [""];
    var bs' := front + [b'];
    BlankJoinsLast(bs);
    KeepLast(bs, p);
    KeepLast(bs', p);
    assert bs'[..|bs'| - 1] == front;
    BlankIsPlainText();
    LastEventSnoc(b, "");
    assert p(b') == p(b) && IsHookBlock(b') == IsHookBlock(b);
    MembersSnoc(front, b, bs);
    MembersSnoc(front, b', bs');
  }

  lemma BlankJoinsLast(bs: seq<Block>)
    requires bs != []
    ensures AddLine(bs, "", false) == bs[..|bs| - 1] + [bs[|bs| - 1] + [""]]
  {
  }

  lemma MembersSnoc<T>(front: seq<T>, x: T, s: seq<T>)
    requires s == front + [x]
    ensures forall y :: y in s <==> y in front || y == x
  {
  }

  lemma BlankIsPlainText()
    ensures !IsHeader("") && !IsHookHeader("") && EventOf("") == None
  {
  }

  lemma OursIgnoresBlank()
    ensures IgnoresBlank(Ours)
  {
    EmptyContains(HOOK_MARKER);
    forall b: Block ensures Ours(b + [""]) == Ours(b) {
      assert forall l :: l in b + [""] <==> l in b || l == "";
    }
  }

  lemma LegacyIgnoresBlank()
    ensures IgnoresBlank(Legacy)
  {
    forall b: Block ensures Legacy(b + [""]) == Legacy(b) {
      assert forall l :: l in b + [""] <==> l in b || l == "";
    }
  }

  lemma NothingToRemove(ls: seq<string>, p: Block -> bool)
    requires NoneMeet(ls, p)
    ensures Remove(ls, p) == ls && RemovedEvents(Blocks(ls), p) == []
  {
    BlocksWellSplit(ls);
    KeepAll(Blocks(ls), p);
    NoEventsRemoved(Blocks(ls), p);
  }

  lemma {:induction false} NoEventsRemoved(bs: seq<Block>, p: Block -> bool)
    requires forall b :: b in bs && IsHookBlock(b) ==> !p(b)
    ensures RemovedEvents(bs, p) == []
  {
    if bs != [] {
      NoEventsRemoved(bs[..|bs| - 1], p);
    }
  }

  /** Nothing that a removal takes out is left after it. */
  lemma RemovedNoneMeet(ls: seq<string>, p: Block -> bool, q: Block -> bool)
    ensures NoneMeet(Remove(ls, p), p)
    ensures NoneMeet(ls, q) ==> NoneMeet(Remove(ls, p), q)
  {
    BlocksWellSplit(ls);
    KeepWellSplit(Blocks(ls), p);
    BlocksOfFlatten(Keep(Blocks(ls), p));
    KeepMembers(Blocks(ls), p);
  }

  lemma NoneMeetDropBlank(ls: seq<string>, p: Block -> bool)
    requires IgnoresBlank(p)
    ensures NoneMeet(DropTrailingBlank(ls), p) <==> NoneMeet(ls, p)
  {
    if ls != [] && ls[|ls| - 1] == "" {
      assert DropTrailingBlank(ls) + [""] == ls;
      RemoveWithBlank(DropTrailingBlank(ls), p);
    }
  }

  // ---- Is the hook installed for an event? ----

  /** The first command line after a line naming the event and before the next hook header:
      whether it carries the marker. */
  function FirstHit(ls: seq<string>, inHook: bool, eventLine: string): Option<bool> {
    if ls == [] then None
    else
      var t := Trim(ls[0]);
      if t == HOOKS_HEADER then FirstHit(ls[1..], false, eventLine)
      else if t == eventLine then FirstHit(ls[1..], true, eventLine)
      else if inHook && COMMAND_KEY <= t then Some(Contains(t, HOOK_MARKER))
      else FirstHit(ls[1..], inHook, eventLine)
  }

  predicate HasCurrentHook(content: string, event: string) {
    FirstHit(Lines(content), false, EventLine(event)) == Some(true)
  }

  /** `kimi_event_has_current_hook` */
  method EventHasCurrentHook(content: string, event: string) returns (found: bool)
    ensures found == HasCurrentHook(content, event)
  {
    var lines := Lines(content);
    var inMatchingHook := false;
    var eventLine := EventLine(event);
    var i := 0;
    assert lines[0..] == lines;
    while i < |lines|
      invariant 0 <= i <= |lines|
      invariant FirstHit(lines, false, eventLine) == FirstHit(lines[i..], inMatchingHook, eventLine)
    {
      var trimmed := Trim(lines[i]);
      assert lines[i..][1..] == lines[i + 1..];
      i := i + 1;
      if trimmed == HOOKS_HEADER {
        inMatchingHook := false;
        continue;
      }
      if trimmed == eventLine {
        inMatchingHook := true;
        continue;
      }
      if inMatchingHook && COMMAND_KEY <= trimmed {
        return Contains(trimmed, HOOK_MARKER);
      }
    }
    return false;
  }

  lemma {:induction false} HitAppend(a: seq<string>, b: seq<string>, inHook: bool, eventLine: string)
    requires b != [] && IsHookHeader(b[0])
    ensures FirstHit(a + b, inHook, eventLine) ==
            if FirstHit(a, inHook, eventLine).Some? then FirstHit(a, inHook, eventLine)
            else FirstHit(b[1..], false, eventLine)
  {
    if a == [] {
      assert a + b == b;
    } else {
      assert (a + b)[1..] == a[1..] + b;
      var t := Trim(a[0]);
      HitAppend(a[1..], b, if t == HOOKS_HEADER then false else if t == eventLine then true else inHook, eventLine);
    }
  }

  lemma {:induction false} HitAppendBlank(a: seq<string>, inHook: bool, eventLine: string)
    requires eventLine != ""
    ensures FirstHit(a + [""], inHook, eventLine) == FirstHit(a, inHook, eventLine)
  {
    if a == [] {
      assert a + [""] == [""] && [""][1..] == [];
    } else {
      assert (a + [""])[1..] == a[1..] + [""];
      var t := Trim(a[0]);
      HitAppendBlank(a[1..], if t == HOOKS_HEADER then false else if t == eventLine then true else inHook, eventLine);
    }
  }

  lemma HitDropBlank(ls: seq<string>, eventLine: string)
    requires eventLine != ""
    ensures FirstHit(DropTrailingBlank(ls), false, eventLine) == FirstHit(ls, false, eventLine)
  {
    if ls != [] && ls[|ls| - 1] == "" {
      assert DropTrailingBlank(ls) + [""] == ls;
      HitAppendBlank(DropTrailingBlank(ls), false, eventLine);
    }
  }

  /** Inside a written block only its own event meets a command. */
  lemma {:induction false} HitCommand(b: Block, inHook: bool, eventLine: string)
    requires b != [] && CommandStart(b[|b| - 1]) && Contains(Trim(b[|b| - 1]), HOOK_MARKER)
    requires forall j :: 0 <= j < |b| - 1 ==> !CommandStart(b[j])
    requires forall j :: 0 <= j < |b| ==> Trim(b[j]) != eventLine && Trim(b[j]) != HOOKS_HEADER
    ensures FirstHit(b, inHook, eventLine) == if inHook then Some(true) else None
  {
    if |b| > 1 {
      HitCommand(b[1..], inHook, eventLine);
    } else {
      assert b[1..] == [];
    }
  }

  lemma HitInBlock(b: Block, event: string, asked: string)
    requires Written(b, event)
    ensures FirstHit(b[1..], false, EventLine(asked)) == if asked == event then Some(true) else None
  {
    EventLinesDiffer(asked, event);
    var rest := b[2..];
    assert b[1..][1..] == rest && b[1..][0] == b[1];
    forall j | 0 <= j < |rest| ensures Trim(rest[j]) != EventLine(asked) && Trim(rest[j]) != HOOKS_HEADER {
      assert rest[j] == b[j + 2];
      assert EventOf(b[j + 2]) == None && !IsHeader(b[j + 2]);
      NotAnEventLine(b[j + 2], asked);
    }
    assert forall j :: 0 <= j < |rest| ==> rest[j] == b[j + 2];
    HitCommand(rest, asked == event, EventLine(asked));
    NotHookHeader(b[1]);
  }

  lemma NotHookHeader(l: string)
    requires EventOf(l).Some?
    ensures Trim(l) != HOOKS_HEADER && !CommandStart(l)
  {
    assert EVENT_KEY[0] != HOOKS_HEADER[0] && EVENT_KEY[0] != COMMAND_KEY[0];
  }

  lemma NotAnEventLine(l: string, event: string)
    requires EventOf(l) == None && !IsHeader(l)
    ensures Trim(l) != EventLine(event) && Trim(l) != HOOKS_HEADER
  {
    assert EventLine(event)[..8] == EVENT_KEY;
    assert "[" <= HOOKS_HEADER;
  }

  lemma EventLinesDiffer(a: string, b: string)
    ensures EventLine(a) == EventLine(b) <==> a == b
    ensures EventLine(a) != "" && EventLine(a) != HOOKS_HEADER
  {
    assert EventLine(a)[9..|EventLine(a)| - 1] == a;
    assert EventLine(b)[9..|EventLine(b)| - 1] == b;
    assert EventLine(a)[0] == 'e';
  }
}
