/** What the Kimi file says is installed, before and after our hooks are removed
    (crates/core/src/hook_status.rs). */
module KimiInstalled {
  import opened Common
  import opened Text
  import opened KimiBlocks
  import opened KimiHooks

  // ---- parse_kimi_installed_events ----

  /** The parser starts afresh at a hook header and at any other header, but not at a line that only
      starts with the hook header's text. */
  predicate ParserHeader(l: string) {
    IsHookHeader(l) || ("[" <= Trim(l) && !(HOOKS_HEADER <= Trim(l)))
  }

  predicate MarkedCommand(l: string) {
    COMMAND_KEY <= Trim(l) && Contains(Trim(l), HOOK_MARKER)
  }

  function Sections(ls: seq<string>): seq<Block> {
    if ls == [] then []
    else AddLine(Sections(ls[..|ls| - 1]), ls[|ls| - 1], ParserHeader(ls[|ls| - 1]))
  }

  predicate HasMarkedCommand(b: Block) {
    exists l :: l in b && MarkedCommand(l)
  }

  function InstalledIn(b: Block): seq<string> {
    if HasMarkedCommand(b) then Listed(LastEvent(b)) else []
  }

  /** One event for every section that names one and has a marked command. */
  function Installed(bs: seq<Block>): seq<string> {
    if bs == [] then [] else Installed(bs[..|bs| - 1]) + InstalledIn(bs[|bs| - 1])
  }

  ghost predicate Parsed(bs: seq<Block>, installed: seq<string>, event: Option<string>, marked: bool) {
    if bs == [] then installed == [] && event == None && !marked
    else
      && installed == Installed(bs[..|bs| - 1])
      && event == LastEvent(bs[|bs| - 1])
      && marked == HasMarkedCommand(bs[|bs| - 1])
  }

  lemma AtParserHeader(bs: seq<Block>, l: string)
    requires ParserHeader(l)
    ensures Parsed(AddLine(bs, l, true), Installed(bs), None, false)
  {
    var bs' := AddLine(bs, l, true);
    assert bs'[..|bs'| - 1] == bs;
    StartsWithBracket(l);
    assert LastEvent([l][..0]) == None;
  }

  lemma StartsWithBracket(l: string)
    requires ParserHeader(l)
    ensures EventOf(l) == None && !MarkedCommand(l)
  {
    assert "["[0] != EVENT_KEY[0] && "["[0] != COMMAND_KEY[0] && HOOKS_HEADER[0] == "["[0];
  }

  lemma AtOtherLine(bs: seq<Block>, l: string, installed: seq<string>, event: Option<string>, marked: bool)
    requires Parsed(bs, installed, event, marked)
    ensures Parsed(AddLine(bs, l, false), installed, if EventOf(l).Some? then EventOf(l) else event,
                   marked || MarkedCommand(l))
  {
    var bs' := AddLine(bs, l, false);
    var b := if bs == [] then [] else bs[|bs| - 1];
    assert bs'[|bs'| - 1] == b + [l];
    assert bs'[..|bs'| - 1] == if bs == [] then [] else bs[..|bs| - 1];
    LastEventSnoc(b, l);
    assert HasMarkedCommand(b + [l]) == (HasMarkedCommand(b) || MarkedCommand(l)) by {
      assert l in b + [l];
      assert forall x :: x in b + [l] <==> x in b || x == l;
    }
  }

  lemma AtEnd(bs: seq<Block>, installed: seq<string>, event: Option<string>, marked: bool)
    requires Parsed(bs, installed, event, marked)
    ensures Installed(bs) == installed + (if marked then Listed(event) else [])
  {
  }

  lemma SectionsNext(ls: seq<string>, i: nat)
    requires i < |ls|
    ensures Sections(ls[..i + 1]) == AddLine(Sections(ls[..i]), ls[i], ParserHeader(ls[i]))
  {
    assert ls[..i + 1][..i] == ls[..i];
  }

  lemma NotBothKeys(t: string)
    requires EVENT_KEY <= t
    ensures !(COMMAND_KEY <= t) && !("[" <= t)
  {
    assert EVENT_KEY[0] != COMMAND_KEY[0] && EVENT_KEY[0] != "["[0];
  }

  /** `parse_kimi_installed_events` */
  method ParseInstalled(content: string) returns (installed: seq<string>)
    ensures installed == Installed(Sections(Lines(content)))
  {
    hide Parsed, AddLine, HasMarkedCommand;
    var lines := Lines(content);
    installed := [];
    var event, marked := None, false;
    var i := 0;
    assert Parsed(Sections(lines[..0]), [], None, false) by {
      NothingParsed();
    }
    while i < |lines|
      invariant 0 <= i <= |lines|
      invariant Parsed(Sections(lines[..i]), installed, event, marked)
    {
      var line := lines[i];
      var trimmed := Trim(line);
      ghost var bs := Sections(lines[..i]);
      SectionsNext(lines, i);
      if trimmed == HOOKS_HEADER {
        AtEnd(bs, installed, event, marked);
        AtParserHeader(bs, line);
        installed := installed + (if marked then Listed(event) else []);
        event, marked := None, false;
      } else {
        if ParserHeader(line) {
          AtEnd(bs, installed, event, marked);
          AtParserHeader(bs, line);
          StartsWithBracket(line);
        } else {
          AtOtherLine(bs, line, installed, event, marked);
        }
        if EVENT_KEY <= trimmed {
          NotBothKeys(trimmed);
          event := EventOf(line);
        } else if COMMAND_KEY <= trimmed && Contains(trimmed, HOOK_MARKER) {
          marked := true;
        } else if "[" <= trimmed && !(HOOKS_HEADER <= trimmed) {
          installed := installed + (if marked then Listed(event) else []);
          event, marked := None, false;
        }
      }
      i := i + 1;
    }
    assert lines[..i] == lines;
    AtEnd(Sections(lines), installed, event, marked);
    installed := installed + (if marked then Listed(event) else []);
  }

  lemma NothingParsed()
    ensures Parsed(Sections([]), [], None, false)
  {
  }

  // ---- Removing leaves nothing installed ----

  ghost predicate MarkedOnlyInHooks(ls: seq<string>) {
    forall b, l :: b in Blocks(ls) && l in b && MarkedLine(l) ==> IsHookBlock(b)
  }

  lemma {:induction false} FlattenMembers(bs: seq<Block>, l: string)
    ensures l in Flatten(bs) <==> exists b :: b in bs && l in b
  {
    if bs != [] {
      FlattenMembers(bs[..|bs| - 1], l);
      assert bs == bs[..|bs| - 1] + [bs[|bs| - 1]];
    }
  }

  /** No marked line survives the removal exactly when marked lines lie only in hook blocks. */
  lemma RemovalClearsMarkedLines(ls: seq<string>)
    ensures (forall l :: l in Remove(ls, Ours) ==> !MarkedLine(l)) <==> MarkedOnlyInHooks(ls)
  {
    KeepMembers(Blocks(ls), Ours);
    var kept := Keep(Blocks(ls), Ours);
    if MarkedOnlyInHooks(ls) {
      forall l | l in Remove(ls, Ours) ensures !MarkedLine(l) {
        FlattenMembers(kept, l);
        var b :| b in kept && l in b;
        assert !(IsHookBlock(b) && Ours(b));
      }
    } else {
      var b, l :| b in Blocks(ls) && l in b && MarkedLine(l) && !IsHookBlock(b);
      assert b in kept;
      FlattenMembers(kept, l);
    }
  }

  lemma {:induction false} SectionLines(ls: seq<string>)
    ensures forall b, l :: b in Sections(ls) && l in b ==> l in ls
  {
    if ls != [] {
      var front, l := ls[..|ls| - 1], ls[|ls| - 1];
      SectionLines(front);
      var bs := Sections(front);
      forall b, x | b in Sections(ls) && x in b ensures x in ls {
        assert b in bs || b == [l] || (bs != [] && b == bs[|bs| - 1] + [l]);
      }
    }
  }

  lemma {:induction false} NothingInstalled(bs: seq<Block>)
    requires forall b, l :: b in bs && l in b ==> !MarkedLine(l)
    ensures Installed(bs) == []
  {
    if bs != [] {
      NothingInstalled(bs[..|bs| - 1]);
      var b := bs[|bs| - 1];
      forall l | l in b ensures !MarkedCommand(l) {
        if MarkedCommand(l) {
          TrimContains(l, HOOK_MARKER);
        }
      }
    }
  }

  /** A removal only ever keeps lines of the input. */
  lemma KeptLines(ls: seq<string>, p: Block -> bool)
    ensures forall l :: l in Remove(ls, p) ==> l in ls
  {
    BlocksWellSplit(ls);
    KeepMembers(Blocks(ls), p);
    forall l | l in Remove(ls, p) ensures l in ls {
      FlattenMembers(Keep(Blocks(ls), p), l);
      FlattenMembers(Blocks(ls), l);
    }
  }

  lemma ForeignBlock(ls: Block)
    requires ls != [] && IsHeader(ls[0]) && !IsHookHeader(ls[0])
    requires forall j :: 0 < j < |ls| ==> !IsHeader(ls[j])
    ensures Remove(ls, Ours) == ls
  {
    assert WellSplit([ls]);
    FlattenOne(ls);
    BlocksOfFlatten([ls]);
    KeepAll([ls], Ours);
  }

  lemma SectionsExtend(b: Block, l: string)
    requires Sections(b) == [b] && !ParserHeader(l)
    ensures Sections(b + [l]) == [b + [l]]
  {
    SectionsSnoc(b, l);
  }

  lemma SectionsOfThree(l0: string, l1: string, l2: string)
    requires ParserHeader(l0) && !ParserHeader(l1) && !ParserHeader(l2)
    ensures Sections([l0, l1, l2]) == [[l0, l1, l2]]
  {
    hide ParserHeader;
    assert [l0] + [l1] == [l0, l1] && [l0, l1] + [l2] == [l0, l1, l2];
    SectionsOfOne(l0);
    SectionsExtend([l0], l1);
    SectionsExtend([l0, l1], l2);
  }

  lemma SectionsOfOne(l: string)
    ensures Sections([l]) == [[l]]
  {
    SectionsSnoc([], l);
    assert [] + [l] == [l];
  }

  lemma InstalledOne(b: Block)
    ensures Installed([b]) == InstalledIn(b)
  {
    assert [b][..0] == [];
  }

  /** A section that is no hook block but names an event and a marked command. */
  lemma ForeignSection(l0: string, l1: string, l2: string)
    requires IsHeader(l0) && ParserHeader(l0) && !IsHookHeader(l0)
    requires !IsHeader(l1) && !IsHeader(l2) && !ParserHeader(l1) && !ParserHeader(l2)
    requires EventOf(l1).Some? && MarkedCommand(l2)
    ensures Remove([l0, l1, l2], Ours) == [l0, l1, l2]
    ensures Installed(Sections([l0, l1, l2])) != []
  {
    hide Installed, InstalledIn, Sections, MarkedCommand, EventOf, ParserHeader;
    var ls := [l0, l1, l2];
    ForeignBlock(ls);
    SectionsOfThree(l0, l1, l2);
    InstalledOne(ls);
    ForeignInstalled(ls);
  }

  lemma ForeignInstalled(ls: Block)
    requires |ls| == 3 && EventOf(ls[1]).Some? && MarkedCommand(ls[2])
    ensures InstalledIn(ls) != []
  {
    assert ls[2] in ls && HasMarkedCommand(ls);
    assert ls[..2] == [ls[0]] + [ls[1]] && ls == ls[..2] + [ls[2]];
    LastEventSnoc([ls[0]], ls[1]);
    LastEventSnoc(ls[..2], ls[2]);
  }

  lemma FlattenOne(b: Block)
    ensures Flatten([b]) == b
  {
    assert [b][..0] == [];
  }

  lemma SectionsSnoc(ls: seq<string>, l: string)
    ensures Sections(ls + [l]) == AddLine(Sections(ls), l, ParserHeader(l))
  {
    assert (ls + [l])[..|ls|] == ls;
  }

  /** Outside hook blocks the parser is more generous than the remover: this section counts as
      installed and the removal leaves it in place. */
  lemma MarkedSectionStaysInstalled()
    ensures var ls := ["[models]", "event = \"Stop\"", "command = \"agent-aspect-hook\""];
            Remove(ls, Ours) == ls && Installed(Sections(ls)) != []
  {
    ModelsLine("[models]");
    StopLine("event = \"Stop\"");
    MarkedLineExample("command = \"agent-aspect-hook\"");
    hide *;
    ForeignSection("[models]", "event = \"Stop\"", "command = \"agent-aspect-hook\"");
  }

  lemma ModelsLine(l: string)
    requires l == "[models]"
    ensures IsHeader(l) && ParserHeader(l) && !IsHookHeader(l)
  {
    TrimFixed(l);
  }

  lemma StopLine(l: string)
    requires l == "event = \"Stop\""
    ensures !IsHeader(l) && !ParserHeader(l) && EventOf(l).Some?
  {
    TrimFixed(l);
  }

  lemma MarkedLineExample(l: string)
    requires l == "command = \"agent-aspect-hook\""
    ensures !IsHeader(l) && !ParserHeader(l) && EventOf(l) == None && MarkedCommand(l) && MarkedLine(l)
  {
    TrimFixed(l);
    assert l[11..11 + |HOOK_MARKER|] == HOOK_MARKER;
    assert OccursAt(l, HOOK_MARKER, 11);
  }
}
