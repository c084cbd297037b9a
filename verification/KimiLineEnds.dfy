/** Nothing the Kimi scanners look at depends on carriage returns at line ends
    (crates/core/src/hook_status.rs). */
module KimiLineEnds {
  import opened Text
  import opened LineEnds
  import opened KimiBlocks
  import opened KimiHooks
  import opened KimiHookBlock
  import opened KimiInstalled
  import opened KimiAppend

  lemma AlikeLine(x: string, y: string)
    requires Bare(x) == Bare(y)
    ensures Trim(x) == Trim(y) && IsHeader(x) == IsHeader(y) && IsHookHeader(x) == IsHookHeader(y)
    ensures MarkedLine(x) == MarkedLine(y) && LegacyCommandLine(x) == LegacyCommandLine(y) && EventOf(x) == EventOf(y)
  {
    TrimBare(x);
    TrimBare(y);
    ContainsBare(x, HOOK_MARKER);
    ContainsBare(y, HOOK_MARKER);
  }

  ghost predicate IgnoresCr(p: Block -> bool) {
    forall a: Block, b: Block :: Alike(a, b) ==> p(a) == p(b)
  }

  lemma OursIgnoresCr()
    ensures IgnoresCr(Ours)
  {
    forall a: Block, b: Block | Alike(a, b) ensures Ours(a) == Ours(b) {
      forall i | 0 <= i < |a| ensures MarkedLine(a[i]) == MarkedLine(b[i]) {
        AlikeLine(a[i], b[i]);
      }
      hide MarkedLine;
      assert Ours(a) <==> exists i :: 0 <= i < |a| && MarkedLine(a[i]);
      assert Ours(b) <==> exists i :: 0 <= i < |b| && MarkedLine(b[i]);
    }
  }

  lemma LegacyIgnoresCr()
    ensures IgnoresCr(Legacy)
  {
    forall a: Block, b: Block | Alike(a, b) ensures Legacy(a) == Legacy(b) {
      forall i | 0 <= i < |a| ensures LegacyCommandLine(a[i]) == LegacyCommandLine(b[i]) {
        AlikeLine(a[i], b[i]);
      }
      hide LegacyCommandLine;
      assert Legacy(a) <==> exists i :: 0 <= i < |a| && LegacyCommandLine(a[i]);
      assert Legacy(b) <==> exists i :: 0 <= i < |b| && LegacyCommandLine(b[i]);
    }
  }

  ghost predicate AlikeBlockLists(a: seq<Block>, b: seq<Block>) {
    |a| == |b| && forall k :: 0 <= k < |a| ==> Alike(a[k], b[k])
  }

  lemma AddLineAlike(a: seq<Block>, b: seq<Block>, x: string, y: string, header: bool)
    requires AlikeBlockLists(a, b) && Bare(x) == Bare(y)
    ensures AlikeBlockLists(AddLine(a, x, header), AddLine(b, y, header))
  {
    if !(header || a == []) {
      AlikeAppend(a[|a| - 1], b[|b| - 1], [x], [y]);
    }
  }

  lemma {:induction false} BlocksAlike(a: seq<string>, b: seq<string>)
    requires Alike(a, b)
    ensures AlikeBlockLists(Blocks(a), Blocks(b))
  {
    if a != [] {
      var n := |a| - 1;
      BlocksAlike(a[..n], b[..n]);
      AlikeLine(a[n], b[n]);
      AddLineAlike(Blocks(a[..n]), Blocks(b[..n]), a[n], b[n], IsHeader(a[n]));
    }
  }

  lemma HookBlockAlike(a: Block, b: Block)
    requires Alike(a, b)
    ensures IsHookBlock(a) == IsHookBlock(b)
  {
    if a != [] {
      AlikeLine(a[0], b[0]);
    }
  }

  lemma NoneMeetAlike(a: seq<string>, b: seq<string>, p: Block -> bool)
    requires Alike(a, b) && IgnoresCr(p)
    ensures NoneMeet(a, p) <==> NoneMeet(b, p)
  {
    BlocksAlike(a, b);
    forall k | 0 <= k < |Blocks(a)|
      ensures (IsHookBlock(Blocks(a)[k]) ==> !p(Blocks(a)[k])) <==> (IsHookBlock(Blocks(b)[k]) ==> !p(Blocks(b)[k]))
    {
      HookBlockAlike(Blocks(a)[k], Blocks(b)[k]);
    }
    hide Blocks, IsHookBlock, Alike;
    ByIndex(Blocks(a), p);
    ByIndex(Blocks(b), p);
    assert NoneMeet(a, p) <==> NoneOf(Blocks(a), p);
    assert NoneMeet(b, p) <==> NoneOf(Blocks(b), p);
  }

  predicate NoneOf(bs: seq<Block>, p: Block -> bool) {
    forall k :: 0 <= k < |bs| && IsHookBlock(bs[k]) ==> !p(bs[k])
  }

  lemma ByIndex(bs: seq<Block>, p: Block -> bool)
    ensures NoneOf(bs, p) <==> forall b :: b in bs && IsHookBlock(b) ==> !p(b)
  {
    hide IsHookBlock;
    assert forall k :: 0 <= k < |bs| ==> bs[k] in bs;
  }

  lemma {:induction false} LastEventAlike(a: Block, b: Block)
    requires Alike(a, b)
    ensures LastEvent(a) == LastEvent(b)
  {
    if a != [] {
      var n := |a| - 1;
      LastEventAlike(a[..n], b[..n]);
      AlikeLine(a[n], b[n]);
    }
  }

  lemma {:induction false} RemovedEventsAlike(a: seq<Block>, b: seq<Block>, p: Block -> bool)
    requires AlikeBlockLists(a, b) && IgnoresCr(p)
    ensures RemovedEvents(a, p) == RemovedEvents(b, p)
  {
    if a != [] {
      var n := |a| - 1;
      RemovedEventsAlike(a[..n], b[..n], p);
      HookBlockAlike(a[n], b[n]);
      LastEventAlike(a[n], b[n]);
    }
  }

  lemma {:induction false} FirstHitAlike(a: seq<string>, b: seq<string>, inHook: bool, eventLine: string)
    requires Alike(a, b)
    ensures FirstHit(a, inHook, eventLine) == FirstHit(b, inHook, eventLine)
  {
    if a != [] {
      AlikeLine(a[0], b[0]);
      var t := Trim(a[0]);
      FirstHitAlike(a[1..], b[1..],
                    if t == HOOKS_HEADER then false else if t == eventLine then true else inHook, eventLine);
    }
  }

  lemma EmptyHooksCarry(a: seq<string>, b: seq<string>)
    requires Alike(a, b) && forall l :: l in a ==> Trim(l) != EMPTY_HOOKS
    ensures forall l :: l in b ==> Trim(l) != EMPTY_HOOKS
  {
    forall l | l in b ensures Trim(l) != EMPTY_HOOKS {
      var i :| 0 <= i < |b| && b[i] == l;
      AlikeLine(a[i], b[i]);
      assert a[i] in a;
    }
  }

  lemma EmptyHooksAlike(a: seq<string>, b: seq<string>)
    requires Alike(a, b)
    ensures (forall l :: l in a ==> Trim(l) != EMPTY_HOOKS) <==> (forall l :: l in b ==> Trim(l) != EMPTY_HOOKS)
  {
    hide Trim;
    if forall l :: l in a ==> Trim(l) != EMPTY_HOOKS {
      EmptyHooksCarry(a, b);
    }
    if forall l :: l in b ==> Trim(l) != EMPTY_HOOKS {
      EmptyHooksCarry(b, a);
    }
  }

  lemma UnmarkedCarry(a: seq<string>, b: seq<string>)
    requires Alike(a, b) && forall l :: l in a ==> !MarkedLine(l)
    ensures forall l :: l in b ==> !MarkedLine(l)
  {
    forall l | l in b ensures !MarkedLine(l) {
      var i :| 0 <= i < |b| && b[i] == l;
      AlikeLine(a[i], b[i]);
      assert a[i] in a;
    }
  }

  // ---- Removal, on any text ----

  /** A removal only ever keeps lines of the input. */
  lemma KeptNoNewlines(ls: seq<string>, p: Block -> bool)
    requires NoNewlines(ls)
    ensures NoNewlines(Remove(ls, p))
  {
    KeptLines(ls, p);
    var kept := Remove(ls, p);
    forall i | 0 <= i < |kept| ensures '\n' !in kept[i] {
      assert kept[i] in ls;
    }
  }

  /** When every marked line lies in a hook block, the parser finds nothing installed in the text
      the removal leaves. */
  lemma RemovedMeansNotInstalled(content: string)
    requires MarkedOnlyInHooks(Lines(content))
    ensures Installed(Sections(Lines(Join(Remove(Lines(content), Ours))))) == []
  {
    var kept := Remove(Lines(content), Ours);
    RemovalClearsMarkedLines(Lines(content));
    LinesHaveNoNewlines(content);
    KeptNoNewlines(Lines(content), Ours);
    LinesOfJoinAlike(kept);
    var ls := Lines(Join(kept));
    assert forall l :: l in DropTrailingBlank(kept) ==> l in kept;
    UnmarkedCarry(DropTrailingBlank(kept), ls);
    hide Lines, Join, Remove, MarkedLine, Sections, Installed;
    SectionLines(ls);
    NothingInstalled(Sections(ls));
  }
}
