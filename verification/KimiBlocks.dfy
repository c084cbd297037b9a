/** Blocks of a line-oriented configuration file: what both Kimi hook removers and the Kimi parser
    are about (crates/core/src/hook_status.rs). */
module KimiBlocks {
  import opened Text

  type Block = seq<string>

  const HOOKS_HEADER := "[[hooks]]"

  predicate IsHookHeader(l: string) {
    Trim(l) == HOOKS_HEADER
  }

  predicate IsHeader(l: string) {
    "[" <= Trim(l)
  }

  predicate IsHookBlock(b: Block) {
    b != [] && IsHookHeader(b[0])
  }

  lemma HookHeaderIsHeader(l: string)
    requires IsHookHeader(l)
    ensures IsHeader(l)
  {
  }

  // ---- Splitting ----

  /** One more line: a header starts a new block, any other line joins the last one. */
  function AddLine(bs: seq<Block>, l: string, header: bool): seq<Block> {
    if header || bs == [] then bs + [[l]] else bs[..|bs| - 1] + [bs[|bs| - 1] + [l]]
  }

  /** The blocks of a file, split in front of every header line. */
  function Blocks(ls: seq<string>): seq<Block> {
    if ls == [] then []
    else AddLine(Blocks(ls[..|ls| - 1]), ls[|ls| - 1], IsHeader(ls[|ls| - 1]))
  }

  function Flatten(bs: seq<Block>): seq<string> {
    if bs == [] then [] else Flatten(bs[..|bs| - 1]) + bs[|bs| - 1]
  }

  /** Blocks as a split produces them: none empty, headers only in front, and only the first may lack one. */
  predicate WellSplit(bs: seq<Block>) {
    && (forall k :: 0 <= k < |bs| ==> bs[k] != [])
    && (forall k :: 0 < k < |bs| ==> IsHeader(bs[k][0]))
    && (forall k, j :: 0 <= k < |bs| && 0 < j < |bs[k]| ==> !IsHeader(bs[k][j]))
  }

  lemma {:induction false} BlocksWellSplit(ls: seq<string>)
    ensures WellSplit(Blocks(ls)) && Flatten(Blocks(ls)) == ls
  {
    hide *;
    if ls == [] {
      NoBlocks();
    } else {
      var front, l := ls[..|ls| - 1], ls[|ls| - 1];
      BlocksWellSplit(front);
      assert front + [l] == ls;
      BlocksSnoc(front, l);
      AddLineFlatten(Blocks(front), l, IsHeader(l));
      AddLineWellSplit(Blocks(front), l);
    }
  }

  lemma NoBlocks()
    ensures WellSplit(Blocks([])) && Flatten(Blocks([])) == []
  {
  }

  lemma AddLineWellSplit(bs: seq<Block>, l: string)
    requires WellSplit(bs)
    ensures WellSplit(AddLine(bs, l, IsHeader(l)))
  {
  }

  lemma AddLineFlatten(bs: seq<Block>, l: string, header: bool)
    ensures Flatten(AddLine(bs, l, header)) == Flatten(bs) + [l]
  {
    var r := AddLine(bs, l, header);
    assert r[..|r| - 1] == if header || bs == [] then bs else bs[..|bs| - 1];
  }

  /** Splitting is the only way to cut a text into well-split blocks. */
  lemma {:induction false} BlocksOfFlatten(bs: seq<Block>)
    requires WellSplit(bs)
    ensures Blocks(Flatten(bs)) == bs
    decreases |Flatten(bs)|
  {
    if bs != [] {
      var shorter, l := WithoutLastLine(bs);
      FlattenSnoc(shorter, l, bs);
      BlocksOfFlatten(shorter);
      BlocksSnoc(Flatten(shorter), l);
    }
  }

  lemma BlocksSnoc(ls: seq<string>, l: string)
    ensures Blocks(ls + [l]) == AddLine(Blocks(ls), l, IsHeader(l))
  {
    assert (ls + [l])[..|ls|] == ls;
  }

  lemma FlattenSnoc(shorter: seq<Block>, l: string, bs: seq<Block>)
    requires AddLine(shorter, l, IsHeader(l)) == bs
    ensures Flatten(bs) == Flatten(shorter) + [l]
  {
    AddLineFlatten(shorter, l, IsHeader(l));
  }

  /** The last line of a well-split text is what `AddLine` put there. */
  lemma WithoutLastLine(bs: seq<Block>) returns (shorter: seq<Block>, l: string)
    requires WellSplit(bs) && bs != []
    ensures WellSplit(shorter) && AddLine(shorter, l, IsHeader(l)) == bs
  {
    var front, last := bs[..|bs| - 1], bs[|bs| - 1];
    l := last[|last| - 1];
    if |last| == 1 {
      shorter := front;
      assert last == [l];
      assert front + [last] == bs;
    } else {
      shorter := front + [last[..|last| - 1]];
      assert last[..|last| - 1] + [l] == last;
      ShorterLast(bs, front, last, shorter);
    }
  }

  lemma ShorterLast(bs: seq<Block>, front: seq<Block>, last: Block, shorter: seq<Block>)
    requires WellSplit(bs) && bs == front + [last] && |last| > 1 && shorter == front + [last[..|last| - 1]]
    ensures WellSplit(shorter) && shorter[..|front|] == front && !IsHeader(last[|last| - 1])
  {
    hide IsHeader;
    assert bs[|front|] == last;
    forall i | 0 <= i < |front| ensures shorter[i] == bs[i] {
    }
  }

  // ---- Dropping hook blocks ----

  /** The blocks that stay when hook blocks meeting `p` are dropped. */
  function Keep(bs: seq<Block>, p: Block -> bool): seq<Block> {
    if bs == [] then []
    else
      var b := bs[|bs| - 1];
      Keep(bs[..|bs| - 1], p) + (if IsHookBlock(b) && p(b) then [] else [b])
  }

  /** Drop exactly the hook blocks meeting `p`; keep every other line in order. */
  function Remove(ls: seq<string>, p: Block -> bool): seq<string> {
    Flatten(Keep(Blocks(ls), p))
  }

  lemma {:induction false} KeepMembers(bs: seq<Block>, p: Block -> bool)
    ensures forall b :: b in Keep(bs, p) <==> b in bs && !(IsHookBlock(b) && p(b))
  {
    if bs != [] {
      KeepMembers(bs[..|bs| - 1], p);
      assert bs == bs[..|bs| - 1] + [bs[|bs| - 1]];
    }
  }

  lemma {:induction false} KeepWellSplit(bs: seq<Block>, p: Block -> bool)
    requires WellSplit(bs)
    ensures WellSplit(Keep(bs, p))
    ensures bs != [] && !IsHookBlock(bs[0]) ==> Keep(bs, p) != [] && Keep(bs, p)[0] == bs[0]
    ensures forall k :: 0 <= k < |Keep(bs, p)| && !(k == 0 && bs != [] && Keep(bs, p)[0] == bs[0]) ==>
              IsHeader(Keep(bs, p)[k][0])
  {
    if bs != [] {
      var front, b := bs[..|bs| - 1], bs[|bs| - 1];
      KeepWellSplit(front, p);
      if IsHookBlock(b) {
        HookHeaderIsHeader(b[0]);
      }
    }
  }

  function Either(p: Block -> bool, q: Block -> bool): Block -> bool {
    b => p(b) || q(b)
  }

  lemma {:induction false} KeepTwice(bs: seq<Block>, p: Block -> bool, q: Block -> bool)
    ensures Keep(Keep(bs, p), q) == Keep(bs, Either(p, q))
  {
    if bs != [] {
      var front, b := bs[..|bs| - 1], bs[|bs| - 1];
      KeepTwice(front, p, q);
      if IsHookBlock(b) && p(b) {
        KeepDropped(bs, p);
        KeepDropped(bs, Either(p, q));
      } else {
        KeepSnoc(Keep(front, p), b, q);
      }
    }
  }

  lemma KeepDropped(bs: seq<Block>, p: Block -> bool)
    requires bs != [] && IsHookBlock(bs[|bs| - 1]) && p(bs[|bs| - 1])
    ensures Keep(bs, p) == Keep(bs[..|bs| - 1], p)
  {
  }

  lemma KeepSnoc(bs: seq<Block>, b: Block, p: Block -> bool)
    ensures Keep(bs + [b], p) == Keep(bs, p) + (if IsHookBlock(b) && p(b) then [] else [b])
  {
    assert (bs + [b])[..|bs|] == bs;
  }

  lemma {:induction false} KeepSame(bs: seq<Block>, p: Block -> bool, q: Block -> bool)
    requires forall b :: b in bs && IsHookBlock(b) ==> p(b) == q(b)
    ensures Keep(bs, p) == Keep(bs, q)
  {
    if bs != [] {
      KeepSame(bs[..|bs| - 1], p, q);
    }
  }

  lemma {:induction false} KeepAll(bs: seq<Block>, p: Block -> bool)
    requires forall b :: b in bs && IsHookBlock(b) ==> !p(b)
    ensures Keep(bs, p) == bs
  {
    if bs != [] {
      KeepAll(bs[..|bs| - 1], p);
    }
  }

  /** Two removals are one removal by either predicate. */
  lemma RemoveTwice(ls: seq<string>, p: Block -> bool, q: Block -> bool)
    ensures Remove(Remove(ls, p), q) == Remove(ls, Either(p, q))
  {
    BlocksWellSplit(ls);
    KeepWellSplit(Blocks(ls), p);
    BlocksOfFlatten(Keep(Blocks(ls), p));
    KeepTwice(Blocks(ls), p, q);
  }

  /** A removal is idempotent on lines. */
  lemma RemoveIdempotent(ls: seq<string>, p: Block -> bool)
    ensures Remove(Remove(ls, p), p) == Remove(ls, p)
  {
    RemoveTwice(ls, p, p);
    KeepSame(Blocks(ls), p, Either(p, p));
  }

  /** Removals commute. */
  lemma RemovalsCommute(ls: seq<string>, p: Block -> bool, q: Block -> bool)
    ensures Remove(Remove(ls, p), q) == Remove(Remove(ls, q), p)
  {
    RemoveTwice(ls, p, q);
    RemoveTwice(ls, q, p);
    KeepSame(Blocks(ls), Either(p, q), Either(q, p));
  }
}
