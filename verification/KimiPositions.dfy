/** Which lines a removal keeps, said of the lines alone: by where section headers, hook headers and marks stand
    (crates/core/src/hook_status.rs). */
module KimiPositions {
  import opened Common
  import opened Text
  import opened Positions
  import opened KimiBlocks
  import opened KimiHooks
  import opened KimiAppend

  // ---- The lines ----

  predicate OpensSection(l: string) {
    Trim(l) != "" && Trim(l)[0] == '['
  }

  predicate OpensHook(l: string) {
    Trim(l) == "[[hooks]]"
  }

  /** A line of the hook section that opens at line `h`. */
  predicate InHookAt(ls: seq<string>, h: int, r: int) {
    0 <= h <= r < |ls| && OpensHook(ls[h]) && forall j :: h < j <= r ==> !OpensSection(ls[j])
  }

  /** Line `r` is in a hook section that has a line with the mark. */
  ghost predicate InMarkedHook(ls: seq<string>, r: int, mark: string -> bool) {
    exists h, q :: InHookAt(ls, h, r) && InHookAt(ls, h, q) && mark(ls[q])
  }

  /** A block that has such a line. */
  ghost predicate IsMarked(b: Block, mark: string -> bool) {
    exists j :: 0 <= j < |b| && mark(b[j])
  }

  ghost predicate MeansMarked(p: Block -> bool, mark: string -> bool) {
    forall b: Block :: p(b) <==> IsMarked(b, mark)
  }

  lemma SectionLine(l: string)
    ensures OpensSection(l) <==> IsHeader(l)
    ensures OpensHook(l) <==> IsHookHeader(l)
    ensures OpensHook(l) ==> OpensSection(l)
  {
  }

  // ---- Positions of blocks ----

  /** Where block `k` starts. */
  function StartOf(bs: seq<Block>, k: nat): nat
    requires k <= |bs|
  {
    |Flatten(bs[..k])|
  }

  predicate InBlock(bs: seq<Block>, k: int, r: int) {
    0 <= k < |bs| && StartOf(bs, k) <= r < StartOf(bs, k) + |bs[k]|
  }

  lemma FlattenSplit(bs: seq<Block>, k: nat)
    requires k < |bs|
    ensures Flatten(bs[..k + 1]) == Flatten(bs[..k]) + bs[k]
    ensures StartOf(bs, k + 1) == StartOf(bs, k) + |bs[k]|
  {
    assert bs[..k + 1][..k] == bs[..k];
  }

  lemma {:induction false} BlockLines(bs: seq<Block>, k: nat)
    requires k < |bs|
    ensures StartOf(bs, k) + |bs[k]| <= |Flatten(bs)|
    ensures forall j :: 0 <= j < |bs[k]| ==> Flatten(bs)[StartOf(bs, k) + j] == bs[k][j]
    decreases |bs|
  {
    var front, b := bs[..|bs| - 1], bs[|bs| - 1];
    if k < |front| {
      BlockLines(front, k);
      assert front[..k] == bs[..k];
    }
  }

  lemma {:induction false} SomeBlock(bs: seq<Block>, r: nat) returns (k: nat)
    requires r < |Flatten(bs)|
    ensures InBlock(bs, k, r)
  {
    var front := bs[..|bs| - 1];
    if r < |Flatten(front)| {
      k := SomeBlock(front, r);
      assert front[..k] == bs[..k];
    } else {
      k := |front|;
    }
  }

  function Upto(from: int, n: nat): seq<int> {
    seq(n, i => from + i)
  }

  lemma UptoMembers(from: int, n: nat)
    ensures forall i :: i in Upto(from, n) <==> from <= i < from + n
  {
    forall i | from <= i < from + n ensures i in Upto(from, n) {
      assert Upto(from, n)[i - from] == i;
    }
  }

  /** The positions of the lines that stay. */
  function Staying(bs: seq<Block>, p: Block -> bool): seq<int> {
    if bs == [] then []
    else
      var front, b := bs[..|bs| - 1], bs[|bs| - 1];
      Staying(front, p) + (if Dropped(b, p) then [] else Upto(|Flatten(front)|, |b|))
  }

  lemma StayingLast(bs: seq<Block>, p: Block -> bool)
    requires bs != []
    ensures var front, b := bs[..|bs| - 1], bs[|bs| - 1];
            && Staying(bs, p) == Staying(front, p) + (if Dropped(b, p) then [] else Upto(|Flatten(front)|, |b|))
            && Flatten(bs) == Flatten(front) + b
  {
  }

  lemma {:induction false} StayingPicks(bs: seq<Block>, p: Block -> bool)
    ensures Picks(Flatten(bs), Staying(bs, p), Flatten(Keep(bs, p)))
  {
    hide *;
    if bs == [] {
      NothingStays(p);
    } else {
      var front, b := bs[..|bs| - 1], bs[|bs| - 1];
      StayingPicks(front, p);
      StayingLast(bs, p);
      KeepLast(bs, p);
      var dropped := IsHookBlock(b) && p(b);
      DroppedMeans(b, p);
      PickMore(Flatten(front), Staying(front, p), Flatten(Keep(front, p)), b, dropped);
    }
  }

  lemma DroppedMeans(b: Block, p: Block -> bool)
    ensures Dropped(b, p) <==> IsHookBlock(b) && p(b)
  {
  }

  lemma NothingStays(p: Block -> bool)
    ensures Picks(Flatten([]), Staying([], p), Flatten(Keep([], p)))
  {
  }

  lemma PickMore(ls: seq<string>, at: seq<int>, kept: seq<string>, b: seq<string>, dropped: bool)
    requires Picks(ls, at, kept)
    ensures Picks(ls + b, at + (if dropped then [] else Upto(|ls|, |b|)), kept + (if dropped then [] else b))
  {
    if dropped {
      assert at + [] == at && kept + [] == kept;
    }
  }

  lemma {:induction false} StayingMembers(bs: seq<Block>, p: Block -> bool, k: nat, r: int)
    requires InBlock(bs, k, r)
    ensures r in Staying(bs, p) <==> !Dropped(bs[k], p)
  {
    var front, b := bs[..|bs| - 1], bs[|bs| - 1];
    var last := Upto(|Flatten(front)|, |b|);
    StayingBound(front, p);
    UptoMembers(|Flatten(front)|, |b|);
    if k < |front| {
      assert front[..k] == bs[..k];
      StayingMembers(front, p, k, r);
      BlockLines(front, k);
    }
  }

  lemma {:induction false} StayingBound(bs: seq<Block>, p: Block -> bool)
    ensures forall r :: r in Staying(bs, p) ==> 0 <= r < |Flatten(bs)|
  {
    StayingPicks(bs, p);
    hide Staying, Flatten, Keep;
    forall r | r in Staying(bs, p) ensures 0 <= r < |Flatten(bs)| {
      var m :| 0 <= m < |Staying(bs, p)| && Staying(bs, p)[m] == r;
    }
  }

  // ---- Blocks by their headers ----

  lemma {:induction false} BlocksInOrder(bs: seq<Block>, i: nat, k: nat)
    requires i < k <= |bs|
    ensures StartOf(bs, i) + |bs[i]| <= StartOf(bs, k)
    decreases k - i
  {
    if i + 1 == k {
      FlattenSplit(bs, i);
    } else {
      BlocksInOrder(bs, i, k - 1);
      FlattenSplit(bs, k - 1);
    }
  }

  lemma SectionStartsBlock(ls: seq<string>, k: nat, h: int, r: int)
    requires InBlock(Blocks(ls), k, r) && InHookAt(ls, h, r)
    ensures h == StartOf(Blocks(ls), k)
  {
    var bs := Blocks(ls);
    BlocksWellSplit(ls);
    BlockLines(bs, k);
    assert ls[StartOf(bs, k)] == bs[k][0];
    hide Blocks, Flatten, StartOf, IsHeader, IsHookHeader, OpensSection, OpensHook;
    SectionLine(ls[h]);
    SectionLine(bs[k][0]);
    var i := SomeBlock(bs, h);
    BlockLines(bs, i);
    assert ls[h] == bs[i][h - StartOf(bs, i)];
    assert h == StartOf(bs, i);
    if i < k {
      BlocksInOrder(bs, i, k);
    } else if k < i {
      BlocksInOrder(bs, k, i);
    }
  }

  lemma HookSectionIsBlock(ls: seq<string>, k: nat, h: int, r: int)
    requires InBlock(Blocks(ls), k, r)
    ensures InHookAt(ls, h, r) <==> h == StartOf(Blocks(ls), k) && IsHookBlock(Blocks(ls)[k])
  {
    var bs := Blocks(ls);
    BlocksWellSplit(ls);
    BlockLines(bs, k);
    var start := StartOf(bs, k);
    assert ls[start] == bs[k][0];
    hide Blocks, Flatten, StartOf, IsHeader, IsHookHeader, OpensSection, OpensHook;
    forall l ensures (OpensSection(l) <==> IsHeader(l)) && (OpensHook(l) <==> IsHookHeader(l))
                     && (OpensHook(l) ==> OpensSection(l)) {
      SectionLine(l);
    }
    if InHookAt(ls, h, r) {
      SectionStartsBlock(ls, k, h, r);
    }
    if h == start && IsHookBlock(bs[k]) {
      forall j | h < j <= r ensures !OpensSection(ls[j]) {
        assert ls[j] == bs[k][j - start];
      }
    }
  }

  lemma MarkInSection(ls: seq<string>, k: nat, h: int, r: int, q: int)
    requires InBlock(Blocks(ls), k, r) && InHookAt(ls, h, r) && InHookAt(ls, h, q)
    ensures IsHookBlock(Blocks(ls)[k]) && InBlock(Blocks(ls), k, q)
    ensures ls[q] == Blocks(ls)[k][q - StartOf(Blocks(ls), k)]
  {
    hide Blocks, Flatten, StartOf, InHookAt, IsHookBlock, WellSplit;
    var bs := Blocks(ls);
    BlocksWellSplit(ls);
    InHookIsLine(ls, h, q);
    HookSectionIsBlock(ls, k, h, r);
    var i := SomeBlock(bs, q);
    HookSectionIsBlock(ls, i, h, q);
    SameStart(bs, i, k);
    BlockLines(bs, i);
  }

  lemma BlockIsSection(ls: seq<string>, k: nat, r: int, j: nat)
    requires InBlock(Blocks(ls), k, r) && IsHookBlock(Blocks(ls)[k]) && j < |Blocks(ls)[k]|
    ensures var start := StartOf(Blocks(ls), k);
            && InHookAt(ls, start, r) && InHookAt(ls, start, start + j)
            && start + j < |ls| && ls[start + j] == Blocks(ls)[k][j]
  {
    hide Blocks, Flatten, StartOf, InHookAt, IsHookBlock, WellSplit;
    var bs := Blocks(ls);
    BlocksWellSplit(ls);
    BlockLines(bs, k);
    var start := StartOf(bs, k);
    assert InBlock(bs, k, start + j);
    HookSectionIsBlock(ls, k, start, r);
    HookSectionIsBlock(ls, k, start, start + j);
  }

  lemma MarkedHookIsBlock(ls: seq<string>, k: nat, r: int, p: Block -> bool, mark: string -> bool)
    requires InBlock(Blocks(ls), k, r) && MeansMarked(p, mark)
    ensures InMarkedHook(ls, r, mark) <==> Dropped(Blocks(ls)[k], p)
  {
    var b := Blocks(ls)[k];
    hide Blocks, Flatten, StartOf, InHookAt, IsHookBlock;
    if InMarkedHook(ls, r, mark) {
      var h, q :| InHookAt(ls, h, r) && InHookAt(ls, h, q) && mark(ls[q]);
      MarkInSection(ls, k, h, r, q);
      assert mark(b[q - StartOf(Blocks(ls), k)]);
      assert IsMarked(b, mark);
    }
    if Dropped(b, p) {
      assert IsMarked(b, mark);
      var j :| 0 <= j < |b| && mark(b[j]);
      BlockIsSection(ls, k, r, j);
    }
  }

  lemma InHookIsLine(ls: seq<string>, h: int, q: int)
    requires InHookAt(ls, h, q)
    ensures 0 <= h <= q < |ls|
  {
  }

  lemma SameStart(bs: seq<Block>, i: nat, k: nat)
    requires WellSplit(bs) && i < |bs| && k < |bs| && StartOf(bs, i) == StartOf(bs, k)
    ensures i == k
  {
    if i < k {
      BlocksInOrder(bs, i, k);
    } else if k < i {
      BlocksInOrder(bs, k, i);
    }
  }

  /** A removal keeps, in order, exactly the lines that are in no hook section with the mark. */
  lemma RemoveByPosition(ls: seq<string>, p: Block -> bool, mark: string -> bool) returns (at: seq<int>)
    requires MeansMarked(p, mark)
    ensures Picks(ls, at, Remove(ls, p))
    ensures forall r :: 0 <= r < |ls| ==> (r in at <==> !InMarkedHook(ls, r, mark))
  {
    var bs := Blocks(ls);
    at := Staying(bs, p);
    StayingPicks(bs, p);
    BlocksWellSplit(ls);
    hide Staying, Picks, InMarkedHook, Dropped, InBlock, MeansMarked;
    forall r | 0 <= r < |ls| ensures r in at <==> !InMarkedHook(ls, r, mark) {
      var k := SomeBlock(bs, r);
      StayingMembers(bs, p, k, r);
      MarkedHookIsBlock(ls, k, r, p, mark);
    }
  }

  // ---- Which events a removal reports ----

  /** Line `r` is the last one of its hook section that names an event, and it names `e`. */
  ghost predicate NamesLast(ls: seq<string>, h: int, r: int, e: string) {
    && InHookAt(ls, h, r) && EventOf(ls[r]) == Some(e)
    && forall q :: r < q < |ls| && InHookAt(ls, h, q) ==> EventOf(ls[q]) == None
  }

  lemma {:induction false} LastEventAt(b: Block, e: string)
    ensures LastEvent(b) == Some(e)
            <==> exists j :: 0 <= j < |b| && EventOf(b[j]) == Some(e)
                             && forall i :: j < i < |b| ==> EventOf(b[i]) == None
  {
    if b != [] {
      var front, l := b[..|b| - 1], b[|b| - 1];
      LastEventAt(front, e);
      assert front + [l] == b;
      LastEventSnoc(front, l);
      hide EventOf, LastEvent;
      assert forall i :: 0 <= i < |front| ==> b[i] == front[i];
    }
  }

  predicate Reports(b: Block, p: Block -> bool, e: string) {
    Dropped(b, p) && LastEvent(b) == Some(e)
  }

  lemma ReportedSnoc(before: seq<string>, b: Block, p: Block -> bool, e: string)
    ensures e in before + (if IsHookBlock(b) && p(b) then Listed(LastEvent(b)) else [])
            <==> e in before || Reports(b, p, e)
  {
    hide LastEvent, IsHookBlock;
  }

  lemma RemovedSnoc(bs: seq<Block>, p: Block -> bool)
    requires bs != []
    ensures var front, b := bs[..|bs| - 1], bs[|bs| - 1];
            RemovedEvents(bs, p)
            == RemovedEvents(front, p) + (if IsHookBlock(b) && p(b) then Listed(LastEvent(b)) else [])
  {
    hide Keep, LastEvent, IsHookBlock;
    KeepLast(bs, p);
    AppendNothing(RemovedEvents(bs[..|bs| - 1], p));
  }

  ghost predicate SomeReports(bs: seq<Block>, p: Block -> bool, e: string) {
    exists k :: 0 <= k < |bs| && Reports(bs[k], p, e)
  }

  lemma SomeReportsSnoc(bs: seq<Block>, p: Block -> bool, e: string)
    requires bs != []
    ensures var front, b := bs[..|bs| - 1], bs[|bs| - 1];
            SomeReports(bs, p, e) <==> SomeReports(front, p, e) || Reports(b, p, e)
  {
    hide Reports;
    var front := bs[..|bs| - 1];
    if SomeReports(bs, p, e) {
      var k :| 0 <= k < |bs| && Reports(bs[k], p, e);
      assert k < |front| ==> front[k] == bs[k];
    }
    if SomeReports(front, p, e) {
      var k :| 0 <= k < |front| && Reports(front[k], p, e);
      assert front[k] == bs[k];
    }
  }

  lemma {:induction false} ReportedOfBlock(bs: seq<Block>, p: Block -> bool, e: string)
    ensures e in RemovedEvents(bs, p) <==> SomeReports(bs, p, e)
  {
    if bs == [] {
      assert RemovedEvents(bs, p) == [];
    } else {
      var front, b := bs[..|bs| - 1], bs[|bs| - 1];
      ReportedOfBlock(front, p, e);
      hide *;
      RemovedSnoc(bs, p);
      ReportedSnoc(RemovedEvents(front, p), b, p, e);
      SomeReportsSnoc(bs, p, e);
    }
  }

  lemma BlockNamesLast(ls: seq<string>, k: nat, e: string)
    requires k < |Blocks(ls)| && IsHookBlock(Blocks(ls)[k]) && LastEvent(Blocks(ls)[k]) == Some(e)
    ensures exists r :: InBlock(Blocks(ls), k, r) && NamesLast(ls, StartOf(Blocks(ls), k), r, e)
  {
    hide Blocks, Flatten, StartOf, InHookAt, IsHookBlock, WellSplit, EventOf, LastEvent;
    var bs := Blocks(ls);
    var b, start := bs[k], StartOf(bs, k);
    LastEventAt(b, e);
    var j :| 0 <= j < |b| && EventOf(b[j]) == Some(e) && forall i :: j < i < |b| ==> EventOf(b[i]) == None;
    assert InBlock(bs, k, start + j);
    BlockIsSection(ls, k, start + j, j);
    forall q | start + j < q < |ls| && InHookAt(ls, start, q) ensures EventOf(ls[q]) == None {
      MarkInSection(ls, k, start, start + j, q);
    }
    InHookIsLine(ls, start, start + j);
    assert NamesLast(ls, start, start + j, e);
  }

  lemma NamesLastInBlock(ls: seq<string>, h: int, r: int, e: string) returns (k: nat)
    requires NamesLast(ls, h, r, e)
    ensures InBlock(Blocks(ls), k, r) && IsHookBlock(Blocks(ls)[k]) && LastEvent(Blocks(ls)[k]) == Some(e)
  {
    InHookIsLine(ls, h, r);
    hide Blocks, Flatten, StartOf, InHookAt, IsHookBlock, WellSplit, EventOf, LastEvent;
    var bs := Blocks(ls);
    BlocksWellSplit(ls);
    k := SomeBlock(bs, r);
    HookSectionIsBlock(ls, k, h, r);
    MarkInSection(ls, k, h, r, r);
    var b, start := bs[k], StartOf(bs, k);
    forall i | r - start < i < |b| ensures EventOf(b[i]) == None {
      BlockIsSection(ls, k, r, i);
    }
    LastEventAt(b, e);
  }

  /** A removal reports an event exactly when a dropped section names it last. */
  lemma ReportedByPosition(ls: seq<string>, p: Block -> bool, mark: string -> bool, e: string)
    requires MeansMarked(p, mark)
    ensures e in RemovedEvents(Blocks(ls), p)
            <==> exists h, r :: NamesLast(ls, h, r, e) && InMarkedHook(ls, r, mark)
  {
    hide Blocks, Flatten, StartOf, InHookAt, WellSplit, EventOf, LastEvent, RemovedEvents, NamesLast, InMarkedHook,
         MeansMarked;
    var bs := Blocks(ls);
    ReportedOfBlock(bs, p, e);
    if e in RemovedEvents(bs, p) {
      var k :| 0 <= k < |bs| && Reports(bs[k], p, e);
      BlockNamesLast(ls, k, e);
      var r :| InBlock(bs, k, r) && NamesLast(ls, StartOf(bs, k), r, e);
      MarkedHookIsBlock(ls, k, r, p, mark);
    }
    if exists h, r :: NamesLast(ls, h, r, e) && InMarkedHook(ls, r, mark) {
      var h, r :| NamesLast(ls, h, r, e) && InMarkedHook(ls, r, mark);
      var k := NamesLastInBlock(ls, h, r, e);
      MarkedHookIsBlock(ls, k, r, p, mark);
    }
  }
}
