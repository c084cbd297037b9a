/** Which events the Kimi file has installed, said on its lines (crates/core/src/hook_status.rs). */
module KimiSections {
  import opened Common
  import opened Text
  import opened KimiBlocks
  import opened KimiHooks
  import opened KimiInstalled
  import opened KimiPositions

  /** A line at which the parser forgets what it has read: a hook header, or any other header. */
  predicate StartsAfresh(l: string) {
    Trim(l) == "[[hooks]]" || (Trim(l) != "" && Trim(l)[0] == '[' && !("[[hooks]]" <= Trim(l)))
  }

  predicate RunsOurs(l: string) {
    "command = " <= Trim(l) && Contains(Trim(l), "agent-aspect-hook")
  }

  /** Nothing is forgotten between the two lines. */
  predicate SameSection(ls: seq<string>, i: int, j: int) {
    && 0 <= i < |ls| && 0 <= j < |ls|
    && (forall k :: i < k <= j ==> !StartsAfresh(ls[k])) && (forall k :: j < k <= i ==> !StartsAfresh(ls[k]))
  }

  /** Line `r` is the last one of its section that names an event, it names `e`, and line `q` of the section runs our
      hook. */
  ghost predicate InstalledAt(ls: seq<string>, r: int, q: int, e: string) {
    && SameSection(ls, r, q) && EventOf(ls[r]) == Some(e) && RunsOurs(ls[q])
    && forall s :: r < s < |ls| && SameSection(ls, r, s) ==> EventOf(ls[s]) == None
  }

  // ---- Sections by place ----

  predicate Sectioned(bs: seq<Block>) {
    && (forall k :: 0 <= k < |bs| ==> bs[k] != [])
    && (forall k :: 0 < k < |bs| ==> StartsAfresh(bs[k][0]))
    && (forall k, j :: 0 <= k < |bs| && 0 < j < |bs[k]| ==> !StartsAfresh(bs[k][j]))
  }

  lemma HeaderIs(l: string)
    ensures ParserHeader(l) <==> StartsAfresh(l)
    ensures MarkedCommand(l) <==> RunsOurs(l)
  {
    var t := Trim(l);
    assert "[" <= t <==> t != "" && t[0] == '[';
    hide Trim, Contains;
  }

  lemma AddLineSectioned(bs: seq<Block>, l: string)
    requires Sectioned(bs)
    ensures Sectioned(AddLine(bs, l, StartsAfresh(l)))
  {
    hide StartsAfresh;
  }

  lemma {:induction false} SectionsCut(ls: seq<string>)
    ensures Sectioned(Sections(ls)) && Flatten(Sections(ls)) == ls
  {
    hide *;
    if ls == [] {
      NoSections();
    } else {
      var front, l := ls[..|ls| - 1], ls[|ls| - 1];
      SectionsCut(front);
      HeaderIs(l);
      LastSection(ls);
      AddLineFlatten(Sections(front), l, StartsAfresh(l));
      AddLineSectioned(Sections(front), l);
      assert front + [l] == ls;
    }
  }

  lemma NoSections()
    ensures Sectioned(Sections([])) && Flatten(Sections([])) == []
  {
  }

  lemma LastSection(ls: seq<string>)
    requires ls != []
    ensures Sections(ls) == AddLine(Sections(ls[..|ls| - 1]), ls[|ls| - 1], ParserHeader(ls[|ls| - 1]))
  {
    hide AddLine, ParserHeader;
  }

  lemma LineOfBlock(bs: seq<Block>, ls: seq<string>, k: nat, i: int)
    requires Flatten(bs) == ls && InBlock(bs, k, i)
    ensures 0 <= i < |ls| && ls[i] == bs[k][i - StartOf(bs, k)]
  {
    BlockLines(bs, k);
    var j := i - StartOf(bs, k);
    assert ls[StartOf(bs, k) + j] == bs[k][j];
  }

  /** Two lines are in one section exactly when they are in one block. */
  lemma OneSection(bs: seq<Block>, ls: seq<string>, k: nat, l: nat, i: int, j: int)
    requires Flatten(bs) == ls && Sectioned(bs) && InBlock(bs, k, i) && InBlock(bs, l, j)
    ensures SameSection(ls, i, j) <==> k == l
  {
    hide Flatten, StartsAfresh, StartOf;
    LineOfBlock(bs, ls, k, i);
    LineOfBlock(bs, ls, l, j);
    if k == l {
      forall m | i < m <= j || j < m <= i ensures !StartsAfresh(ls[m]) {
        LineOfBlock(bs, ls, k, m);
      }
    } else if k < l {
      Between(bs, ls, k, l, i, j);
    } else {
      Between(bs, ls, l, k, j, i);
    }
  }

  lemma Between(bs: seq<Block>, ls: seq<string>, k: nat, l: nat, i: int, j: int)
    requires Flatten(bs) == ls && Sectioned(bs) && InBlock(bs, k, i) && InBlock(bs, l, j) && k < l
    ensures i < StartOf(bs, l) <= j < |ls| && StartsAfresh(ls[StartOf(bs, l)])
  {
    hide Flatten, StartsAfresh, StartOf;
    BlocksInOrder(bs, k, l);
    LineOfBlock(bs, ls, l, j);
    LineOfBlock(bs, ls, l, StartOf(bs, l));
  }

  lemma {:induction false} InstalledMeans(bs: seq<Block>, e: string)
    ensures e in Installed(bs) <==> exists b :: b in bs && HasMarkedCommand(b) && LastEvent(b) == Some(e)
  {
    if bs != [] {
      var front, b := bs[..|bs| - 1], bs[|bs| - 1];
      InstalledMeans(front, e);
      assert bs == front + [b];
      hide HasMarkedCommand, LastEvent;
    }
  }

  lemma MarkedAt(b: Block)
    ensures HasMarkedCommand(b) <==> exists j :: 0 <= j < |b| && RunsOurs(b[j])
  {
    hide RunsOurs, MarkedCommand;
    forall l ensures MarkedCommand(l) <==> RunsOurs(l) {
      HeaderIs(l);
    }
    assert forall j :: 0 <= j < |b| ==> b[j] in b;
  }

  /** A block that names the event last and runs our hook, as two lines of the file. */
  lemma BlockIsInstalled(bs: seq<Block>, ls: seq<string>, k: nat, e: string) returns (r: int, q: int)
    requires Flatten(bs) == ls && Sectioned(bs) && k < |bs| && HasMarkedCommand(bs[k]) && LastEvent(bs[k]) == Some(e)
    ensures InstalledAt(ls, r, q, e)
  {
    hide *;
    var i, j := TwoLines(bs[k], e);
    r, q := StartOf(bs, k) + i, StartOf(bs, k) + j;
    NoneNamedLater(bs, ls, k, i);
    InBlockAt(bs, k, i);
    InBlockAt(bs, k, j);
    LineOfBlock(bs, ls, k, r);
    LineOfBlock(bs, ls, k, q);
    OneSection(bs, ls, k, k, r, q);
    IsInstalledAt(ls, r, q, e);
  }

  lemma TwoLines(b: Block, e: string) returns (i: nat, j: nat)
    requires HasMarkedCommand(b) && LastEvent(b) == Some(e)
    ensures i < |b| && EventOf(b[i]) == Some(e) && forall m :: i < m < |b| ==> EventOf(b[m]) == None
    ensures j < |b| && RunsOurs(b[j])
  {
    hide *;
    MarkedAt(b);
    LastEventAt(b, e);
    j :| j < |b| && RunsOurs(b[j]);
    i :| i < |b| && EventOf(b[i]) == Some(e) && forall m :: i < m < |b| ==> EventOf(b[m]) == None;
  }

  lemma NoneNamedLater(bs: seq<Block>, ls: seq<string>, k: nat, i: int)
    requires Flatten(bs) == ls && Sectioned(bs) && k < |bs| && 0 <= i < |bs[k]|
    requires forall m :: i < m < |bs[k]| ==> EventOf(bs[k][m]) == None
    ensures var r := StartOf(bs, k) + i;
            forall s :: r < s < |ls| && SameSection(ls, r, s) ==> EventOf(ls[s]) == None
  {
    hide *;
    var r := StartOf(bs, k) + i;
    InBlockAt(bs, k, i);
    forall s | r < s < |ls| && SameSection(ls, r, s) ensures EventOf(ls[s]) == None {
      var l := SomeBlock(bs, s);
      OneSection(bs, ls, k, l, r, s);
      LineOfBlock(bs, ls, k, s);
      InBlockMeans(bs, k, s);
    }
  }

  lemma InBlockAt(bs: seq<Block>, k: nat, i: int)
    requires k < |bs| && 0 <= i < |bs[k]|
    ensures InBlock(bs, k, StartOf(bs, k) + i)
  {
  }

  lemma InBlockMeans(bs: seq<Block>, k: nat, i: int)
    requires InBlock(bs, k, i)
    ensures k < |bs| && 0 <= i - StartOf(bs, k) < |bs[k]|
  {
  }

  lemma IsInstalledAt(ls: seq<string>, r: int, q: int, e: string)
    requires SameSection(ls, r, q) && 0 <= r < |ls| && 0 <= q < |ls| && EventOf(ls[r]) == Some(e) && RunsOurs(ls[q])
    requires forall s :: r < s < |ls| && SameSection(ls, r, s) ==> EventOf(ls[s]) == None
    ensures InstalledAt(ls, r, q, e)
  {
  }

  lemma InstalledInBlock(bs: seq<Block>, ls: seq<string>, r: int, q: int, e: string) returns (k: nat)
    requires Flatten(bs) == ls && Sectioned(bs) && InstalledAt(ls, r, q, e)
    ensures k < |bs| && HasMarkedCommand(bs[k]) && LastEvent(bs[k]) == Some(e)
  {
    hide Flatten, StartsAfresh, StartOf, EventOf, RunsOurs, HasMarkedCommand, LastEvent, Sectioned, SameSection,
         InBlock;
    SectionLines(ls, r, q);
    k := SomeBlock(bs, r);
    var l := SomeBlock(bs, q);
    OneSection(bs, ls, k, l, r, q);
    LineOfBlock(bs, ls, k, r);
    LineOfBlock(bs, ls, k, q);
    InBlockMeans(bs, k, r);
    InBlockMeans(bs, k, q);
    var b, start := bs[k], StartOf(bs, k);
    MarkedAt(b);
    LastEventAt(b, e);
    assert RunsOurs(b[q - start]);
    var i := r - start;
    forall m | i < m < |b| ensures EventOf(b[m]) == None {
      InBlockAt(bs, k, m);
      LineOfBlock(bs, ls, k, start + m);
      OneSection(bs, ls, k, k, r, start + m);
    }
  }

  lemma SectionLines(ls: seq<string>, r: int, q: int)
    requires SameSection(ls, r, q)
    ensures 0 <= r < |ls| && 0 <= q < |ls|
  {
  }

  /** An event is installed exactly when some section names it last and runs our hook. */
  lemma InstalledByPosition(ls: seq<string>, e: string)
    ensures e in Installed(Sections(ls)) <==> exists r, q :: InstalledAt(ls, r, q, e)
  {
    hide *;
    var bs := Sections(ls);
    SectionsCut(ls);
    InstalledMeans(bs, e);
    if e in Installed(bs) {
      var b :| b in bs && HasMarkedCommand(b) && LastEvent(b) == Some(e);
      var k :| 0 <= k < |bs| && bs[k] == b;
      var r, q := BlockIsInstalled(bs, ls, k, e);
    }
    if exists r, q :: InstalledAt(ls, r, q, e) {
      var r, q :| InstalledAt(ls, r, q, e);
      var k := InstalledInBlock(bs, ls, r, q, e);
      assert bs[k] in bs;
    }
  }
}
