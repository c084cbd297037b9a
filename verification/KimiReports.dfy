/** Which events an add and a remove report, said on the lines of the Kimi file
    (crates/core/src/hook_status.rs). */
module KimiReports {
  import opened Common
  import opened Text
  import opened Positions
  import opened LineEnds
  import opened KimiBlocks
  import opened KimiHooks
  import opened KimiAppend
  import opened KimiLineEnds
  import opened KimiReconcile
  import opened KimiRoundTrip
  import opened KimiPositions
  import opened KimiKept

  // ---- A remove ----

  /** Joining and splitting again changes no report. */
  lemma PassReports(ls: seq<string>, p: Block -> bool)
    requires NoNewlines(ls) && IgnoresCr(p) && IgnoresBlank(p)
    ensures RemovedEvents(Blocks(Lines(Join(ls))), p) == RemovedEvents(Blocks(ls), p)
  {
    hide *;
    LinesOfJoinAlike(ls);
    var a, b := Lines(Join(ls)), DropTrailingBlank(ls);
    BlocksAlike(a, b);
    RemovedEventsAlike(Blocks(a), Blocks(b), p);
    DroppedBlank(ls);
    if b != ls {
      RemoveWithBlank(b, p);
    }
  }

  lemma DroppedBlank(ls: seq<string>)
    ensures var b := DropTrailingBlank(ls); b == ls || b + [""] == ls
  {
  }

  lemma SomeReportsMeans(bs: seq<Block>, p: Block -> bool, e: string)
    ensures SomeReports(bs, p, e) <==> exists b :: b in bs && IsHookBlock(b) && p(b) && LastEvent(b) == Some(e)
  {
    hide IsHookBlock, LastEvent;
    if b :| b in bs && IsHookBlock(b) && p(b) && LastEvent(b) == Some(e) {
      var k :| 0 <= k < |bs| && bs[k] == b;
      assert Reports(bs[k], p, e);
    }
    if SomeReports(bs, p, e) {
      var k :| 0 <= k < |bs| && Reports(bs[k], p, e);
      assert bs[k] in bs;
    }
  }

  /** Two removals after each other report what one removal of both kinds reports. */
  lemma BothReport(ls: seq<string>, p: Block -> bool, q: Block -> bool, e: string)
    ensures e in RemovedEvents(Blocks(ls), Either(p, q)) <==>
            e in RemovedEvents(Blocks(ls), p) || e in RemovedEvents(Blocks(Remove(ls, p)), q)
  {
    var bs := Blocks(ls);
    var kept := Keep(bs, p);
    BlocksWellSplit(ls);
    KeepWellSplit(bs, p);
    BlocksOfFlatten(kept);
    assert Blocks(Remove(ls, p)) == kept;
    KeepMembers(bs, p);
    hide *;
    ReportedOfBlock(bs, Either(p, q), e);
    ReportedOfBlock(bs, p, e);
    ReportedOfBlock(kept, q, e);
    SomeReportsMeans(bs, Either(p, q), e);
    SomeReportsMeans(bs, p, e);
    SomeReportsMeans(kept, q, e);
    assert forall b :: Either(p, q)(b) <==> p(b) || q(b) by {
      EitherIs(p, q);
    }
  }

  lemma EitherIs(p: Block -> bool, q: Block -> bool)
    ensures forall b :: Either(p, q)(b) <==> p(b) || q(b)
  {
  }

  lemma {:induction false} UnionMembers(r: seq<string>, es: seq<string>)
    ensures forall e :: e in Union(r, es) <==> e in r || e in es
    ensures r <= Union(r, es)
    ensures forall i, j :: |r| <= i < |Union(r, es)| && 0 <= j < i ==> Union(r, es)[j] != Union(r, es)[i]
  {
    if es != [] {
      UnionMembers(r, es[..|es| - 1]);
      assert es == es[..|es| - 1] + [es[|es| - 1]];
    }
  }

  /** A remove reports an event exactly when a section that goes names it last. */
  lemma RemoveReports(content: string, e: string)
    ensures e in RemoveReport(content).removed <==>
            exists h, r :: NamesLast(Lines(content), h, r, e) && InMarkedHook(Lines(content), r, OldOrNew())
  {
    hide *;
    var ls := Lines(content);
    RemovedIs(content);
    UnionMembers(RemovedEvents(Blocks(ls), Ours), LegacyEvents(WithoutOurs(content)));
    LinesHaveNoNewlines(content);
    KeptNoNewlines(ls, Ours);
    BothIgnore();
    MarkMeans();
    PassReports(Remove(ls, Ours), Legacy);
    BothReport(ls, Ours, Legacy, e);
    ReportedByPosition(ls, Either(Ours, Legacy), OldOrNew(), e);
  }

  lemma RemovedIs(content: string)
    ensures var ours, others := RemovedEvents(Blocks(Lines(content)), Ours), LegacyEvents(WithoutOurs(content));
            && RemoveReport(content).removed == Union(ours, others)
            && others == RemovedEvents(Blocks(Lines(Join(Remove(Lines(content), Ours)))), Legacy)
  {
    hide Lines, RemovedEvents, Blocks, Union, Join, Remove;
  }

  // ---- An add ----

  /** The lines that go name no event. */
  predicate NamedStay(ls: seq<string>, at: seq<int>) {
    forall r :: 0 <= r < |ls| && EventOf(ls[r]).Some? ==> r in at
  }

  lemma EmptyHooksNamesNothing(l: string)
    requires Trim(l) == "hooks = []"
    ensures EventOf(l) == None
  {
    assert Trim(l)[0] == 'h' && EVENT_KEY[0] == 'e';
  }

  lemma OthersNamed(ls: seq<string>, at: seq<int>)
    requires OtherLines(ls, at)
    ensures NamedStay(ls, at)
  {
    forall r | 0 <= r < |ls| && EventOf(ls[r]).Some? ensures r in at {
      if Trim(ls[r]) == "hooks = []" {
        EmptyHooksNamesNothing(ls[r]);
      }
    }
  }

  lemma NameStays(ls: seq<string>, at: seq<int>, kept: seq<string>, m: int, n: int, e: string)
    requires Picks(ls, at, kept) && OnlyPlainGo(ls, at, Old()) && NamedStay(ls, at) && 0 <= m < |at| && 0 <= n < |at|
    ensures NamesLast(kept, m, n, e) <==> NamesLast(ls, at[m], at[n], e)
  {
    hide InHookAt, EventOf, OnlyPlainGo;
    SectionStays(ls, at, kept, Old(), m, n);
    if NamesLast(kept, m, n, e) {
      forall q | at[n] < q < |ls| && InHookAt(ls, at[m], q) ensures EventOf(ls[q]) == None {
        if EventOf(ls[q]).Some? {
          var j :| 0 <= j < |at| && at[j] == q;
          SectionStays(ls, at, kept, Old(), m, j);
        }
      }
    }
    if NamesLast(ls, at[m], at[n], e) {
      forall j | n < j < |kept| && InHookAt(kept, m, j) ensures EventOf(kept[j]) == None {
        SectionStays(ls, at, kept, Old(), m, j);
      }
    }
  }

  lemma StrippedReports(ls: seq<string>, at: seq<int>, kept: seq<string>, e: string)
    requires Picks(ls, at, kept) && OnlyPlainGo(ls, at, Old()) && NamedStay(ls, at)
    ensures (exists h, r :: NamesLast(kept, h, r, e) && InMarkedHook(kept, r, Old())) <==>
            (exists h, r :: NamesLast(ls, h, r, e) && InMarkedHook(ls, r, Old()))
  {
    hide InMarkedHook, OnlyPlainGo;
    if exists h, r :: NamesLast(kept, h, r, e) && InMarkedHook(kept, r, Old()) {
      var h, r :| NamesLast(kept, h, r, e) && InMarkedHook(kept, r, Old());
      InHookIsLine(kept, h, r);
      NameStays(ls, at, kept, h, r, e);
      MarkedStays(ls, at, kept, Old(), r);
    }
    if exists h, r :: NamesLast(ls, h, r, e) && InMarkedHook(ls, r, Old()) {
      var h, r :| NamesLast(ls, h, r, e) && InMarkedHook(ls, r, Old());
      InHookIsLine(ls, h, r);
      var m := OpenerStays(ls, at, h, r);
      var n :| 0 <= n < |at| && at[n] == r;
      NameStays(ls, at, kept, m, n, e);
      MarkedStays(ls, at, kept, Old(), n);
    }
  }

  lemma OpenerStays(ls: seq<string>, at: seq<int>, h: int, r: int) returns (m: int)
    requires InHookAt(ls, h, r) && OnlyPlainGo(ls, at, Old())
    ensures 0 <= m < |at| && at[m] == h
  {
    OpenerOpens(ls, h, r);
    hide OpensSection;
    m :| 0 <= m < |at| && at[m] == h;
  }

  /** An add reports an event as removed exactly when a section with an old command names it last. */
  lemma AddReports(content: string, events: seq<string>, hook: string, e: string)
    ensures e in AddReport(content, events, hook).removed <==>
            exists h, r :: NamesLast(Lines(content), h, r, e) && InMarkedHook(Lines(content), r, Old())
  {
    hide *;
    var ls := Lines(content);
    LegacyIs(content, events, hook);
    LinesHaveNoNewlines(content);
    StripNoNewlines(ls);
    BothIgnore();
    MarkMeans();
    PassReports(Strip(ls), Legacy);
    ReportedByPosition(Strip(ls), Legacy, Old(), e);
    var at := StripByPosition(ls);
    OnlyPlainGoes(ls, at);
    OthersNamed(ls, at);
    StrippedReports(ls, at, Strip(ls), e);
  }

  lemma LegacyIs(content: string, events: seq<string>, hook: string)
    ensures AddReport(content, events, hook).removed
            == RemovedEvents(Blocks(Lines(Join(Strip(Lines(content))))), Legacy)
  {
    hide Lines, RemovedEvents, Blocks, Join, Strip;
  }

  // ---- The look for a hook ----

  /** At line `j` the look is inside a section that names the event. */
  predicate NamedBefore(ls: seq<string>, inHook: bool, eventLine: string, j: int) {
    0 <= j <= |ls| &&
    ((inHook && forall k :: 0 <= k < j ==> Trim(ls[k]) != "[[hooks]]")
     || exists i :: 0 <= i < j && Trim(ls[i]) == eventLine && forall k :: i < k < j ==> Trim(ls[k]) != "[[hooks]]")
  }

  /** A command line after a line that names the event, with no new hook section between. */
  predicate IsCommandOf(ls: seq<string>, inHook: bool, eventLine: string, j: int) {
    && 0 <= j < |ls| && NamedBefore(ls, inHook, eventLine, j)
    && Trim(ls[j]) != "[[hooks]]" && Trim(ls[j]) != eventLine && "command = " <= Trim(ls[j])
  }

  lemma NamedTail(ls: seq<string>, inHook: bool, eventLine: string, j: int)
    requires ls != [] && 0 < j <= |ls| && eventLine != "[[hooks]]"
    ensures var t := Trim(ls[0]);
            NamedBefore(ls, inHook, eventLine, j) <==>
            NamedBefore(ls[1..], if t == "[[hooks]]" then false else if t == eventLine then true else inHook, eventLine,
                        j - 1)
  {
    hide Trim;
    var rest := ls[1..];
    assert forall k :: 0 < k < |ls| ==> ls[k] == rest[k - 1];
    assert forall k :: 0 <= k < |rest| ==> rest[k] == ls[k + 1];
  }

  lemma CommandTail(ls: seq<string>, inHook: bool, eventLine: string)
    requires ls != [] && eventLine != "[[hooks]]"
    ensures var t := Trim(ls[0]);
            var inHook' := if t == "[[hooks]]" then false else if t == eventLine then true else inHook;
            && (forall j :: 0 < j < |ls| ==>
                  (IsCommandOf(ls, inHook, eventLine, j) <==> IsCommandOf(ls[1..], inHook', eventLine, j - 1)))
            && (IsCommandOf(ls, inHook, eventLine, 0) <==>
                inHook && t != "[[hooks]]" && t != eventLine && "command = " <= t)
  {
    hide Trim, NamedBefore;
    forall j | 0 < j < |ls|
      ensures NamedBefore(ls, inHook, eventLine, j) <==>
              NamedBefore(ls[1..], if Trim(ls[0]) == "[[hooks]]" then false
                                   else if Trim(ls[0]) == eventLine then true else inHook, eventLine, j - 1)
    {
      NamedTail(ls, inHook, eventLine, j);
    }
    assert forall j :: 0 < j < |ls| ==> ls[j] == ls[1..][j - 1];
    NamedAtStart(ls, inHook, eventLine);
  }

  lemma NamedAtStart(ls: seq<string>, inHook: bool, eventLine: string)
    ensures NamedBefore(ls, inHook, eventLine, 0) <==> inHook
  {
  }

  /** The look stops at the first command line of a section that names the event, and finds what that line is. */
  lemma {:induction false} HitExactly(ls: seq<string>, inHook: bool, eventLine: string) returns (j: int)
    requires eventLine != "[[hooks]]"
    ensures match FirstHit(ls, inHook, eventLine)
            case None => forall k :: !IsCommandOf(ls, inHook, eventLine, k)
            case Some(ours) =>
              && IsCommandOf(ls, inHook, eventLine, j) && (forall k :: k < j ==> !IsCommandOf(ls, inHook, eventLine, k))
              && (ours <==> Contains(Trim(ls[j]), "agent-aspect-hook"))
  {
    j := 0;
    if ls != [] {
      var t := Trim(ls[0]);
      var inHook' := if t == "[[hooks]]" then false else if t == eventLine then true else inHook;
      CommandTail(ls, inHook, eventLine);
      HitStep(ls, inHook, eventLine);
      hide FirstHit, IsCommandOf, Trim, Contains;
      if !(inHook && t != "[[hooks]]" && t != eventLine && "command = " <= t) {
        j := HitExactly(ls[1..], inHook', eventLine);
        Negative(ls[1..], inHook', eventLine);
        j := j + 1;
      }
      Negative(ls, inHook, eventLine);
    }
  }

  lemma Negative(ls: seq<string>, inHook: bool, eventLine: string)
    ensures forall k :: k < 0 || k >= |ls| ==> !IsCommandOf(ls, inHook, eventLine, k)
  {
  }

  lemma HitStep(ls: seq<string>, inHook: bool, eventLine: string)
    requires ls != []
    ensures var t := Trim(ls[0]);
            var inHook' := if t == "[[hooks]]" then false else if t == eventLine then true else inHook;
            FirstHit(ls, inHook, eventLine)
            == if inHook && t != "[[hooks]]" && t != eventLine && "command = " <= t
               then Some(Contains(t, "agent-aspect-hook")) else FirstHit(ls[1..], inHook', eventLine)
  {
  }
}
