/** Lines or words picked out of a list by their places. */
module Positions {
  predicate Increasing(at: seq<int>) {
    forall m, n :: 0 <= m < n < |at| ==> at[m] < at[n]
  }

  /** `kept` are the lines at the positions `at`, in order. */
  predicate Picks(ls: seq<string>, at: seq<int>, kept: seq<string>) {
    && |at| == |kept| && Increasing(at)
    && forall m :: 0 <= m < |at| ==> 0 <= at[m] < |ls| && kept[m] == ls[at[m]]
  }

  function Shifted(at: seq<int>): seq<int> {
    seq(|at|, i requires 0 <= i < |at| => at[i] + 1)
  }

  lemma ShiftedMembers(at: seq<int>)
    ensures forall r :: r in Shifted(at) <==> r - 1 in at
  {
    forall r | r - 1 in at ensures r in Shifted(at) {
      var m :| 0 <= m < |at| && at[m] == r - 1;
      assert Shifted(at)[m] == r;
    }
  }

  /** The places in `ls` when its first element stays or goes and `rest` are the places in the other ones. */
  function Prefixed(stays: bool, rest: seq<int>): seq<int> {
    (if stays then [0] else []) + Shifted(rest)
  }

  lemma PrefixedMembers(ls: seq<string>, rest: seq<int>, kept: seq<string>, stays: bool)
    requires ls != [] && Picks(ls[1..], rest, kept)
    ensures 0 in Prefixed(stays, rest) <==> stays
    ensures forall r :: 0 < r < |ls| ==> (r in Prefixed(stays, rest) <==> r - 1 in rest)
  {
    ShiftedMembers(rest);
    assert -1 !in rest by {
      assert forall m :: 0 <= m < |rest| ==> rest[m] >= 0;
    }
    hide Shifted, Picks;
    assert forall r :: r in Prefixed(stays, rest) <==> (r == 0 && stays) || r in Shifted(rest);
  }

  lemma PrefixedPicks(ls: seq<string>, rest: seq<int>, kept: seq<string>, stays: bool)
    requires ls != [] && Picks(ls[1..], rest, kept)
    ensures Picks(ls, Prefixed(stays, rest), (if stays then [ls[0]] else []) + kept)
  {
    var at := Prefixed(stays, rest);
    var n := if stays then 1 else 0;
    assert forall m :: n <= m < |at| ==> at[m] == rest[m - n] + 1;
    assert forall m :: 0 <= m < |rest| ==> ls[1..][rest[m]] == ls[rest[m] + 1];
  }

  /** The position in `ls` of each line picked twice. */
  function Through(at: seq<int>, next: seq<int>): seq<int>
    requires forall m :: 0 <= m < |next| ==> 0 <= next[m] < |at|
  {
    seq(|next|, m requires 0 <= m < |next| => at[next[m]])
  }

  lemma ThroughPicks(ls: seq<string>, at: seq<int>, mid: seq<string>, next: seq<int>, kept: seq<string>)
    requires Picks(ls, at, mid) && Picks(mid, next, kept)
    ensures Picks(ls, Through(at, next), kept)
    ensures forall m :: 0 <= m < |at| ==> (at[m] in Through(at, next) <==> m in next)
    ensures forall r :: r in Through(at, next) ==> r in at
  {
    var t := Through(at, next);
    forall m | 0 <= m < |at| ensures at[m] in t <==> m in next {
      if m in next {
        var n :| 0 <= n < |next| && next[n] == m;
        assert t[n] == at[m];
      }
      if at[m] in t {
        var n :| 0 <= n < |t| && t[n] == at[m];
        assert next[n] == m;
      }
    }
  }
}
