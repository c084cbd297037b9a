/** Cutting a sequence into maximal runs: neighbours stay together exactly when they join. */
module MaximalRuns {
  /** One more element: it joins the last run or starts a new one. */
  function AddTo<T>(runs: seq<seq<T>>, x: T, joined: bool): seq<seq<T>> {
    if joined && runs != [] then runs[..|runs| - 1] + [runs[|runs| - 1] + [x]] else runs + [[x]]
  }

  function Runs<T(!new)>(xs: seq<T>, joins: (T, T) -> bool): seq<seq<T>> {
    if |xs| <= 1 then (if xs == [] then [] else [xs])
    else AddTo(Runs(xs[..|xs| - 1], joins), xs[|xs| - 1], joins(xs[|xs| - 2], xs[|xs| - 1]))
  }

  function Concat<T>(runs: seq<seq<T>>): seq<T> {
    if runs == [] then [] else Concat(runs[..|runs| - 1]) + runs[|runs| - 1]
  }

  ghost predicate NonEmpty<T>(runs: seq<seq<T>>) {
    forall i :: 0 <= i < |runs| ==> runs[i] != []
  }

  /** Neighbours in a run join. */
  ghost predicate Chained<T(!new)>(run: seq<T>, joins: (T, T) -> bool) {
    forall i, j :: 0 <= i && j == i + 1 < |run| ==> joins(run[i], run[j])
  }

  /** Non-empty runs, chained inside, with no join across a cut. */
  ghost predicate Maximal<T(!new)>(runs: seq<seq<T>>, joins: (T, T) -> bool) {
    && NonEmpty(runs)
    && (forall i :: 0 <= i < |runs| ==> Chained(runs[i], joins))
    && (forall i, j :: 0 <= i && j == i + 1 < |runs| ==> !joins(runs[i][|runs[i]| - 1], runs[j][0]))
  }

  lemma AddToConcat<T>(runs: seq<seq<T>>, x: T, joined: bool)
    ensures Concat(AddTo(runs, x, joined)) == Concat(runs) + [x]
  {
    var r := AddTo(runs, x, joined);
    assert r[..|r| - 1] == if joined && runs != [] then runs[..|runs| - 1] else runs;
  }

  lemma RunsLast<T(!new)>(xs: seq<T>, joins: (T, T) -> bool)
    ensures xs == [] ==> Runs(xs, joins) == []
    ensures |xs| == 1 ==> Runs(xs, joins) == [xs]
    ensures |xs| > 1 ==> Runs(xs, joins) == AddTo(Runs(xs[..|xs| - 1], joins), xs[|xs| - 1],
                                                  joins(xs[|xs| - 2], xs[|xs| - 1]))
  {
  }

  lemma RunsSnoc<T(!new)>(xs: seq<T>, x: T, joins: (T, T) -> bool)
    ensures Runs(xs + [x], joins) == AddTo(Runs(xs, joins), x, xs != [] && joins(xs[|xs| - 1], x))
  {
    hide Runs;
    var ys := xs + [x];
    RunsLast(ys, joins);
    RunsLast(xs, joins);
    if xs == [] {
      assert ys == [x];
    } else {
      assert ys[..|ys| - 1] == xs && ys[|ys| - 2] == xs[|xs| - 1];
    }
  }

  /** The runs are a decomposition of the sequence into maximal runs. */
  lemma {:induction false} RunsAreMaximal<T(!new)>(xs: seq<T>, joins: (T, T) -> bool)
    ensures Concat(Runs(xs, joins)) == xs && Maximal(Runs(xs, joins), joins)
    ensures xs != [] ==> Runs(xs, joins) != [] && LastOf(Runs(xs, joins)) == xs[|xs| - 1]
  {
    if |xs| <= 1 {
      ShortRuns(xs, joins);
    } else {
      var front, x := xs[..|xs| - 1], xs[|xs| - 1];
      var runs := Runs(front, joins);
      RunsAreMaximal(front, joins);
      hide Runs, AddTo, Concat, Chained;
      assert front + [x] == xs;
      RunsSnoc(front, x, joins);
      AddToConcat(runs, x, joins(LastOf(runs), x));
      AddToMaximal(runs, x, joins);
    }
  }

  lemma ShortRuns<T(!new)>(xs: seq<T>, joins: (T, T) -> bool)
    requires |xs| <= 1
    ensures Concat(Runs(xs, joins)) == xs && Maximal(Runs(xs, joins), joins)
    ensures xs != [] ==> Runs(xs, joins) != [] && LastOf(Runs(xs, joins)) == xs[|xs| - 1]
  {
    if xs != [] {
      assert [xs][..0] == [];
      assert Concat([xs][..0]) == [];
    }
  }

  function LastOf<T>(runs: seq<seq<T>>): T
    requires runs != [] && runs[|runs| - 1] != []
  {
    var r := runs[|runs| - 1];
    r[|r| - 1]
  }

  lemma AddToMaximal<T(!new)>(runs: seq<seq<T>>, x: T, joins: (T, T) -> bool)
    requires Maximal(runs, joins) && runs != []
    ensures var r := AddTo(runs, x, joins(LastOf(runs), x));
            r != [] && Maximal(r, joins) && LastOf(r) == x
  {
    var r := AddTo(runs, x, joins(LastOf(runs), x));
    forall i | 0 <= i < |r| ensures r[i] != [] && Chained(r[i], joins) {
      assert i < |runs| ==> Chained(runs[i], joins);
    }
  }

  /** They are the only one. */
  lemma {:induction false} RunsUnique<T(!new)>(runs: seq<seq<T>>, joins: (T, T) -> bool)
    requires Maximal(runs, joins)
    ensures Runs(Concat(runs), joins) == runs
    decreases |Concat(runs)|
  {
    if runs != [] {
      var shorter, x := WithoutLast(runs, joins);
      RunsUnique(shorter, joins);
      var front := Concat(shorter);
      AddToConcat(shorter, x, shorter != [] && joins(LastOf(shorter), x));
      assert Concat(runs)[..|front|] == front;
      if shorter != [] {
        ConcatLast(shorter);
      } else {
        assert runs == [[x]];
      }
    }
  }

  lemma WithoutLast<T(!new)>(runs: seq<seq<T>>, joins: (T, T) -> bool) returns (shorter: seq<seq<T>>, x: T)
    requires Maximal(runs, joins) && runs != []
    ensures Maximal(shorter, joins)
    ensures AddTo(shorter, x, shorter != [] && joins(LastOf(shorter), x)) == runs
  {
    var front, last := runs[..|runs| - 1], runs[|runs| - 1];
    x := last[|last| - 1];
    if |last| == 1 {
      shorter := front;
      assert last == [x] && front + [last] == runs;
    } else {
      var cut := last[..|last| - 1];
      shorter := front + [cut];
      assert cut + [x] == last && shorter[..|front|] == front;
      assert Chained(last, joins);
      assert joins(last[|last| - 2], last[|last| - 1]);
      forall i | 0 <= i < |shorter| ensures Chained(shorter[i], joins) {
        assert Chained(runs[i], joins);
      }
      assert front + [last] == runs;
    }
  }

  lemma ConcatLast<T>(runs: seq<seq<T>>)
    requires runs != [] && runs[|runs| - 1] != []
    ensures Concat(runs) != [] && Concat(runs)[|Concat(runs)| - 1] == LastOf(runs)
  {
  }

  // ---- Runs by their places ----

  /** Run `k` is what stands from `cuts[k]` up to the next cut. */
  ghost predicate CutAt<T>(xs: seq<T>, runs: seq<seq<T>>, cuts: seq<nat>) {
    && |cuts| == |runs| + 1 && cuts[0] == 0 && cuts[|runs|] == |xs|
    && forall k, l :: 0 <= k && l == k + 1 < |cuts| ==> cuts[k] < cuts[l] <= |xs| && runs[k] == xs[cuts[k]..cuts[l]]
  }

  lemma {:induction false} RunsCut<T>(runs: seq<seq<T>>) returns (cuts: seq<nat>)
    requires NonEmpty(runs)
    ensures CutAt(Concat(runs), runs, cuts)
  {
    if runs == [] {
      cuts := [0];
    } else {
      var front, last := runs[..|runs| - 1], runs[|runs| - 1];
      var before := RunsCut(front);
      cuts := before + [|Concat(runs)|];
      OneCutMore(Concat(front), front, before, last);
      assert front + [last] == runs;
    }
  }

  lemma OneCutMore<T>(xs: seq<T>, runs: seq<seq<T>>, cuts: seq<nat>, run: seq<T>)
    requires CutAt(xs, runs, cuts) && run != []
    ensures CutAt(xs + run, runs + [run], cuts + [|xs| + |run|])
  {
    var all, rs, cs := xs + run, runs + [run], cuts + [|xs| + |run|];
    forall k, l | 0 <= k && l == k + 1 < |cs| ensures cs[k] < cs[l] <= |all| && rs[k] == all[cs[k]..cs[l]] {
      if l < |cuts| {
        Piece(xs, runs, cuts, k);
        assert all[cs[k]..cs[l]] == xs[cuts[k]..cuts[l]];
      } else {
        CutEnds(xs, runs, cuts);
        assert all[|xs|..] == run;
      }
    }
  }

  lemma {:induction false} RunAround<T>(xs: seq<T>, runs: seq<seq<T>>, cuts: seq<nat>, j: nat, n: nat) returns (k: nat)
    requires CutAt(xs, runs, cuts) && n < |cuts| && j < cuts[n]
    ensures k < n && cuts[k] <= j < cuts[k + 1]
  {
    if n > 0 && cuts[n - 1] <= j {
      k := n - 1;
    } else {
      k := RunAround(xs, runs, cuts, j, n - 1);
    }
  }

  lemma {:induction false} CutsGrow<T>(xs: seq<T>, runs: seq<seq<T>>, cuts: seq<nat>, k: nat, l: nat)
    requires CutAt(xs, runs, cuts) && k <= l < |cuts|
    ensures cuts[k] <= cuts[l] && (k < l ==> cuts[k] < cuts[l])
    decreases l
  {
    if k < l {
      CutsGrow(xs, runs, cuts, k, l - 1);
    }
  }

  /** Neighbours are cut apart exactly where they do not join. */
  lemma CutWhereApart<T(!new)>(xs: seq<T>, runs: seq<seq<T>>, joins: (T, T) -> bool, cuts: seq<nat>, j: nat)
    requires CutAt(xs, runs, cuts) && Maximal(runs, joins) && 0 < j < |xs|
    ensures joins(xs[j - 1], xs[j]) <==> j !in cuts
  {
    var k := RunAround(xs, runs, cuts, j, |cuts| - 1);
    assert runs[k] == xs[cuts[k]..cuts[k + 1]];
    if cuts[k] < j {
      assert Chained(runs[k], joins);
      var i := j - cuts[k];
      assert joins(runs[k][i - 1], runs[k][i]);
      forall l | 0 <= l < |cuts| ensures cuts[l] != j {
        if l <= k {
          CutsGrow(xs, runs, cuts, l, k);
        } else {
          CutsGrow(xs, runs, cuts, k + 1, l);
        }
      }
    } else {
      assert k > 0;
      var before := k - 1;
      assert runs[before] == xs[cuts[before]..cuts[k]];
      assert !joins(runs[before][|runs[before]| - 1], runs[k][0]);
    }
  }

  lemma Piece<T>(xs: seq<T>, runs: seq<seq<T>>, cuts: seq<nat>, k: nat)
    requires CutAt(xs, runs, cuts) && k < |runs|
    ensures |cuts| == |runs| + 1 && cuts[k] < cuts[k + 1] <= |xs| && xs[cuts[k]..cuts[k + 1]] == runs[k]
  {
  }

  lemma CutEnds<T>(xs: seq<T>, runs: seq<seq<T>>, cuts: seq<nat>)
    requires CutAt(xs, runs, cuts)
    ensures |cuts| == |runs| + 1 && cuts[0] == 0 && cuts[|runs|] == |xs|
  {
  }
}
