/** What splitting and joining does to carriage returns: lines stay alike, that is, equal up to the
    carriage returns at their ends. */
module LineEnds {
  import opened Text

  /** The line without any carriage returns at its end. */
  function Bare(l: string): string {
    if l != "" && l[|l| - 1] == '\r' then Bare(l[..|l| - 1]) else l
  }

  predicate Alike(a: seq<string>, b: seq<string>) {
    |a| == |b| && forall i :: 0 <= i < |a| ==> Bare(a[i]) == Bare(b[i])
  }

  predicate NoNewlines(ls: seq<string>) {
    forall i :: 0 <= i < |ls| ==> '\n' !in ls[i]
  }

  lemma BareStrip(l: string)
    ensures Bare(StripCr(l)) == Bare(l)
  {
  }

  lemma AlikeSelf(a: seq<string>)
    ensures Alike(a, a)
  {
  }

  lemma AlikeAppend(a: seq<string>, b: seq<string>, a': seq<string>, b': seq<string>)
    requires Alike(a, b) && Alike(a', b')
    ensures Alike(a + a', b + b')
  {
  }

  lemma {:induction false} LinesHaveNoNewlines(s: string)
    ensures NoNewlines(Lines(s))
    decreases |s|
  {
    if s != "" {
      var n := FindChar(s, '\n');
      if n == |s| {
        assert s[..n] == s;
      } else {
        LinesHaveNoNewlines(s[n + 1..]);
      }
    }
  }

  /** Joining and splitting again keeps the lines alike, but for one empty line at the end. */
  lemma {:induction false} LinesOfJoinAlike(ls: seq<string>)
    requires NoNewlines(ls)
    ensures Alike(Lines(Join(ls)), DropTrailingBlank(ls))
  {
    if |ls| == 1 {
      LinesOfOne(ls[0]);
    } else if |ls| > 1 {
      var rest := ls[1..];
      LinesOfJoinAlike(rest);
      CutAfter(ls[0], Join(rest));
      DropTrailingBlankTail(ls);
      BareStrip(ls[0]);
      AlikeAppend([StripCr(ls[0])], [ls[0]], Lines(Join(rest)), DropTrailingBlank(rest));
    }
  }

  lemma CutAfter(first: string, rest: string)
    requires '\n' !in first
    ensures Lines(first + "\n" + rest) == [StripCr(first)] + Lines(rest)
  {
    var s := first + "\n" + rest;
    assert s[..|first|] == first && s[|first|] == '\n' && s[|first| + 1..] == rest;
    FindCharUnique(s, '\n', |first|);
  }

  // ---- What carriage returns at the end do not change ----

  lemma {:induction false} TrimDropsCr(l: string)
    ensures Trim(l + "\r") == Trim(l)
  {
    var s := l + "\r";
    if l != "" && IsWhitespace(l[0]) {
      assert s[1..] == l[1..] + "\r";
      TrimDropsCr(l[1..]);
    } else if l == "" {
      assert s == "\r" && s[1..] == "";
    } else {
      assert s[..|s| - 1] == l;
    }
  }

  lemma {:induction false} TrimBare(l: string)
    ensures Trim(Bare(l)) == Trim(l)
  {
    if l != "" && l[|l| - 1] == '\r' {
      TrimBare(l[..|l| - 1]);
      TrimDropsCr(l[..|l| - 1]);
      assert l[..|l| - 1] + "\r" == l;
    }
  }

  lemma {:induction false} ContainsBare(l: string, t: string)
    requires t != "" && '\r' !in t
    ensures Contains(Bare(l), t) <==> Contains(l, t)
  {
    if l != "" && l[|l| - 1] == '\r' {
      var front := l[..|l| - 1];
      ContainsBare(front, t);
      assert l == front + ['\r'] + "";
      ContainsSplit(front, '\r', "", t);
      EmptyContains(t);
    }
  }

  // ---- Split and join once ----

  /** `lines` and `join("\n")` in a row */
  function Pass(s: string): string {
    Join(Lines(s))
  }

  /** How many newlines have a carriage return in front. */
  function CrLfs(s: string): nat
    decreases |s|
  {
    var n := FindChar(s, '\n');
    if n == |s| then 0 else (if n > 0 && s[n - 1] == '\r' then 1 else 0) + CrLfs(s[n + 1..])
  }

  lemma {:induction false} JoinAppendBlank(ls: seq<string>)
    requires ls != []
    ensures Join(ls + [""]) == Join(ls) + "\n"
  {
    if |ls| == 1 {
      assert (ls + [""])[1..] == [""];
    } else {
      JoinAppendBlank(ls[1..]);
      assert (ls + [""])[1..] == ls[1..] + [""];
    }
  }

  /** Passing text on loses one final newline and one carriage return before each newline, and nothing else. */
  lemma {:induction false} PassLength(s: string)
    ensures |Pass(s)| + (if EndsWithNewline(s) then 1 else 0) + CrLfs(s) == |s|
    ensures CrLfs(s) == 0 ==> Pass(s) == WithoutFinalNewline(s)
    decreases |s|
  {
    var n := FindChar(s, '\n');
    if n == |s| {
      assert s[..n] == s;
      assert s != "" ==> s[|s| - 1] in s;
    } else {
      var rest := s[n + 1..];
      PassLength(rest);
      PassStep(s, n, rest);
    }
  }

  lemma PassOfStep(s: string, n: nat, rest: string)
    requires n == FindChar(s, '\n') < |s| && rest == s[n + 1..]
    ensures Pass(s) == StripCr(s[..n]) + (if rest == "" then "" else "\n" + Pass(rest))
    ensures CrLfs(s) == (if n > 0 && s[n - 1] == '\r' then 1 else 0) + CrLfs(rest)
  {
    hide *;
    LinesOfStep(s, n, rest);
    EmptyLines(rest);
    JoinFirst(StripCr(s[..n]), Lines(rest));
  }

  lemma LinesOfStep(s: string, n: nat, rest: string)
    requires n == FindChar(s, '\n') < |s| && rest == s[n + 1..]
    ensures Pass(s) == Join([StripCr(s[..n])] + Lines(rest)) && Pass(rest) == Join(Lines(rest))
    ensures CrLfs(s) == (if n > 0 && s[n - 1] == '\r' then 1 else 0) + CrLfs(rest)
  {
    hide Join, StripCr;
  }

  lemma JoinFirst(first: string, rest: seq<string>)
    ensures Join([first] + rest) == first + (if rest == [] then "" else "\n" + Join(rest))
  {
    if rest != [] {
      JoinCons(first, rest);
      AppendAssoc(first, "\n", Join(rest));
    }
  }

  lemma StripLength(s: string, n: nat)
    requires n <= |s|
    ensures |StripCr(s[..n])| == n - (if n > 0 && s[n - 1] == '\r' then 1 else 0)
    ensures !(n > 0 && s[n - 1] == '\r') ==> StripCr(s[..n]) == s[..n]
  {
  }

  lemma Rejoined(s: string, n: nat, rest: string)
    requires n < |s| && s[n] == '\n' && rest == s[n + 1..]
    ensures EndsWithNewline(s) <==> rest == "" || EndsWithNewline(rest)
    ensures rest != "" ==> s[..n] + ("\n" + WithoutFinalNewline(rest)) == WithoutFinalNewline(s)
    ensures rest == "" ==> s[..n] == WithoutFinalNewline(s)
  {
    assert rest != "" ==> rest[|rest| - 1] == s[|s| - 1];
  }

  lemma PassStep(s: string, n: nat, rest: string)
    requires n == FindChar(s, '\n') < |s| && rest == s[n + 1..]
    requires |Pass(rest)| + (if EndsWithNewline(rest) then 1 else 0) + CrLfs(rest) == |rest|
    requires CrLfs(rest) == 0 ==> Pass(rest) == WithoutFinalNewline(rest)
    ensures |Pass(s)| + (if EndsWithNewline(s) then 1 else 0) + CrLfs(s) == |s|
    ensures CrLfs(s) == 0 ==> Pass(s) == WithoutFinalNewline(s)
  {
    hide *;
    PassOfStep(s, n, rest);
    StripLength(s, n);
    Rejoined(s, n, rest);
    EmptyLines(rest);
    NoFinalNewline();
  }

  lemma NoFinalNewline()
    ensures !EndsWithNewline("")
  {
  }

  lemma EmptyLines(s: string)
    ensures Lines(s) == [] <==> s == ""
    ensures Pass("") == ""
  {
  }

  lemma {:induction false} CrLfsContained(s: string)
    ensures CrLfs(s) == 0 <==> !Contains(s, "\r\n")
    decreases |s|
  {
    var n := FindChar(s, '\n');
    if n == |s| {
      assert s[..n] == s;
      MissingNewline(s);
    } else {
      assert CrLfs(s) == (if n > 0 && s[n - 1] == '\r' then 1 else 0) + CrLfs(s[n + 1..]);
      CrLfsContained(s[n + 1..]);
      hide CrLfs, Contains;
      CrLfHere(s, n);
    }
  }

  lemma MissingNewline(s: string)
    requires '\n' !in s
    ensures !Contains(s, "\r\n")
  {
    forall i | 0 <= i <= |s| - 2 ensures !OccursAt(s, "\r\n", i) {
      assert s[i..i + 2][1] == s[i + 1];
    }
  }

  lemma CrLfHere(s: string, n: nat)
    requires n < |s| && s[n] == '\n' && '\n' !in s[..n]
    ensures Contains(s, "\r\n") <==> (n > 0 && s[n - 1] == '\r') || Contains(s[n + 1..], "\r\n")
  {
    var t, rest := "\r\n", s[n + 1..];
    if n > 0 && s[n - 1] == '\r' {
      assert s[n - 1..n + 1] == t;
      assert OccursAt(s, t, n - 1);
    }
    if Contains(rest, t) {
      var i :| 0 <= i <= |rest| - |t| && OccursAt(rest, t, i);
      assert s[n + 1 + i..n + 1 + i + 2] == rest[i..i + 2];
      assert OccursAt(s, t, n + 1 + i);
    }
    if Contains(s, t) {
      var i :| 0 <= i <= |s| - |t| && OccursAt(s, t, i);
      assert s[i..i + 2][0] == s[i] && s[i..i + 2][1] == s[i + 1];
      if i + 1 < n {
        assert s[..n][i + 1] == s[i + 1];
      } else if i > n {
        assert rest[i - n - 1..i - n + 1] == s[i..i + 2];
        assert OccursAt(rest, t, i - n - 1);
      }
    }
  }
}
