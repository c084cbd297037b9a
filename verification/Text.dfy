/** Rust string operations the modelled code relies on.
    A `char` is a Unicode scalar value, so a Dafny `string` is exactly a Rust `str`. */
module Text {
  predicate OccursAt(s: string, t: string, i: int) {
    0 <= i <= |s| - |t| && s[i..i + |t|] == t
  }

  /** `str::contains` */
  predicate Contains(s: string, t: string) {
    exists i :: 0 <= i <= |s| - |t| && OccursAt(s, t, i)
  }

  lemma ContainsAsPrefix(s: string, t: string, i: nat)
    requires i <= |s|
    ensures t <= s[i..] <==> OccursAt(s, t, i)
  {
    if i + |t| <= |s| {
      assert s[i..][..|t|] == s[i..i + |t|];
    }
  }

  /** First place or later: the two ways a text can occur. */
  lemma ContainsCases(s: string, t: string)
    requires s != "" && t != ""
    ensures Contains(s, t) <==> t <= s || Contains(s[1..], t)
  {
    var r := s[1..];
    assert s[0..] == s;
    ContainsAsPrefix(s, t, 0);
    if Contains(s, t) && !OccursAt(s, t, 0) {
      var i :| 0 <= i <= |s| - |t| && OccursAt(s, t, i);
      assert r[i - 1..i - 1 + |t|] == s[i..i + |t|];
      assert OccursAt(r, t, i - 1);
    }
    if Contains(r, t) {
      var i :| 0 <= i <= |r| - |t| && OccursAt(r, t, i);
      assert r[i..i + |t|] == s[i + 1..i + 1 + |t|];
      assert OccursAt(s, t, i + 1);
    }
  }

  lemma EmptyContains(t: string)
    requires t != ""
    ensures !Contains("", t)
  {
  }

  /** A text that avoids the separator occurs on one side of it. */
  lemma {:induction false} ContainsSplit(a: string, sep: char, b: string, t: string)
    requires t != "" && sep !in t
    ensures Contains(a + [sep] + b, t) <==> Contains(a, t) || Contains(b, t)
  {
    var s := a + [sep] + b;
    ContainsCases(s, t);
    PrefixBeforeSeparator(a, sep, b, t);
    if a == "" {
      assert s == [sep] + b;
      assert s[1..] == b;
      EmptyContains(t);
    } else {
      assert s[1..] == a[1..] + [sep] + b;
      ContainsSplit(a[1..], sep, b, t);
      ContainsCases(a, t);
    }
  }

  lemma PrefixBeforeSeparator(a: string, sep: char, b: string, t: string)
    requires sep !in t
    ensures t <= a + [sep] + b <==> t <= a
  {
    var s := a + [sep] + b;
    assert s[|a|] == sep;
    assert |t| <= |a| ==> s[..|t|] == a[..|t|];
  }

  /** `str::ends_with` */
  predicate EndsWith(s: string, t: string) {
    |t| <= |s| && s[|s| - |t|..] == t
  }

  predicate IsWhitespace(c: char) {
    var u := c as int;
    || 0x09 <= u <= 0x0D || u == 0x20 || u == 0x85 || u == 0xA0 || u == 0x1680
    || 0x2000 <= u <= 0x200A || u == 0x2028 || u == 0x2029 || u == 0x202F || u == 0x205F || u == 0x3000
  }

  predicate IsBlank(s: string) {
    forall i :: 0 <= i < |s| ==> IsWhitespace(s[i])
  }

  function TrimStart(s: string): string {
    if s != "" && IsWhitespace(s[0]) then TrimStart(s[1..]) else s
  }

  function TrimEnd(s: string): string {
    if s != "" && IsWhitespace(s[|s| - 1]) then TrimEnd(s[..|s| - 1]) else s
  }

  /** `str::trim` */
  function Trim(s: string): string {
    TrimEnd(TrimStart(s))
  }

  lemma {:induction false} TrimContains(s: string, t: string)
    requires Contains(Trim(s), t)
    ensures Contains(s, t)
  {
    TrimEndContains(TrimStart(s), t);
    TrimStartContains(s, t);
  }

  lemma {:induction false} TrimStartContains(s: string, t: string)
    requires Contains(TrimStart(s), t)
    ensures Contains(s, t)
  {
    if s != "" && IsWhitespace(s[0]) {
      TrimStartContains(s[1..], t);
      var i :| 0 <= i <= |s[1..]| - |t| && OccursAt(s[1..], t, i);
      assert s[i + 1..i + 1 + |t|] == s[1..][i..i + |t|];
      assert OccursAt(s, t, i + 1);
    }
  }

  lemma {:induction false} TrimEndContains(s: string, t: string)
    requires Contains(TrimEnd(s), t)
    ensures Contains(s, t)
  {
    if s != "" && IsWhitespace(s[|s| - 1]) {
      TrimEndContains(s[..|s| - 1], t);
      var i :| 0 <= i <= |s[..|s| - 1]| - |t| && OccursAt(s[..|s| - 1], t, i);
      assert s[i..i + |t|] == s[..|s| - 1][i..i + |t|];
      assert OccursAt(s, t, i);
    }
  }

  /** Text that starts and ends with a visible character is not changed by `trim`. */
  lemma TrimFixed(s: string)
    requires s != "" && !IsWhitespace(s[0]) && !IsWhitespace(s[|s| - 1])
    ensures Trim(s) == s
  {
  }

  /** `t` is `s` without its blanks at both ends. */
  ghost predicate IsTrimmed(s: string, t: string) {
    exists i: nat, j: nat :: IsTrimmedAt(s, i, j) && t == s[i..j]
  }

  predicate IsTrimmedAt(s: string, i: nat, j: nat) {
    && i <= j <= |s| && IsBlank(s[..i]) && IsBlank(s[j..])
    && (i < j ==> !IsWhitespace(s[i]) && !IsWhitespace(s[j - 1]))
  }

  lemma {:induction false} TrimStartCuts(s: string) returns (i: nat)
    ensures i <= |s| && TrimStart(s) == s[i..] && IsBlank(s[..i]) && (i < |s| ==> !IsWhitespace(s[i]))
  {
    if s != "" && IsWhitespace(s[0]) {
      var k := TrimStartCuts(s[1..]);
      i := k + 1;
      assert forall m :: 0 < m < i ==> s[m] == s[1..][..k][m - 1];
      assert s[1..][k..] == s[i..];
    } else {
      i := 0;
      assert s[0..] == s;
    }
  }

  lemma {:induction false} TrimEndCuts(s: string) returns (j: nat)
    ensures j <= |s| && TrimEnd(s) == s[..j] && IsBlank(s[j..]) && (j > 0 ==> !IsWhitespace(s[j - 1]))
  {
    if s != "" && IsWhitespace(s[|s| - 1]) {
      var front := s[..|s| - 1];
      j := TrimEndCuts(front);
      assert front[..j] == s[..j];
      forall m | 0 <= m < |s| - j ensures IsWhitespace(s[j..][m]) {
        assert m < |front| - j ==> s[j..][m] == front[j..][m];
      }
    } else {
      j := |s|;
      assert s[..j] == s;
    }
  }

  lemma TrimExactly(s: string)
    ensures IsTrimmed(s, Trim(s))
  {
    var i := TrimStartCuts(s);
    var rest := s[i..];
    var n := TrimEndCuts(rest);
    hide IsWhitespace, TrimStart, TrimEnd;
    assert forall k :: i + n <= k < |s| ==> s[k] == rest[n..][k - i - n];
    assert n > 0 ==> s[i + n - 1] == rest[n - 1];
    assert IsTrimmedAt(s, i, i + n) && rest[..n] == s[i..i + n];
  }

  function FindChar(s: string, c: char): (n: nat)
    ensures n <= |s| && c !in s[..n] && (n < |s| ==> s[n] == c)
  {
    if s == "" || s[0] == c then 0 else 1 + FindChar(s[1..], c)
  }

  lemma {:induction false} FindCharUnique(s: string, c: char, n: nat)
    requires n <= |s| && c !in s[..n] && (n < |s| ==> s[n] == c)
    ensures FindChar(s, c) == n
  {
    if n > 0 {
      assert s[0] in s[..n];
      assert s[1..][..n - 1] == s[..n][1..];
      FindCharUnique(s[1..], c, n - 1);
    }
  }

  function StripCr(s: string): string {
    if s != "" && s[|s| - 1] == '\r' then s[..|s| - 1] else s
  }

  /** `str::lines`: split at LF, strip one CR before each LF, no final empty line. */
  function Lines(s: string): seq<string> {
    if s == "" then []
    else
      var n := FindChar(s, '\n');
      if n == |s| then [s] else [StripCr(s[..n])] + Lines(s[n + 1..])
  }

  /** `join("\n")` */
  function Join(ls: seq<string>): string {
    if |ls| == 0 then ""
    else if |ls| == 1 then ls[0]
    else ls[0] + "\n" + Join(ls[1..])
  }

  /** A line that `lines` yields back unchanged. */
  predicate Plain(l: string) {
    '\n' !in l && (l == "" || l[|l| - 1] != '\r')
  }

  predicate AllPlain(ls: seq<string>) {
    forall i :: 0 <= i < |ls| ==> Plain(ls[i])
  }

  function DropTrailingBlank(ls: seq<string>): seq<string> {
    if |ls| > 0 && ls[|ls| - 1] == "" then ls[..|ls| - 1] else ls
  }

  lemma {:induction false} LinesStep(a: string, rest: string)
    requires Plain(a)
    ensures Lines(a + "\n" + rest) == [a] + Lines(rest)
  {
    var s := a + "\n" + rest;
    assert s[..|a|] == a && s[|a|] == '\n' && s[|a| + 1..] == rest;
    FindCharUnique(s, '\n', |a|);
  }

  /** Joining and splitting again loses exactly one trailing empty line. */
  lemma {:induction false} LinesOfJoin(ls: seq<string>)
    requires AllPlain(ls)
    ensures Lines(Join(ls)) == DropTrailingBlank(ls)
  {
    if |ls| == 1 {
      LinesOfOne(ls[0]);
    } else if |ls| > 1 {
      LinesOfJoin(ls[1..]);
      LinesStep(ls[0], Join(ls[1..]));
      DropTrailingBlankTail(ls);
    }
  }

  lemma LinesOfOne(l: string)
    requires '\n' !in l
    ensures Lines(l) == if l == "" then [] else [l]
  {
    assert l[..|l|] == l;
    FindCharUnique(l, '\n', |l|);
  }

  lemma DropTrailingBlankTail(ls: seq<string>)
    requires |ls| > 1
    ensures DropTrailingBlank(ls) == [ls[0]] + DropTrailingBlank(ls[1..])
  {
  }

  /** Every line followed by its newline. */
  function Terminate(ls: seq<string>): string {
    if ls == [] then "" else ls[0] + "\n" + Terminate(ls[1..])
  }

  lemma {:induction false} TerminateIsJoin(ls: seq<string>)
    requires ls != []
    ensures Terminate(ls) == Join(ls) + "\n"
  {
    if |ls| == 1 {
      assert Terminate(ls[1..]) == "";
      assert Terminate(ls) == ls[0] + "\n";
    } else {
      TerminateIsJoin(ls[1..]);
    }
  }

  /** Newline-terminated text splits into exactly its lines. */
  lemma {:induction false} LinesOfTerminated(ls: seq<string>, rest: string)
    requires AllPlain(ls)
    ensures Lines(Terminate(ls) + rest) == ls + Lines(rest)
  {
    if ls == [] {
      assert Terminate(ls) + rest == rest;
    } else {
      var tail := Terminate(ls[1..]);
      LinesOfTerminated(ls[1..], rest);
      LinesStep(ls[0], tail + rest);
      TerminatedStep(ls, tail, rest);
      ConsAppend(ls, Lines(rest));
    }
  }

  lemma TerminatedStep(ls: seq<string>, tail: string, rest: string)
    requires ls != [] && Terminate(ls[1..]) == tail
    ensures Terminate(ls) + rest == ls[0] + "\n" + (tail + rest)
  {
    AppendAssoc(ls[0] + "\n", tail, rest);
  }

  lemma ConsAppend(ls: seq<string>, after: seq<string>)
    requires ls != []
    ensures [ls[0]] + (ls[1..] + after) == ls + after
  {
  }

  lemma AppendAssoc(a: string, b: string, c: string)
    ensures (a + b) + c == a + (b + c)
  {
  }

  predicate EndsWithNewline(s: string) {
    s != "" && s[|s| - 1] == '\n'
  }

  function WithoutFinalNewline(s: string): string {
    if EndsWithNewline(s) then s[..|s| - 1] else s
  }

  lemma FirstLine(a: string) returns (n: nat, rest: string)
    requires EndsWithNewline(a)
    ensures n < |a| && a[n] == '\n' && '\n' !in a[..n] && rest == a[n + 1..]
    ensures rest == "" || EndsWithNewline(rest)
    ensures Lines(a) == [StripCr(a[..n])] + Lines(rest)
  {
    n := FindChar(a, '\n');
    assert a[|a| - 1] in a && a[..|a|] == a;
    rest := a[n + 1..];
    assert rest != "" ==> rest[|rest| - 1] == a[|a| - 1];
  }

  lemma NoLines(b: string)
    ensures "" + b == b && [] + Lines(b) == Lines(b) && Lines("") == []
  {
  }

  /** Text that ends at a line end is split on its own. */
  lemma {:induction false} LinesAppend(a: string, b: string)
    requires a == "" || EndsWithNewline(a)
    ensures Lines(a + b) == Lines(a) + Lines(b)
    decreases |a|
  {
    hide *;
    if a == "" {
      NoLines(b);
    } else {
      var n, rest := FirstLine(a);
      LinesAppend(rest, b);
      CutAtNewline(a, b, n);
    }
  }

  lemma CutAtNewline(a: string, b: string, n: nat)
    requires n < |a| && a[n] == '\n' && '\n' !in a[..n]
    ensures Lines(a + b) == [StripCr(a[..n])] + Lines(a[n + 1..] + b)
  {
    var s := a + b;
    assert s[..n] == a[..n] && s[n + 1..] == a[n + 1..] + b;
    FindCharUnique(s, '\n', n);
  }

  lemma JoinCons(l: string, ls: seq<string>)
    requires ls != []
    ensures Join([l] + ls) == l + "\n" + Join(ls)
  {
    assert ([l] + ls)[1..] == ls;
  }

  /** The same letter, in any case, where `w` is no capital. */
  predicate SameLetter(c: char, w: char) {
    c == w || ('A' <= c <= 'Z' && c as int + 32 == w as int)
  }

  predicate OccursInAnyCase(s: string, t: string, i: int) {
    0 <= i <= |s| - |t| && forall k :: 0 <= k < |t| ==> SameLetter(s[i + k], t[k])
  }

  predicate ContainsInAnyCase(s: string, t: string) {
    exists i :: 0 <= i <= |s| - |t| && OccursInAnyCase(s, t, i)
  }

  predicate NoCapitals(t: string) {
    forall k :: 0 <= k < |t| ==> !('A' <= t[k] <= 'Z')
  }

  lemma LowerOccurs(s: string, t: string, i: int)
    requires NoCapitals(t) && 0 <= i <= |s| - |t|
    ensures OccursAt(AsciiLower(s), t, i) <==> OccursInAnyCase(s, t, i)
  {
    var window := AsciiLower(s)[i..i + |t|];
    hide AsciiLower, SameLetter, LowerChar;
    forall k | 0 <= k < |t| ensures window[k] == t[k] <==> SameLetter(s[i + k], t[k]) {
      AsciiLowerAt(s, i + k);
      LowerOrSame(s[i + k], t[k]);
    }
  }

  lemma LowerOrSame(c: char, w: char)
    requires !('A' <= w <= 'Z')
    ensures LowerChar(c) == w <==> SameLetter(c, w)
  {
  }

  lemma ContainsLower(s: string, t: string)
    requires NoCapitals(t)
    ensures Contains(AsciiLower(s), t) <==> ContainsInAnyCase(s, t)
  {
    hide AsciiLower, OccursAt, OccursInAnyCase;
    if Contains(AsciiLower(s), t) {
      var i :| 0 <= i <= |AsciiLower(s)| - |t| && OccursAt(AsciiLower(s), t, i);
      LowerOccurs(s, t, i);
    }
    if ContainsInAnyCase(s, t) {
      var i :| 0 <= i <= |s| - |t| && OccursInAnyCase(s, t, i);
      LowerOccurs(s, t, i);
    }
  }

  /** `to_ascii_lowercase` */
  function AsciiLower(s: string): (r: string)
    ensures |r| == |s|
  {
    if s == "" then "" else [LowerChar(s[0])] + AsciiLower(s[1..])
  }

  function LowerChar(c: char): char {
    if 'A' <= c <= 'Z' then c + ('a' - 'A') else c
  }

  lemma {:induction false} AsciiLowerAt(s: string, i: nat)
    requires i < |s|
    ensures AsciiLower(s)[i] == LowerChar(s[i])
  {
    if i > 0 {
      AsciiLowerAt(s[1..], i - 1);
    }
  }
}
