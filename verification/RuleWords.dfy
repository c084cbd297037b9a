/** What the ten built-in rules mean on the words of a command, on the path and on the text written
    (crates/core/src/rule.rs). */
module RuleWords {
  import opened Common
  import opened Text
  import opened Positions
  import opened Rules

  // ---- Words ----

  predicate StartsWithDash(t: string) {
    |t| >= 1 && t[0] == '-'
  }

  /** A word with one dash in front and the letter somewhere after it. */
  predicate ShortFlag(t: string, c: char) {
    |t| >= 2 && t[0] == '-' && t[1] != '-' && exists i :: 1 <= i < |t| && t[i] == c
  }

  predicate FirstAt(ts: Tokens, w: string, k: int) {
    0 <= k < |ts| && ts[k] == w && forall j :: 0 <= j < k ==> ts[j] != w
  }

  predicate IsPush(ts: Tokens, k: int) {
    0 <= k && k + 1 < |ts| && ts[k] == "git" && ts[k + 1] == "push"
  }

  predicate FirstPushAt(ts: Tokens, k: int) {
    IsPush(ts, k) && forall j :: 0 <= j < k ==> !IsPush(ts, j)
  }

  /** Of the words from `from` on, the one at `j` is an operand: it comes after a `--`, or has no dash. */
  predicate OperandAt(ts: Tokens, from: nat, j: int) {
    from <= j < |ts| && ((exists d :: from <= d < j && ts[d] == "--") || !StartsWithDash(ts[j]))
  }

  /** The first word from `from` on that has no dash. */
  predicate PlainAt(ts: Tokens, from: nat, j: int) {
    from <= j < |ts| && !StartsWithDash(ts[j]) && forall i :: from <= i < j ==> StartsWithDash(ts[i])
  }

  // ---- The five red lines ----

  predicate IsForceWord(t: string) {
    t == "--force" || t == "--force-with-lease" || ShortFlag(t, 'f')
  }

  ghost predicate ForcesPush(ts: Tokens) {
    exists k, j :: FirstPushAt(ts, k) && k + 2 <= j < |ts| && IsForceWord(ts[j])
  }

  ghost predicate RemovesTree(ts: Tokens) {
    exists k, j :: FirstAt(ts, "rm", k) && k < j < |ts| && (ts[j] == "--recursive" || ShortFlag(ts[j], 'r'))
  }

  predicate RunsElevated(ts: Tokens) {
    ts != [] && ts[0] in {"sudo", "sudoedit", "pkexec", "doas"}
  }

  predicate IsSensitiveName(p: string) {
    p in {".env", "credentials", ".pem", ".key", "secret"}
  }

  ghost predicate NamesSensitiveFile(path: string) {
    exists p :: IsSensitiveName(p) && Contains(path, p)
  }

  predicate IsKeyName(p: string) {
    || p in {"api_key", "apikey", "api_secret", "apisecret", "private_key", "privatekey"}
    || p in {"access_token", "accesstoken", "-----begin private", "-----begin rsa"}
  }

  ghost predicate NamesKey(text: string) {
    exists p :: IsKeyName(p) && Contains(text, p)
  }

  // ---- The five questions ----

  predicate IsMainWord(t: string) {
    || t == "main" || t == "master"
    || (|t| >= 5 && t[|t| - 5..] == ":main") || (|t| >= 7 && t[|t| - 7..] == ":master")
  }

  predicate LastOperandAt(ts: Tokens, from: nat, j: int) {
    OperandAt(ts, from, j) && forall i :: j < i < |ts| ==> !OperandAt(ts, from, i)
  }

  /** The last operand of the first push names a main branch, and nothing forces. */
  ghost predicate PushesToMain(ts: Tokens) {
    exists k: int, j: int ::
      && FirstPushAt(ts, k) && (forall i :: k + 2 <= i < |ts| ==> !IsForceWord(ts[i]))
      && LastOperandAt(ts, k + 2, j) && IsMainWord(ts[j])
  }

  predicate HasGlob(t: string) {
    exists i :: 0 <= i < |t| && (t[i] == '*' || t[i] == '?')
  }

  predicate AreOperands(ts: Tokens, a: int, b: int, c: int, d: int, e: int) {
    && a < b < c < d < e && OperandAt(ts, 1, a) && OperandAt(ts, 1, b) && OperandAt(ts, 1, c)
    && OperandAt(ts, 1, d) && OperandAt(ts, 1, e)
  }

  ghost predicate FiveOperands(ts: Tokens) {
    exists a, b, c, d, e :: AreOperands(ts, a, b, c, d, e)
  }

  ghost predicate DeletesInBulk(ts: Tokens) {
    ts != [] && ts[0] == "rm" && ((exists j :: 1 <= j < |ts| && HasGlob(ts[j])) || FiveOperands(ts))
  }

  predicate AddsEverything(ts: Tokens) {
    |ts| >= 2 && ts[0] == "git" && ts[1] == "add" && exists j :: 2 <= j < |ts| && ts[j] in {".", "-a", "--all", "*"}
  }

  predicate IsInstall(tool: string, word: string) {
    (tool, word) in {
      ("npm", "install"), ("npm", "i"), ("npm", "add"), ("yarn", "add"), ("pnpm", "add"), ("pnpm", "install"),
      ("pip", "install"), ("pip3", "install"), ("cargo", "install"), ("brew", "install"),
      ("apt", "install"), ("apt-get", "install"), ("dnf", "install"), ("yum", "install") }
  }

  ghost predicate Installs(ts: Tokens) {
    exists j :: PlainAt(ts, 1, j) && IsInstall(ts[0], ts[j])
  }

  ghost predicate PipesDownload(ts: Tokens) {
    exists k, j, i ::
      && FirstAt(ts, "|", k) && PlainAt(ts, 0, j) && j < k && ts[j] in {"curl", "wget", "fetch"}
      && k < i < |ts| && ts[i] in {"bash", "sh", "zsh"}
  }

  // ---- Each matcher ----

  lemma ShortFlagIs(t: string, c: char)
    requires c != '-'
    ensures ShortFlagContains(t, c) <==> ShortFlag(t, c)
  {
    if Dashed(t) {
      assert "--" <= t <==> |t| >= 2 && t[1] == '-';
      assert c in t[1..] <==> exists i :: 1 <= i < |t| && t[i] == c by {
        assert forall i :: 1 <= i < |t| ==> t[1..][i - 1] == t[i];
      }
    }
  }

  lemma ForceWordIs(t: string)
    ensures IsForce(t) <==> IsForceWord(t)
  {
    ShortFlagIs(t, 'f');
  }

  /** Some word from `from` on is `t`. */
  predicate WordFrom(ts: Tokens, from: nat, t: string) {
    exists j :: from <= j < |ts| && ts[j] == t
  }

  lemma WordsAfter(ts: Tokens, from: nat)
    requires from <= |ts|
    ensures forall t :: t in ts[from..] <==> WordFrom(ts, from, t)
  {
    var rest := ts[from..];
    assert forall i :: 0 <= i < |rest| ==> rest[i] == ts[from + i];
    forall t ensures t in rest <==> WordFrom(ts, from, t) {
      if WordFrom(ts, from, t) {
        var j :| from <= j < |ts| && ts[j] == t;
        assert rest[j - from] == t;
      }
    }
  }

  lemma FindWord(ts: Tokens, w: string)
    ensures match FindFrom(ts, 0, IsWord(w))
            case None => forall k :: !FirstAt(ts, w, k)
            case Some(k) => FirstAt(ts, w, k) && forall i :: FirstAt(ts, w, i) ==> i == k
  {
    FindFromSpec(ts, 0, IsWord(w));
    assert forall i: nat :: IsWord(w)(ts, i) <==> i < |ts| && ts[i] == w;
    hide FindFrom, IsWord;
  }

  lemma FindPush(ts: Tokens)
    ensures match FindFrom(ts, 0, GitPushAt())
            case None => forall k :: !FirstPushAt(ts, k)
            case Some(k) => FirstPushAt(ts, k) && forall i :: FirstPushAt(ts, i) ==> i == k
  {
    FindFromSpec(ts, 0, GitPushAt());
    assert forall i: nat :: GitPushAt()(ts, i) <==> IsPush(ts, i);
    hide FindFrom, GitPushAt;
  }

  // ---- Operands by their places ----

  /** `at` are the places of the words without a dash. */
  predicate PlainPlaces(ts: Tokens, at: seq<int>) {
    forall j :: 0 <= j < |ts| ==> (j in at <==> !StartsWithDash(ts[j]))
  }

  lemma {:induction false} UndashedPlaces(ts: Tokens) returns (at: seq<int>)
    ensures Picks(ts, at, Undashed(ts)) && PlainPlaces(ts, at)
  {
    hide *;
    if ts == [] {
      at := [];
      NoWords();
    } else {
      var rest := UndashedPlaces(ts[1..]);
      at := OneWordMore(ts, rest, Undashed(ts[1..]));
      UndashedStep(ts);
    }
  }

  lemma NoWords()
    ensures Picks([], [], Undashed([])) && PlainPlaces([], [])
  {
  }

  lemma UndashedStep(ts: Tokens)
    requires ts != []
    ensures Undashed(ts) == (if StartsWithDash(ts[0]) then [] else [ts[0]]) + Undashed(ts[1..])
  {
  }

  lemma OneWordMore(ts: Tokens, rest: seq<int>, kept: Tokens) returns (at: seq<int>)
    requires ts != [] && Picks(ts[1..], rest, kept) && PlainPlaces(ts[1..], rest)
    ensures PlainPlaces(ts, at)
    ensures Picks(ts, at, (if StartsWithDash(ts[0]) then [] else [ts[0]]) + kept)
  {
    hide StartsWithDash, Picks, Prefixed;
    var stays := !StartsWithDash(ts[0]);
    at := Prefixed(stays, rest);
    PrefixedMembers(ts, rest, kept, stays);
    PrefixedPicks(ts, rest, kept, stays);
  }

  /** `at` are the places of the operands. */
  ghost predicate OperandPlaces(ts: Tokens, at: seq<int>) {
    forall j :: j in at <==> OperandAt(ts, 0, j)
  }

  function Range(from: int, to: int): seq<int>
    requires from <= to
  {
    seq(to - from, i => from + i)
  }

  lemma RangeMembers(from: int, to: int)
    requires from <= to
    ensures forall i :: i in Range(from, to) <==> from <= i < to
  {
    forall i | from <= i < to ensures i in Range(from, to) {
      assert Range(from, to)[i - from] == i;
    }
  }

  lemma PickedPlaces(ts: Tokens, at: seq<int>, kept: Tokens)
    requires Picks(ts, at, kept)
    ensures forall j :: j in at ==> 0 <= j < |ts|
  {
  }

  /** The positional words are the operands, in order. */
  lemma PositionalPlaces(ts: Tokens) returns (at: seq<int>)
    ensures Picks(ts, at, Positional(ts)) && OperandPlaces(ts, at)
  {
    FindWord(ts, "--");
    hide FindFrom, IsWord, Undashed, StartsWithDash;
    match FindFrom(ts, 0, IsWord("--")) {
      case None =>
        at := UndashedPlaces(ts);
        PickedPlaces(ts, at, Undashed(ts));
        NoSeparator(ts, at);
      case Some(k) =>
        var front := UndashedPlaces(ts[..k]);
        at := front + Range(k + 1, |ts|);
        PickedPlaces(ts[..k], front, Undashed(ts[..k]));
        RangeMembers(k + 1, |ts|);
        WithSeparator(ts, k, front);
        AfterPicks(ts, k, front, Undashed(ts[..k]));
    }
  }

  lemma DashDash()
    ensures StartsWithDash("--")
  {
  }

  lemma NoSeparator(ts: Tokens, at: seq<int>)
    requires PlainPlaces(ts, at) && (forall j :: j in at ==> 0 <= j < |ts|)
    requires forall k :: !FirstAt(ts, "--", k)
    ensures OperandPlaces(ts, at)
  {
    hide StartsWithDash;
    forall d | 0 <= d < |ts| ensures ts[d] != "--" {
      NotLater(ts, "--", d);
    }
  }

  lemma {:induction false} NotLater(ts: Tokens, w: string, d: nat)
    requires d < |ts| && forall k :: !FirstAt(ts, w, k)
    ensures ts[d] != w
    decreases d
  {
    forall j | 0 <= j < d ensures ts[j] != w {
      NotLater(ts, w, j);
    }
    assert !FirstAt(ts, w, d);
  }

  lemma WithSeparator(ts: Tokens, k: nat, front: seq<int>)
    requires FirstAt(ts, "--", k) && PlainPlaces(ts[..k], front) && (forall j :: j in front ==> 0 <= j < k)
    ensures OperandPlaces(ts, front + Range(k + 1, |ts|))
  {
    DashDash();
    RangeMembers(k + 1, |ts|);
    hide StartsWithDash, Range;
    var at := front + Range(k + 1, |ts|);
    forall j ensures j in at <==> OperandAt(ts, 0, j) {
      assert 0 <= j < k ==> ts[..k][j] == ts[j];
    }
  }

  lemma AfterPicks(ts: Tokens, k: nat, front: seq<int>, kept: Tokens)
    requires k < |ts| && Picks(ts[..k], front, kept)
    ensures Picks(ts, front + Range(k + 1, |ts|), kept + ts[k + 1..])
  {
    var at := front + Range(k + 1, |ts|);
    assert forall m :: 0 <= m < |front| ==> at[m] == front[m] && ts[..k][front[m]] == ts[front[m]];
    assert forall m :: |front| <= m < |at| ==> at[m] == k + 1 + (m - |front|);
  }

  /** Operands of the words from `from` on. */
  lemma OperandsAfter(ts: Tokens, from: nat, j: int)
    requires from <= |ts| && from <= j
    ensures OperandAt(ts[from..], 0, j - from) <==> OperandAt(ts, from, j)
  {
    hide StartsWithDash;
    var rest := ts[from..];
    assert forall i :: 0 <= i < |rest| ==> rest[i] == ts[from + i];
    if OperandAt(ts, from, j) && StartsWithDash(ts[j]) {
      var d :| from <= d < j && ts[d] == "--";
      assert rest[d - from] == "--";
    }
    if OperandAt(rest, 0, j - from) && StartsWithDash(rest[j - from]) {
      var d :| 0 <= d < j - from && rest[d] == "--";
      assert ts[from + d] == "--";
    }
  }

  /** The last positional word is the last operand. */
  lemma LastPositional(ts: Tokens, from: nat, j: int)
    requires from <= |ts|
    ensures LastOperandAt(ts, from, j) ==>
              Positional(ts[from..]) != [] && Positional(ts[from..])[|Positional(ts[from..])| - 1] == ts[j]
    ensures Positional(ts[from..]) == [] ==> !LastOperandAt(ts, from, j)
  {
    var rest := ts[from..];
    var at := PositionalPlaces(rest);
    hide Positional, OperandAt;
    if LastOperandAt(ts, from, j) {
      OperandIsWord(ts, from, j);
      OperandsAfter(ts, from, j);
      var last := at[|at| - 1];
      assert last in at;
      OperandsAfter(ts, from, last + from);
      assert last == j - from by {
        var m :| 0 <= m < |at| && at[m] == j - from;
        OperandIsWord(rest, 0, last);
      }
      assert rest[last] == ts[j];
    }
  }

  lemma OperandIsWord(ts: Tokens, from: nat, j: int)
    requires OperandAt(ts, from, j)
    ensures from <= j < |ts|
  {
  }

  lemma SomeLast(ts: Tokens, from: nat) returns (j: int)
    requires from <= |ts| && Positional(ts[from..]) != []
    ensures LastOperandAt(ts, from, j)
  {
    hide *;
    var rest := ts[from..];
    var at := PositionalPlaces(rest);
    PlacesIncrease(rest, at, Positional(rest));
    var last := LastPlace(rest, at);
    j := last + from;
    OperandIsWord(rest, 0, last);
    OperandsAfter(ts, from, j);
    forall i | j < i < |ts| ensures !OperandAt(ts, from, i) {
      OperandsAfter(ts, from, i);
    }
    IsLastOperand(ts, from, j);
  }

  lemma IsLastOperand(ts: Tokens, from: nat, j: int)
    requires OperandAt(ts, from, j) && forall i :: j < i < |ts| ==> !OperandAt(ts, from, i)
    ensures LastOperandAt(ts, from, j)
  {
    hide OperandAt;
  }

  lemma LastPlace(ts: Tokens, at: seq<int>) returns (last: int)
    requires at != [] && Increasing(at) && OperandPlaces(ts, at)
    ensures OperandAt(ts, 0, last) && forall i :: last < i < |ts| ==> !OperandAt(ts, 0, i)
  {
    hide OperandAt;
    last := at[|at| - 1];
    assert last in at;
    forall i | last < i < |ts| ensures i !in at {
      assert forall m :: 0 <= m < |at| ==> at[m] <= last;
    }
  }

  // ---- Pushes ----

  lemma ForceAfter(ts: Tokens, from: nat)
    requires from <= |ts|
    ensures HasForceFlag(ts[from..]) <==> exists j :: from <= j < |ts| && IsForceWord(ts[j])
  {
    forall t ensures IsForce(t) <==> IsForceWord(t) {
      ForceWordIs(t);
    }
    hide IsForce, IsForceWord;
    var rest := ts[from..];
    assert forall i :: 0 <= i < |rest| ==> rest[i] == ts[from + i];
    if exists j :: from <= j < |ts| && IsForceWord(ts[j]) {
      var j :| from <= j < |ts| && IsForceWord(ts[j]);
      assert rest[j - from] in rest;
    }
  }

  lemma PushArgsAre(ts: Tokens)
    ensures match PushArgs(ts)
            case None => forall k :: !FirstPushAt(ts, k)
            case Some(args) => exists k: nat :: k + 2 <= |ts| && FirstPushAt(ts, k) && args == ts[k + 2..]
                                                && forall i :: FirstPushAt(ts, i) ==> i == k
  {
    FindPush(ts);
    hide FindFrom, GitPushAt;
  }

  lemma ForcePushIs(ts: Tokens)
    ensures ForcePush(Some(ts)) <==> ForcesPush(ts)
  {
    PushArgsAre(ts);
    hide PushArgs, HasForceFlag, FirstPushAt, IsForceWord;
    if PushArgs(ts).Some? {
      var k: nat :| k + 2 <= |ts| && FirstPushAt(ts, k) && PushArgs(ts).value == ts[k + 2..]
                    && forall i :: FirstPushAt(ts, i) ==> i == k;
      ForceAfter(ts, k + 2);
    }
  }

  lemma MainWordIs(t: string)
    ensures IsMainRef(t) <==> IsMainWord(t)
  {
  }

  lemma MainPushIs(ts: Tokens)
    ensures MainPush(Some(ts)) <==> PushesToMain(ts)
  {
    PushArgsAre(ts);
    hide PushArgs, HasForceFlag, FirstPushAt, IsForceWord, Positional, LastOperandAt, IsMainRef, IsMainWord;
    if PushArgs(ts).Some? {
      var k: nat :| k + 2 <= |ts| && FirstPushAt(ts, k) && PushArgs(ts).value == ts[k + 2..]
                    && forall i :: FirstPushAt(ts, i) ==> i == k;
      ForceAfter(ts, k + 2);
      MainPushAt(ts, k);
    }
  }

  lemma MainPushAt(ts: Tokens, k: nat)
    requires k + 2 <= |ts|
    ensures var args := Positional(ts[k + 2..]);
            (args != [] && IsMainRef(args[|args| - 1])) <==>
            exists j :: LastOperandAt(ts, k + 2, j) && IsMainWord(ts[j])
  {
    hide Positional, IsMainRef, IsMainWord;
    var args := Positional(ts[k + 2..]);
    if args != [] {
      var j := SomeLast(ts, k + 2);
      LastPositional(ts, k + 2, j);
      MainWordIs(ts[j]);
    }
    forall j | LastOperandAt(ts, k + 2, j) ensures args != [] && args[|args| - 1] == ts[j] {
      LastPositional(ts, k + 2, j);
    }
    if exists j :: LastOperandAt(ts, k + 2, j) && IsMainWord(ts[j]) {
      var j :| LastOperandAt(ts, k + 2, j) && IsMainWord(ts[j]);
      MainWordIs(ts[j]);
    }
  }

  // ---- The other matchers ----

  lemma RecursiveIs(t: string)
    ensures IsRecursive(t) <==> t == "--recursive" || ShortFlag(t, 'r')
  {
    ShortFlagIs(t, 'r');
  }

  lemma RemoveIs(ts: Tokens)
    ensures DestructiveRm(Some(ts)) <==> RemovesTree(ts)
  {
    FindWord(ts, "rm");
    hide FindFrom, IsWord, IsRecursive, ShortFlag, FirstAt;
    if FindFrom(ts, 0, IsWord("rm")).Some? {
      var k := FindFrom(ts, 0, IsWord("rm")).value;
      InWords(ts, "rm", k);
      WordsAfter(ts, k + 1);
      if DestructiveRm(Some(ts)) {
        var t :| t in ts[k + 1..] && IsRecursive(t);
        var j :| k + 1 <= j < |ts| && ts[j] == t;
        RecursiveIs(t);
        assert FirstAt(ts, "rm", k);
      }
      if RemovesTree(ts) {
        var i, j :| FirstAt(ts, "rm", i) && i < j < |ts| && (ts[j] == "--recursive" || ShortFlag(ts[j], 'r'));
        RecursiveIs(ts[j]);
        assert WordFrom(ts, k + 1, ts[j]);
      }
    }
  }

  lemma InWords(ts: Tokens, w: string, k: int)
    requires FirstAt(ts, w, k)
    ensures 0 <= k < |ts|
  {
  }

  lemma BulkDeleteIs(ts: Tokens)
    ensures BulkDelete(Some(ts)) <==> DeletesInBulk(ts)
  {
    hide Positional, FiveOperands, HasGlob;
    if ts != [] && ts[0] == "rm" {
      GlobIs(ts);
      FiveIs(ts);
    }
  }

  lemma GlobIs(ts: Tokens)
    requires ts != []
    ensures (exists t :: t in ts[1..] && ('*' in t || '?' in t)) <==> exists j :: 1 <= j < |ts| && HasGlob(ts[j])
  {
    var rest := ts[1..];
    forall t: string ensures ('*' in t || '?' in t) <==> HasGlob(t) {
    }
    hide HasGlob;
    assert forall i :: 0 <= i < |rest| ==> rest[i] == ts[i + 1];
    if exists j :: 1 <= j < |ts| && HasGlob(ts[j]) {
      var j :| 1 <= j < |ts| && HasGlob(ts[j]);
      assert rest[j - 1] in rest;
    }
  }

  lemma FiveIs(ts: Tokens)
    requires ts != []
    ensures |Positional(ts[1..])| >= 5 <==> FiveOperands(ts)
  {
    hide *;
    var at := PositionalPlaces(ts[1..]);
    PlacesIncrease(ts[1..], at, Positional(ts[1..]));
    if |at| >= 5 {
      FiveFound(ts, at);
    }
    if FiveOperands(ts) {
      FiveNeeded(ts, at);
    }
  }

  lemma PlacesIncrease(ts: Tokens, at: seq<int>, kept: Tokens)
    requires Picks(ts, at, kept)
    ensures Increasing(at) && |at| == |kept|
  {
  }

  lemma FiveNeeded(ts: Tokens, at: seq<int>)
    requires ts != [] && OperandPlaces(ts[1..], at) && Increasing(at) && FiveOperands(ts)
    ensures |at| >= 5
  {
    var a, b, c, d, e :| AreOperands(ts, a, b, c, d, e);
    hide OperandAt, OperandPlaces, FiveOperands;
    var k := PlaceOf(ts, at, a);
    var l := PlaceOf(ts, at, b);
    var m := PlaceOf(ts, at, c);
    var n := PlaceOf(ts, at, d);
    var o := PlaceOf(ts, at, e);
    hide *;
    Before(at, k, l);
    Before(at, l, m);
    Before(at, m, n);
    Before(at, n, o);
  }

  lemma Before(at: seq<int>, m: nat, n: nat)
    requires Increasing(at) && m < |at| && n < |at| && at[m] < at[n]
    ensures m < n
  {
  }

  lemma PlaceOf(ts: Tokens, at: seq<int>, j: int) returns (m: nat)
    requires ts != [] && OperandPlaces(ts[1..], at) && OperandAt(ts, 1, j)
    ensures m < |at| && at[m] == j - 1
  {
    hide OperandAt;
    OperandIsWord(ts, 1, j);
    OperandsAfter(ts, 1, j);
    assert j - 1 in at;
    m :| 0 <= m < |at| && at[m] == j - 1;
  }

  lemma PlaceIsOperand(ts: Tokens, at: seq<int>, m: nat)
    requires ts != [] && OperandPlaces(ts[1..], at) && m < |at|
    ensures OperandAt(ts, 1, at[m] + 1)
  {
    hide OperandAt;
    assert at[m] in at;
    OperandIsWord(ts[1..], 0, at[m]);
    OperandsAfter(ts, 1, at[m] + 1);
  }

  lemma FiveFound(ts: Tokens, at: seq<int>)
    requires ts != [] && OperandPlaces(ts[1..], at) && Increasing(at) && |at| >= 5
    ensures FiveOperands(ts)
  {
    hide OperandAt, OperandPlaces;
    PlaceIsOperand(ts, at, 0);
    PlaceIsOperand(ts, at, 1);
    PlaceIsOperand(ts, at, 2);
    PlaceIsOperand(ts, at, 3);
    PlaceIsOperand(ts, at, 4);
    assert at[0] < at[1] < at[2] < at[3] < at[4];
    assert AreOperands(ts, at[0] + 1, at[1] + 1, at[2] + 1, at[3] + 1, at[4] + 1);
  }

  lemma AddsAllIs(ts: Tokens)
    ensures AddsAll(Command(ts)) <==> AddsEverything(ts)
  {
    AddWords();
    if |ts| >= 2 {
      WordsAfter(ts, 2);
      if AddsAll(Command(ts)) {
        var t :| t in ts[2..] && t in ADD_ALL;
        var j :| 2 <= j < |ts| && ts[j] == t;
        assert ts[j] in {".", "-a", "--all", "*"};
      }
      if AddsEverything(ts) {
        var j :| 2 <= j < |ts| && ts[j] in {".", "-a", "--all", "*"};
        assert WordFrom(ts, 2, ts[j]);
      }
    }
  }

  lemma AddWords()
    ensures forall t :: t in ADD_ALL <==> t in {".", "-a", "--all", "*"}
  {
  }

  /** An event that is a command and nothing else. */
  function Command(ts: Tokens): ToolUse {
    ToolUse(Some(ts), None, None, None)
  }

  lemma AllDashed(ts: Tokens)
    requires Undashed(ts) == []
    ensures forall i :: 0 <= i < |ts| ==> StartsWithDash(ts[i])
  {
    hide Undashed, StartsWithDash;
    var at := UndashedPlaces(ts);
    PlacesIncrease(ts, at, []);
    assert at == [];
  }

  lemma NoPlainWord(ts: Tokens, from: nat, to: nat)
    requires from <= to <= |ts| && Undashed(ts[from..to]) == []
    ensures forall j :: PlainAt(ts, from, j) ==> to <= j
  {
    hide Undashed, StartsWithDash;
    var part := ts[from..to];
    AllDashed(part);
    forall i | from <= i < to ensures StartsWithDash(ts[i]) {
      assert part[i - from] == ts[i];
    }
  }

  lemma FirstPlainWord(ts: Tokens, from: nat, to: nat) returns (j: int)
    requires from <= to <= |ts| && Undashed(ts[from..to]) != []
    ensures PlainAt(ts, from, j) && j < to && ts[j] == Undashed(ts[from..to])[0]
  {
    var part := ts[from..to];
    var at := UndashedPlaces(part);
    hide Undashed, StartsWithDash;
    assert forall i :: 0 <= i < |part| ==> part[i] == ts[from + i];
    j := at[0] + from;
    assert at[0] in at;
    forall i | from <= i < j ensures StartsWithDash(ts[i]) {
      assert i - from !in at;
    }
  }

  lemma OnePlainWord(ts: Tokens, from: nat, i: int, j: int)
    requires PlainAt(ts, from, i) && PlainAt(ts, from, j)
    ensures i == j
  {
  }

  lemma InstallIs(tool: string, word: string)
    ensures word in InstallWords(tool) <==> IsInstall(tool, word)
  {
  }

  lemma InstallsIs(ts: Tokens)
    ensures InstallsPackage(Command(ts)) <==> Installs(ts)
  {
    hide Undashed, InstallWords, IsInstall, PlainAt;
    PlainIsWord(ts, 1);
    if ts != [] {
      assert ts[1..|ts|] == ts[1..];
      if Undashed(ts[1..]) == [] {
        NoPlainWord(ts, 1, |ts|);
      } else {
        var j := FirstPlainWord(ts, 1, |ts|);
        InstallIs(ts[0], ts[j]);
        forall i | PlainAt(ts, 1, i) ensures i == j {
          OnePlainWord(ts, 1, i, j);
        }
      }
    }
  }

  lemma PlainIsWord(ts: Tokens, from: nat)
    ensures forall j :: PlainAt(ts, from, j) ==> from <= j < |ts|
  {
  }

  lemma PipeIs(ts: Tokens)
    ensures PipesToShell(Command(ts)) <==> PipesDownload(ts)
  {
    FindWord(ts, "|");
    hide FindFrom, IsWord, Undashed, PlainAt, FirstAt;
    if FindFrom(ts, 0, IsWord("|")).Some? {
      var k := FindFrom(ts, 0, IsWord("|")).value;
      InWords(ts, "|", k);
      WordsAfter(ts, k + 1);
      PlainIsWord(ts, 0);
      assert ts[0..k] == ts[..k];
      if Undashed(ts[..k]) == [] {
        NoPlainWord(ts, 0, k);
      } else {
        var j := FirstPlainWord(ts, 0, k);
        forall i | PlainAt(ts, 0, i) ensures i == j {
          OnePlainWord(ts, 0, i, j);
        }
        PipeAt(ts, k, j);
      }
    }
  }

  lemma PipeAt(ts: Tokens, k: int, j: int)
    requires FirstAt(ts, "|", k) && (forall i :: FirstAt(ts, "|", i) ==> i == k)
    requires PlainAt(ts, 0, j) && (forall i :: PlainAt(ts, 0, i) ==> i == j) && j < k
    ensures PipesDownload(ts) <==> ts[j] in DOWNLOADERS && exists t :: t in ts[k + 1..] && t in SHELLS
  {
    WordsAfter(ts, k + 1);
    PlainIsWord(ts, 0);
    DownloadWords();
    hide PlainAt, FirstAt;
    if exists t :: t in ts[k + 1..] && t in SHELLS {
      var t :| t in ts[k + 1..] && t in SHELLS;
      var i :| k + 1 <= i < |ts| && ts[i] == t;
      assert ts[i] in {"bash", "sh", "zsh"};
    }
    if i :| k < i < |ts| && ts[i] in {"bash", "sh", "zsh"} {
      assert WordFrom(ts, k + 1, ts[i]) && ts[i] in SHELLS;
    }
  }

  lemma DownloadWords()
    ensures forall t :: t in DOWNLOADERS <==> t in {"curl", "wget", "fetch"}
    ensures forall t :: t in SHELLS <==> t in {"bash", "sh", "zsh"}
  {
  }

  lemma CommandOnly(e: ToolUse, ts: Tokens)
    requires e.tokens == Some(ts)
    ensures AddsAll(e) <==> AddsAll(Command(ts))
    ensures InstallsPackage(e) <==> InstallsPackage(Command(ts))
    ensures PipesToShell(e) <==> PipesToShell(Command(ts))
    ensures Elevates(e) <==> RunsElevated(ts)
  {
  }

  lemma FilesAndTexts(e: ToolUse)
    ensures SensitiveFile(e) <==> e.filePath.Some? && NamesSensitiveFile(e.filePath.value)
    ensures WritesSecret(e) <==>
            (e.newString.Some? && NamesKey(e.newString.value)) || (e.content.Some? && NamesKey(e.content.value))
  {
    if e.filePath.Some? {
      SensitiveIs(e.filePath.value);
    }
    if e.newString.Some? {
      KeyIs(e.newString.value);
    }
    if e.content.Some? {
      KeyIs(e.content.value);
    }
    hide Contains, NamesKey, NamesSensitiveFile;
  }

  lemma SensitiveNames()
    ensures forall p :: p in SENSITIVE <==> IsSensitiveName(p)
  {
  }

  lemma KeyNames()
    ensures forall p :: p in SECRETS <==> IsKeyName(p)
  {
  }

  lemma SensitiveIs(path: string)
    ensures ContainsAny(Some(path), SENSITIVE) <==> NamesSensitiveFile(path)
  {
    SensitiveNames();
    hide Contains, IsSensitiveName;
  }

  lemma KeyIs(text: string)
    ensures ContainsAny(Some(text), SECRETS) <==> NamesKey(text)
  {
    KeyNames();
    hide Contains, IsKeyName;
  }

  // ---- The policy ----

  /** A red line is crossed: by the words of the command, the path, or the text to be written. */
  ghost predicate CrossesRedLine(e: ToolUse) {
    || (e.tokens.Some? && var ts := e.tokens.value;
        ForcesPush(ts) || RemovesTree(ts) || RunsElevated(ts))
    || (e.filePath.Some? && NamesSensitiveFile(e.filePath.value))
    || (e.newString.Some? && NamesKey(e.newString.value))
    || (e.content.Some? && NamesKey(e.content.value))
  }

  /** The command is one to ask about in a mode of this level. */
  ghost predicate NeedsQuestion(level: nat, ts: Tokens) {
    DeletesInBulk(ts) || (level >= 2 && (PushesToMain(ts) || AddsEverything(ts) || Installs(ts) || PipesDownload(ts)))
  }

  lemma DeniedIs(e: ToolUse)
    ensures Denied(e) <==> CrossesRedLine(e)
  {
    FilesAndTexts(e);
    if e.tokens.Some? {
      ForcePushIs(e.tokens.value);
      RemoveIs(e.tokens.value);
      CommandOnly(e, e.tokens.value);
    }
    hide ForcePush, ForcesPush, DestructiveRm, RemovesTree, RunsElevated, NamesSensitiveFile, NamesKey, SensitiveFile,
         WritesSecret;
    NoCommand(e);
    hide Elevates;
  }

  lemma NoCommand(e: ToolUse)
    ensures e.tokens.None? ==>
              && !ForcePush(e.tokens) && !DestructiveRm(e.tokens) && !Elevates(e)
              && !MainPush(e.tokens) && !BulkDelete(e.tokens) && !AddsAll(e) && !InstallsPackage(e) && !PipesToShell(e)
  {
  }

  lemma AskedIs(mode: Mode, e: ToolUse)
    ensures Asked(mode, e) <==> e.tokens.Some? && NeedsQuestion(Level(mode), e.tokens.value)
  {
    NoCommand(e);
    if e.tokens.Some? {
      var ts := e.tokens.value;
      MainPushIs(ts);
      BulkDeleteIs(ts);
      AddsAllIs(ts);
      InstallsIs(ts);
      PipeIs(ts);
      CommandOnly(e, ts);
    }
    hide MainPush, PushesToMain, BulkDelete, DeletesInBulk, AddsAll, AddsEverything, InstallsPackage, Installs,
         PipesToShell, PipesDownload;
  }

  /** The built-in policy on words. Above Observer an operation is denied exactly when it crosses a red line; otherwise
      it is asked about exactly when its command needs the question in this mode or the mode is Paranoid; otherwise it
      is allowed. Observer allows everything. */
  lemma PolicyOnWords(mode: Mode, e: ToolUse)
    ensures var action := Evaluate(BuiltInRules(), mode, e).action;
            if mode == Observer then action == Allow
            else if CrossesRedLine(e) then action == Deny
            else if mode == Paranoid || (e.tokens.Some? && NeedsQuestion(Level(mode), e.tokens.value)) then
              action == Ask
            else action == Allow
  {
    if mode == Observer {
      ObserverNamesParanoidRule(BuiltInRules(), e);
    } else {
      BuiltInPolicy(mode, e);
    }
    hide *;
    DeniedIs(e);
    AskedIs(mode, e);
  }

  /** The rule an operation is decided by: the last red line crossed in the built-in order, or the last question. */
  ghost function RuleOnWords(mode: Mode, e: ToolUse): string {
    var ts := e.tokens.GetOr([]);
    var guarded := mode.Guard? || mode.Paranoid?;
    if (e.newString.Some? && NamesKey(e.newString.value)) || (e.content.Some? && NamesKey(e.content.value)) then "D007"
    else if e.filePath.Some? && NamesSensitiveFile(e.filePath.value) then "D006"
    else if RunsElevated(ts) then "D004"
    else if RemovesTree(ts) then "D003"
    else if ForcesPush(ts) then "D002"
    else if guarded && PipesDownload(ts) then "D011"
    else if guarded && Installs(ts) then "D010"
    else if guarded && AddsEverything(ts) then "D008"
    else if DeletesInBulk(ts) then "D005"
    else "D001"
  }

  lemma NoWordsMeanNothing()
    ensures !RunsElevated([]) && !RemovesTree([]) && !ForcesPush([]) && !PipesDownload([]) && !Installs([])
    ensures !AddsEverything([]) && !DeletesInBulk([])
  {
  }

  lemma RuleIds()
    ensures var rules := BuiltInRules();
            && |rules| == 10
            && rules[0].id == "D002" && rules[1].id == "D003" && rules[2].id == "D004" && rules[3].id == "D006"
            && rules[4].id == "D007" && rules[5].id == "D001" && rules[6].id == "D005" && rules[7].id == "D008"
            && rules[8].id == "D010" && rules[9].id == "D011"
  {
  }

  lemma MatchersOnWords(e: ToolUse)
    ensures var ts := e.tokens.GetOr([]);
            && (ForcePush(e.tokens) <==> ForcesPush(ts)) && (DestructiveRm(e.tokens) <==> RemovesTree(ts))
            && (Elevates(e) <==> RunsElevated(ts)) && (BulkDelete(e.tokens) <==> DeletesInBulk(ts))
            && (AddsAll(e) <==> AddsEverything(ts)) && (InstallsPackage(e) <==> Installs(ts))
            && (PipesToShell(e) <==> PipesDownload(ts))
  {
    NoCommand(e);
    NoWordsMeanNothing();
    if e.tokens.Some? {
      var ts := e.tokens.value;
      ForcePushIs(ts);
      RemoveIs(ts);
      BulkDeleteIs(ts);
      AddsAllIs(ts);
      InstallsIs(ts);
      PipeIs(ts);
      CommandOnly(e, ts);
    }
    hide ForcePush, ForcesPush, DestructiveRm, RemovesTree, BulkDelete, DeletesInBulk, AddsAll, AddsEverything,
         InstallsPackage, Installs, PipesToShell, PipesDownload, RunsElevated, Elevates;
  }

  /** Which rule an operation is decided by that is denied or asked about. */
  lemma RuleNamed(mode: Mode, e: ToolUse)
    requires mode != Observer
    ensures CrossesRedLine(e) || (e.tokens.Some? && NeedsQuestion(Level(mode), e.tokens.value)) ==>
              Evaluate(BuiltInRules(), mode, e).ruleId == Some(RuleOnWords(mode, e))
  {
    BuiltInPolicy(mode, e);
    DeniedIs(e);
    AskedIs(mode, e);
    MatchersOnWords(e);
    FilesAndTexts(e);
    RuleIds();
    hide ForcePush, ForcesPush, DestructiveRm, RemovesTree, BulkDelete, DeletesInBulk, AddsAll, AddsEverything,
         InstallsPackage, Installs, PipesToShell, PipesDownload, RunsElevated, Elevates, SensitiveFile, WritesSecret,
         NamesKey, NamesSensitiveFile, BuiltInRules, Evaluate, Denied, Asked, CrossesRedLine, NeedsQuestion;
    if WritesSecret(e) {
    } else if SensitiveFile(e) {
    } else if Elevates(e) {
    } else if DestructiveRm(e.tokens) {
    } else if ForcePush(e.tokens) {
    } else if Level(mode) >= Level(Guard) {
      if PipesToShell(e) {
      } else if InstallsPackage(e) {
      } else if AddsAll(e) {
      } else if BulkDelete(e.tokens) {
      }
    } else if BulkDelete(e.tokens) {
    }
  }
}
