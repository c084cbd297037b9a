/** How one workflow step's log becomes the next step's prompt: log selection,
    redaction and the byte bound (crates/bridge/src/workflows.rs). */
module ContextText {
  import opened Common
  import opened Text

  const MAX_CONTEXT_BYTES: nat := 65536

  datatype LogRow = LogRow(stream: string, chunk: string)
  datatype StepPrompt = StepPrompt(prompt: string, inputContextBytes: nat)

  // ---- Log selection ----

  function OutputChunks(rows: seq<LogRow>): seq<string> {
    if rows == [] then []
    else
      (if rows[0].stream == "stdout" || rows[0].stream == "stderr" then [rows[0].chunk] else [])
      + OutputChunks(rows[1..])
  }

  function LastChunks(chunks: seq<string>, n: nat): seq<string> {
    if |chunks| <= n then chunks else chunks[|chunks| - n..]
  }

  function LogsForContext(rows: seq<LogRow>, strategy: string): string {
    var output := OutputChunks(rows);
    if strategy == "none" then ""
    else if strategy == "last_50_lines" then Join(LastChunks(output, 50))
    else if strategy == "last_100_lines" then Join(LastChunks(output, 100))
    else if strategy == "full_log" then Join(output)
    else ""
  }

  // ---- Redaction ----

  const BEARER := "authorization: bearer"
  const REDACTED := "[REDACTED]"

  predicate IsBearerLine(line: string) {
    Contains(AsciiLower(line), BEARER)
  }

  predicate NamesSecret(line: string) {
    var lower := AsciiLower(line);
    || Contains(lower, "api_key") || Contains(lower, "apikey") || Contains(lower, "password")
    || Contains(lower, "secret") || Contains(lower, "token")
  }

  function RedactLine(line: string): string {
    if IsBearerLine(line) then BEARER + " " + REDACTED
    else if NamesSecret(line) then
      var eq := FindChar(line, '=');
      var colon := FindChar(line, ':');
      if eq < |line| then TrimEnd(line[..eq]) + "=" + REDACTED
      else if colon < |line| then TrimEnd(line[..colon]) + ": " + REDACTED
      else REDACTED
    else line
  }

  function RedactLines(lines: seq<string>): (r: seq<string>)
    ensures |r| == |lines|
    ensures forall i :: 0 <= i < |lines| ==> r[i] == RedactLine(lines[i])
  {
    seq(|lines|, i requires 0 <= i < |lines| => RedactLine(lines[i]))
  }

  function RedactContext(input: string, policy: string): string {
    if policy == "none" then input else Join(RedactLines(Lines(input)))
  }

  lemma {:induction false} TrimEndIsPrefix(s: string)
    ensures TrimEnd(s) <= s
    ensures TrimEnd(TrimEnd(s)) == TrimEnd(s)
  {
    if s != "" && IsWhitespace(s[|s| - 1]) {
      TrimEndIsPrefix(s[..|s| - 1]);
    }
  }

  lemma BearerShape(b: string)
    requires b == BEARER
    ensures |b| == 21 && b[15] == 'b'
    ensures forall k :: 0 <= k < |b| ==> b[k] != '=' && (b[k] == ':' ==> k == 13)
  {
  }

  /** `key` cut before the value, with a constant that contains neither the bearer text nor a way to complete it. */
  lemma NotBearerAfterCut(line: string, key: string, sep: char, rest: string)
    requires key <= line && !IsBearerLine(line)
    requires |rest| < |BEARER|
    requires LowerChar(sep) == sep
    requires sep == '=' || (sep == ':' && 2 <= |rest| && rest[0] == ' ' && rest[1] == '[')
    ensures !IsBearerLine(key + [sep] + rest)
  {
    var r := key + [sep] + rest;
    var lower := AsciiLower(r);
    if IsBearerLine(r) {
      var i :| 0 <= i <= |lower| - |BEARER| && OccursAt(lower, BEARER, i);
      if i + |BEARER| <= |key| {
        forall k | 0 <= k < |BEARER| ensures AsciiLower(line)[i + k] == BEARER[k] {
          AsciiLowerAt(line, i + k);
          AsciiLowerAt(r, i + k);
          assert lower[i..i + |BEARER|][k] == BEARER[k];
        }
        assert AsciiLower(line)[i..i + |BEARER|] == BEARER;
        assert OccursAt(AsciiLower(line), BEARER, i);
      } else {
        BearerShape(BEARER);
        BearerCannotStraddle(r, |key|, i, BEARER);
      }
    }
  }

  lemma BearerCannotStraddle(r: string, cut: nat, i: nat, bearer: string)
    requires |bearer| == 21 && bearer[15] == 'b'
    requires forall k :: 0 <= k < |bearer| ==> bearer[k] != '=' && (bearer[k] == ':' ==> k == 13)
    requires i <= cut < i + |bearer| <= |r|
    requires LowerChar(r[cut]) == r[cut]
    requires r[cut] == '=' || (r[cut] == ':' && cut + 2 < |r| && r[cut + 2] == '[')
    ensures !OccursAt(AsciiLower(r), bearer, i)
  {
    var window := AsciiLower(r)[i..i + |bearer|];
    AsciiLowerAt(r, cut);
    assert window[cut - i] == r[cut];
    AsciiLowerAt(r, i + 15);
    assert window[15] == LowerChar(r[i + 15]);
  }

  lemma CutKey(line: string, sep: char, key: string, rest: string)
    requires FindChar(line, sep) < |line| && key == TrimEnd(line[..FindChar(line, sep)])
    ensures key <= line && TrimEnd(key) == key
    ensures FindChar(key + [sep] + rest, sep) == |key| && (key + [sep] + rest)[..|key|] == key
  {
    var before := line[..FindChar(line, sep)];
    TrimEndIsPrefix(before);
    var r := key + [sep] + rest;
    assert r[..|key|] == key == before[..|key|];
    assert sep !in before[..|key|];
    FindCharUnique(r, sep, |key|);
  }

  /** Redacting twice is redacting once. */
  lemma RedactLineIdempotent(line: string)
    ensures RedactLine(RedactLine(line)) == RedactLine(line)
  {
    if IsBearerLine(line) {
      BearerRedactionFixed();
    } else if NamesSecret(line) {
      var eq := FindChar(line, '=');
      var colon := FindChar(line, ':');
      if eq < |line| {
        var key := TrimEnd(line[..eq]);
        CutKey(line, '=', key, REDACTED);
        NotBearerAfterCut(line, key, '=', REDACTED);
        assert key + "=" + REDACTED == key + ['='] + REDACTED;
      } else if colon < |line| {
        var key := TrimEnd(line[..colon]);
        ColonCutShape(line, key, REDACTED, key + ": " + REDACTED);
        RedactAtColon(key + ": " + REDACTED, key);
      } else {
        RedactedMarkFixed();
      }
    }
  }

  lemma BearerRedactionFixed()
    ensures IsBearerLine(BEARER + " " + REDACTED)
  {
    var r := BEARER + " " + REDACTED;
    forall k | 0 <= k < |BEARER| ensures AsciiLower(r)[k] == BEARER[k] {
      AsciiLowerAt(r, k);
    }
    assert AsciiLower(r)[0..|BEARER|] == BEARER;
    assert OccursAt(AsciiLower(r), BEARER, 0);
  }

  lemma ColonCutShape(line: string, key: string, mark: string, r: string)
    requires !IsBearerLine(line) && FindChar(line, '=') == |line|
    requires FindChar(line, ':') < |line| && key == TrimEnd(line[..FindChar(line, ':')])
    requires r == key + ": " + mark && 0 < |mark| < 20 && mark[0] == '[' && '=' !in mark
    ensures !IsBearerLine(r) && FindChar(r, '=') == |r|
    ensures |key| < |r| && FindChar(r, ':') == |key| && r[..|key|] == key && TrimEnd(key) == key
  {
    var rest := " " + mark;
    ColonRest(key, mark);
    CutKey(line, ':', key, rest);
    NotBearerAfterCut(line, key, ':', rest);
    KeyHasNoEquals(line, key);
    NoEqualsAfterColonCut(key, rest, r);
  }

  lemma ColonRest(key: string, mark: string)
    ensures key + ": " + mark == key + [':'] + (" " + mark)
  {
  }

  lemma KeyHasNoEquals(line: string, key: string)
    requires key <= line && FindChar(line, '=') == |line|
    ensures '=' !in key
  {
    assert line[..|line|] == line;
    assert key == line[..|key|];
  }

  lemma NoEqualsAfterColonCut(key: string, rest: string, r: string)
    requires '=' !in key && '=' !in rest && r == key + [':'] + rest
    ensures FindChar(r, '=') == |r|
  {
    assert r[..|r|] == r;
    FindCharUnique(r, '=', |r|);
  }

  lemma RedactAtColon(r: string, key: string)
    requires !IsBearerLine(r) && FindChar(r, '=') == |r|
    requires |key| < |r| && FindChar(r, ':') == |key| && r[..|key|] == key && TrimEnd(key) == key
    requires r == key + ": " + REDACTED
    ensures RedactLine(r) == r
  {
  }

  lemma RedactedMarkFixed()
    ensures RedactLine(REDACTED) == REDACTED
  {
    NoSeparatorFixed(REDACTED);
  }

  lemma NoSeparatorFixed(mark: string)
    requires |mark| < 21 && '=' !in mark && ':' !in mark
    ensures RedactLine(mark) in {mark, REDACTED}
  {
    assert mark[..|mark|] == mark;
    FindCharUnique(mark, '=', |mark|);
    FindCharUnique(mark, ':', |mark|);
    assert |AsciiLower(mark)| < |BEARER|;
  }

  /** Where the first `=` or `:` stands. */
  function FirstSeparator(line: string): nat {
    Min(FindChar(line, '='), FindChar(line, ':'))
  }

  /** Only the text before the first separator is left, without blanks at its end. */
  predicate KeepsOnlyKey(line: string) {
    FirstSeparator(line) <= |line| &&
    var key := TrimEnd(line[..FirstSeparator(line)]);
    RedactLine(line) == key + "=" + REDACTED || RedactLine(line) == key + ": " + REDACTED
  }

  lemma TrimEndKeeps(s: string, n: nat)
    requires n < |s| && !IsWhitespace(s[n])
    ensures |TrimEnd(s)| > n
  {
    if IsWhitespace(s[|s| - 1]) {
      TrimEndKeeps(s[..|s| - 1], n);
    }
  }

  lemma TrimEndShorter(s: string)
    ensures |TrimEnd(s)| <= |s|
  {
  }

  lemma MarksDiffer(a: string, b: string)
    requires |b| < |a|
    ensures a + "=" + REDACTED != b + "=" + REDACTED && a + "=" + REDACTED != b + ": " + REDACTED
  {
    var s, t := a + "=" + REDACTED, b + ": " + REDACTED;
    assert |a + "=" + REDACTED| > |b + "=" + REDACTED|;
    assert s[|s| - 11] == '=' && t[|t| - 11] == ' ';
  }

  /** Of a line that names a secret nothing after the first `=` or `:` is left exactly when that separator is `=` or
      the line has no `=`. A line without either is replaced as a whole. */
  lemma RedactionHidesRest(line: string)
    requires NamesSecret(line) && !IsBearerLine(line)
    ensures var n := FirstSeparator(line);
            if n < |line| then KeepsOnlyKey(line) <==> line[n] == '=' || '=' !in line
            else RedactLine(line) == REDACTED
  {
    var eq, colon := FindChar(line, '='), FindChar(line, ':');
    assert '=' in line <==> eq < |line| by {
      assert line[..|line|] == line;
    }
    hide NamesSecret, IsBearerLine;
    if colon < eq < |line| {
      assert line[colon] == ':' && line[..eq][colon] == ':';
      TrimEndKeeps(line[..eq], colon);
      TrimEndShorter(line[..colon]);
      MarksDiffer(TrimEnd(line[..eq]), TrimEnd(line[..colon]));
    }
  }

  /** Two lines that name a secret and agree up to the first separator are redacted alike, provided no `=` comes
      after a first `:`. */
  lemma RedactionHidesValue(key: string, sep: char, a: string, b: string)
    requires '=' !in key && ':' !in key && sep in {'=', ':'}
    requires forall v :: v in [a, b] ==> NamesSecret(key + [sep] + v) && !IsBearerLine(key + [sep] + v)
    requires sep == ':' ==> '=' !in a && '=' !in b
    ensures RedactLine(key + [sep] + a) == RedactLine(key + [sep] + b)
  {
    assert a in [a, b] && b in [a, b];
    ValueCut(key, sep, a);
    ValueCut(key, sep, b);
  }

  lemma ValueCut(key: string, sep: char, v: string)
    requires '=' !in key && ':' !in key && sep in {'=', ':'} && (sep == ':' ==> '=' !in v)
    ensures var line := key + [sep] + v;
            && FindChar(line, sep) == |key| && line[..|key|] == key
            && (sep == ':' ==> FindChar(line, '=') == |line|)
  {
    var line := key + [sep] + v;
    assert line[..|key|] == key && line[|key|] == sep;
    FindCharUnique(line, sep, |key|);
    if sep == ':' {
      assert line[..|line|] == line;
      FindCharUnique(line, '=', |line|);
    }
  }

  /** With an `=` after a first `:`, what stands between them is left. */
  lemma ValueBeforeEqualsLeaks(key: string, v: string)
    requires '=' !in key && NamesSecret(key + "=" + v) && !IsBearerLine(key + "=" + v)
    ensures RedactLine(key + "=" + v) == TrimEnd(key) + "=" + REDACTED
  {
    var line := key + "=" + v;
    assert line[..|key|] == key && line[|key|] == '=';
    FindCharUnique(line, '=', |key|);
  }

  /** Such lines: of `password: hunter2=x` the value `hunter2` is left. */
  lemma PasswordLeaks(value: string, rest: string)
    requires value != "" && '=' !in value && !IsWhitespace(value[|value| - 1])
    requires !IsBearerLine("password: " + value + "=" + rest)
    ensures RedactLine("password: " + value + "=" + rest) == "password: " + value + "=" + REDACTED
  {
    var key := "password: " + value;
    PasswordNamesSecret(key + "=" + rest);
    ValueBeforeEqualsLeaks(key, rest);
    NoBlankAtEnd(key);
  }

  lemma PasswordNamesSecret(line: string)
    requires "password" <= line
    ensures NamesSecret(line)
  {
    forall k | 0 <= k < 8 ensures AsciiLower(line)[k] == "password"[k] {
      AsciiLowerAt(line, k);
    }
    assert AsciiLower(line)[0..8] == "password" && OccursAt(AsciiLower(line), "password", 0);
  }

  lemma NoBlankAtEnd(s: string)
    requires s != "" && !IsWhitespace(s[|s| - 1])
    ensures TrimEnd(s) == s
  {
  }

  // ---- Redaction, said on the characters of a line ----

  ghost predicate MentionsSecret(line: string) {
    || ContainsInAnyCase(line, "api_key") || ContainsInAnyCase(line, "apikey") || ContainsInAnyCase(line, "password")
    || ContainsInAnyCase(line, "secret") || ContainsInAnyCase(line, "token")
  }

  /** `key` is what stands before the first `sep`, without the blanks at its end. */
  ghost predicate IsKey(line: string, sep: char, key: string) {
    exists n :: 0 <= n < |line| && line[n] == sep && sep !in line[..n] && IsCutAtEnd(line[..n], key)
  }

  ghost predicate IsCutAtEnd(s: string, t: string) {
    && t <= s && (t != "" ==> !IsWhitespace(t[|t| - 1]))
    && forall k :: |t| <= k < |s| ==> IsWhitespace(s[k])
  }

  /** A line with a bearer token becomes a constant; one that mentions a secret keeps at most its key; any other stays
      as it is. */
  ghost predicate IsRedactedLine(line: string, r: string) {
    if ContainsInAnyCase(line, "authorization: bearer") then r == "authorization: bearer [REDACTED]"
    else if !MentionsSecret(line) then r == line
    else if '=' in line then exists key :: IsKey(line, '=', key) && r == key + "=[REDACTED]"
    else if ':' in line then exists key :: IsKey(line, ':', key) && r == key + ": [REDACTED]"
    else r == "[REDACTED]"
  }

  lemma SecretMentioned(line: string)
    ensures NamesSecret(line) <==> MentionsSecret(line)
  {
    hide AsciiLower, Contains, ContainsInAnyCase;
    ContainsLower(line, "api_key");
    ContainsLower(line, "apikey");
    ContainsLower(line, "password");
    ContainsLower(line, "secret");
    ContainsLower(line, "token");
  }

  lemma {:induction false} TrimEndTrims(s: string)
    ensures IsCutAtEnd(s, TrimEnd(s))
  {
    if s != "" && IsWhitespace(s[|s| - 1]) {
      TrimEndTrims(s[..|s| - 1]);
    }
  }

  lemma KeyBefore(line: string, sep: char)
    ensures sep in line <==> FindChar(line, sep) < |line|
    ensures sep in line ==> IsKey(line, sep, TrimEnd(line[..FindChar(line, sep)]))
  {
    TrimEndTrims(line[..FindChar(line, sep)]);
    assert line[..|line|] == line;
    hide IsCutAtEnd, TrimEnd;
  }

  lemma RedactLineExactly(line: string)
    ensures IsRedactedLine(line, RedactLine(line))
  {
    ContainsLower(line, BEARER);
    SecretMentioned(line);
    KeyBefore(line, '=');
    KeyBefore(line, ':');
    hide NamesSecret, MentionsSecret, IsKey, TrimEnd, ContainsInAnyCase, Contains, AsciiLower;
    Marks(TrimEnd(line[..FindChar(line, '=')]), TrimEnd(line[..FindChar(line, ':')]));
    if IsBearerLine(line) {
      assert RedactLine(line) == BEARER + " " + REDACTED;
    } else if !NamesSecret(line) {
      assert RedactLine(line) == line;
    }
  }

  lemma Marks(a: string, b: string)
    ensures a + "=" + REDACTED == a + "=[REDACTED]" && b + ": " + REDACTED == b + ": [REDACTED]"
    ensures BEARER + " " + REDACTED == "authorization: bearer [REDACTED]"
  {
  }

  // ---- Byte bound ----

  /** Bytes one character takes in UTF-8 (section 3 of RFC 3629). */
  function Utf8Width(c: char): (w: nat)
    ensures 1 <= w <= 4
    ensures c as int < (if w == 1 then 0x80 else if w == 2 then 0x800 else if w == 3 then 0x10000 else 0x110000)
    ensures c as int >= (if w == 1 then 0 else if w == 2 then 0x80 else if w == 3 then 0x800 else 0x10000)
  {
    var u := c as int;
    if u < 0x80 then 1 else if u < 0x800 then 2 else if u < 0x10000 then 3 else 4
  }

  /** `str::len` */
  function Utf8Len(s: string): nat {
    if s == "" then 0 else Utf8Width(s[0]) + Utf8Len(s[1..])
  }

  /** `char_indices().find(|(idx, _)| idx >= start)`, with `idx` the byte index of `s` in the input. */
  function SuffixFrom(s: string, idx: nat, start: nat): Option<string> {
    if s == "" then None
    else if idx >= start then Some(s)
    else SuffixFrom(s[1..], idx + Utf8Width(s[0]), start)
  }

  function KeptContext(input: string): string {
    if Utf8Len(input) <= MAX_CONTEXT_BYTES then input
    else
      match SuffixFrom(input, 0, Utf8Len(input) - MAX_CONTEXT_BYTES)
      case Some(kept) => kept
      case None => input
  }

  const TRUNCATION_NOTE := "[context truncated to last 65536 bytes]\n"

  function BoundContext(input: string): string {
    if Utf8Len(input) <= MAX_CONTEXT_BYTES then input else TRUNCATION_NOTE + KeptContext(input)
  }

  lemma {:induction false} SuffixLen(s: string, k: nat)
    requires k < |s|
    ensures Utf8Len(s[k..]) == Utf8Width(s[k]) + Utf8Len(s[k + 1..])
    ensures Utf8Len(s[k..]) > Utf8Len(s[k + 1..])
  {
    assert s[k..][1..] == s[k + 1..];
  }

  lemma {:induction false} ShorterSuffixIsSmaller(s: string, j: nat, k: nat)
    requires j <= k <= |s|
    ensures Utf8Len(s[j..]) >= Utf8Len(s[k..])
    decreases k - j
  {
    if j < k {
      SuffixLen(s, j);
      ShorterSuffixIsSmaller(s, j + 1, k);
    }
  }

  /** The search stops at the first character that starts at or after `start`. */
  lemma {:induction false} SuffixFromSpec(s: string, from: nat, idx: nat, start: nat, k: nat)
    requires from <= k < |s|
    requires idx + Utf8Len(s[from..]) - Utf8Len(s[k..]) >= start
    requires k == from || idx + Utf8Len(s[from..]) - Utf8Len(s[k - 1..]) < start
    ensures SuffixFrom(s[from..], idx, start) == Some(s[k..])
    decreases k - from
  {
    if from < k {
      ShorterSuffixIsSmaller(s, from, k - 1);
      SuffixLen(s, from);
      assert s[from..][1..] == s[from + 1..];
      SuffixFromSpec(s, from + 1, idx + Utf8Width(s[from]), start, k);
    }
  }

  /** The longest suffix of whole characters that fits a byte budget. */
  lemma {:induction false} LongestSuffix(s: string, budget: nat, from: nat) returns (k: nat)
    requires 4 <= budget && from < |s| && Utf8Len(s[from..]) > budget
    ensures from < k < |s|
    ensures budget - 3 <= Utf8Len(s[k..]) <= budget
    ensures Utf8Len(s[k - 1..]) > budget
    decreases |s| - from
  {
    SuffixLen(s, from);
    if Utf8Len(s[from + 1..]) <= budget {
      k := from + 1;
    } else {
      k := LongestSuffix(s, budget, from + 1);
    }
  }

  /** Character `k` starts the longest suffix of whole characters within `budget` bytes. */
  ghost predicate LongestWithin(input: string, k: nat, budget: nat) {
    && 0 < k < |input|
    && Utf8Len(input[k..]) <= budget
    && forall j :: 0 <= j < k ==> Utf8Len(input[j..]) > budget
  }

  /** For an input over the bound, the text kept is the longest suffix of whole characters
      within the bound, so at most three bytes of the budget go unused and the search never
      falls back to the whole input. */
  lemma KeptContextIsLongestSuffix(input: string) returns (k: nat)
    requires Utf8Len(input) > MAX_CONTEXT_BYTES
    ensures SuffixFrom(input, 0, Utf8Len(input) - MAX_CONTEXT_BYTES).Some?
    ensures LongestWithin(input, k, MAX_CONTEXT_BYTES) && KeptContext(input) == input[k..]
    ensures MAX_CONTEXT_BYTES - 3 <= Utf8Len(KeptContext(input)) <= MAX_CONTEXT_BYTES
  {
    var whole := input[0..];
    assert whole == input;
    k := LongestSuffix(input, MAX_CONTEXT_BYTES, 0);
    SuffixFromSpec(input, 0, 0, Utf8Len(whole) - MAX_CONTEXT_BYTES, k);
    EarlierSuffixesAreLonger(input, k, MAX_CONTEXT_BYTES);
  }

  lemma EarlierSuffixesAreLonger(input: string, k: nat, budget: nat)
    requires 0 < k < |input| && Utf8Len(input[k - 1..]) > budget
    ensures forall j :: 0 <= j < k ==> Utf8Len(input[j..]) > budget
  {
    forall j | 0 <= j < k ensures Utf8Len(input[j..]) > budget {
      ShorterSuffixIsSmaller(input, j, k - 1);
    }
  }

  // ---- The prompt of a step ----

  function BuildPrompt(task: string, strategy: string, redaction: string, logs: Option<string>): StepPrompt {
    if strategy == "none" || logs.None? || logs.value == "" then StepPrompt(task, 0)
    else
      var bounded := BoundContext(RedactContext(logs.value, redaction));
      StepPrompt("[Previous step output (" + strategy + "):]\n" + bounded + "\n\n[Your task:]\n" + task,
                 Utf8Len(bounded))
  }

  lemma {:induction false} Utf8LenAppend(a: string, b: string)
    ensures Utf8Len(a + b) == Utf8Len(a) + Utf8Len(b)
  {
    if a == "" {
      assert a + b == b;
    } else {
      Utf8LenAppend(a[1..], b);
      assert (a + b)[1..] == a[1..] + b;
    }
  }

  lemma {:induction false} AsciiLen(s: string)
    requires forall i :: 0 <= i < |s| ==> s[i] as int < 0x80
    ensures Utf8Len(s) == |s|
  {
    if s != "" {
      AsciiLen(s[1..]);
    }
  }

  /** However long the previous log, the context handed on is at most the limit plus the note. */
  lemma BoundContextBytes(text: string)
    ensures Utf8Len(BoundContext(text)) <= MAX_CONTEXT_BYTES + |TRUNCATION_NOTE|
  {
    if Utf8Len(text) > MAX_CONTEXT_BYTES {
      var k := KeptContextIsLongestSuffix(text);
      Utf8LenAppend(TRUNCATION_NOTE, KeptContext(text));
      TruncationNoteBytes();
    }
  }

  lemma TruncationNoteBytes()
    ensures Utf8Len(TRUNCATION_NOTE) == |TRUNCATION_NOTE|
  {
    AsciiLen(TRUNCATION_NOTE);
  }

  lemma EndsWithAppend(a: string, t: string)
    ensures EndsWith(a + t, t)
  {
  }

  lemma FrameBytes()
    ensures Utf8Len("[Previous step output (") == 23 && Utf8Len("):]\n") == 4 && Utf8Len("\n\n[Your task:]\n") == 15
  {
    hide Utf8Len;
    AsciiLen("[Previous step output (");
    AsciiLen("):]\n");
    AsciiLen("\n\n[Your task:]\n");
  }

  lemma SixParts(a: string, b: string, c: string, d: string, e: string, f: string)
    ensures Utf8Len(a + b + c + d + e + f)
            == Utf8Len(a) + Utf8Len(b) + Utf8Len(c) + Utf8Len(d) + Utf8Len(e) + Utf8Len(f)
  {
    hide Utf8Len;
    Utf8LenAppend(a, b);
    Utf8LenAppend(a + b, c);
    Utf8LenAppend(a + b + c, d);
    Utf8LenAppend(a + b + c + d, e);
    Utf8LenAppend(a + b + c + d + e, f);
  }

  lemma PromptParts(task: string, strategy: string, bounded: string)
    ensures var prompt := "[Previous step output (" + strategy + "):]\n" + bounded + "\n\n[Your task:]\n" + task;
            EndsWith(prompt, task)
            && Utf8Len(prompt) == 42 + Utf8Len(strategy) + Utf8Len(bounded) + Utf8Len(task)
  {
    hide *;
    FrameBytes();
    SixParts("[Previous step output (", strategy, "):]\n", bounded, "\n\n[Your task:]\n", task);
    EndsWithAppend("[Previous step output (" + strategy + "):]\n" + bounded + "\n\n[Your task:]\n", task);
  }

  /** The step's own task always ends the prompt. The byte count reported is bounded, and is what the prompt holds
      beside the task and its fixed frame. */
  lemma PromptIsBoundedAndEndsWithTask(task: string, strategy: string, redaction: string, logs: Option<string>)
    ensures var p := BuildPrompt(task, strategy, redaction, logs);
            && p.inputContextBytes <= MAX_CONTEXT_BYTES + |TRUNCATION_NOTE|
            && EndsWith(p.prompt, task)
            && (if strategy == "none" || logs.None? || logs.value == "" then p == StepPrompt(task, 0)
                else p.inputContextBytes == Utf8Len(p.prompt) - Utf8Len(task) - Utf8Len(strategy) - 42)
  {
    if strategy != "none" && logs.Some? && logs.value != "" {
      var text := RedactContext(logs.value, redaction);
      BoundContextBytes(text);
      hide Utf8Len, EndsWith, BoundContext, RedactContext;
      PromptParts(task, strategy, BoundContext(text));
    } else {
      EndsWithAppend("", task);
      assert "" + task == task;
    }
  }
}
