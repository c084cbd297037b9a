/** The hook block written for one event, and what the scanners see in it
    (crates/core/src/hook_status.rs). */
module KimiHookBlock {
  import opened Common
  import opened Text
  import opened KimiBlocks
  import opened KimiHooks

  const AGENT_PREFIX := "AGENT_ASPECT_AGENT=kimi"
  const MATCHER_LINE := "matcher = \"*\""

  function EventLine(event: string): string {
    "event = \"" + event + "\""
  }

  /** `replace('\\', "\\\\").replace('"', "\\\"")` */
  function Escape(s: string): string {
    if s == "" then ""
    else (if s[0] == '\\' || s[0] == '"' then ['\\', s[0]] else [s[0]]) + Escape(s[1..])
  }

  /** `hook_command(hook, "kimi")` */
  function HookCommand(hook: string): string {
    AGENT_PREFIX + " " + hook
  }

  function CommandLine(hook: string): string {
    "command = \"" + Escape(HookCommand(hook)) + "\""
  }

  function HookBlock(event: string, hook: string): Block {
    [HOOKS_HEADER, EventLine(event)]
    + (if event == "PreToolUse" then [MATCHER_LINE] else [])
    + [CommandLine(hook)]
  }

  /** A hook binary this program installs: carries the current marker, not the legacy one, on one line. */
  predicate HookPath(hook: string) {
    Contains(hook, HOOK_MARKER) && !Contains(hook, LEGACY_MARKER) && OneLine(hook)
  }

  predicate OneLine(s: string) {
    '\n' !in s && '\r' !in s
  }

  // ---- Escaping neither makes nor breaks a marker ----

  predicate NoEscapes(t: string) {
    '\\' !in t && '"' !in t
  }

  lemma {:induction false} EscapePrefix(s: string, t: string)
    requires NoEscapes(t)
    ensures t <= Escape(s) <==> t <= s
  {
    if t != "" && s != "" {
      var e := Escape(s);
      assert t == [t[0]] + t[1..] && s == [s[0]] + s[1..];
      EscapePrefix(s[1..], t[1..]);
      if s[0] == '\\' || s[0] == '"' {
        assert e[0] == '\\' && t[0] != '\\' && t[0] != s[0];
      } else {
        assert e[0] == s[0] && e[1..] == Escape(s[1..]);
        assert t <= e <==> t[0] == e[0] && t[1..] <= e[1..];
        assert t <= s <==> t[0] == s[0] && t[1..] <= s[1..];
      }
    }
  }

  lemma {:induction false} EscapeContains(s: string, t: string)
    requires NoEscapes(t) && t != ""
    ensures Contains(Escape(s), t) <==> Contains(s, t)
  {
    if s != "" {
      var e := Escape(s);
      EscapeContains(s[1..], t);
      EscapePrefix(s, t);
      ContainsCases(s, t);
      ContainsCases(e, t);
      if s[0] == '\\' || s[0] == '"' {
        assert e[1..] == [s[0]] + Escape(s[1..]);
        ContainsCases(e[1..], t);
        assert e[1..][1..] == Escape(s[1..]);
        assert t[0] != s[0];
      } else {
        assert e[1..] == Escape(s[1..]);
      }
    }
  }

  lemma MissingChar(s: string, t: string, k: nat)
    requires k < |t| && t[k] !in s
    ensures !Contains(s, t)
  {
    forall i | 0 <= i <= |s| - |t| ensures !OccursAt(s, t, i) {
      assert s[i..i + |t|][k] == s[i + k];
    }
  }

  lemma MarkersHaveNoEscapes()
    ensures NoEscapes(HOOK_MARKER) && NoEscapes(LEGACY_MARKER) && ' ' !in HOOK_MARKER && ' ' !in LEGACY_MARKER
  {
  }

  lemma CommandMarkers(hook: string, marker: string)
    requires marker in {HOOK_MARKER, LEGACY_MARKER}
    ensures Contains(Escape(HookCommand(hook)), marker) <==> Contains(AGENT_PREFIX, marker) || Contains(hook, marker)
  {
    MarkersHaveNoEscapes();
    EscapeContains(HookCommand(hook), marker);
    assert HookCommand(hook) == AGENT_PREFIX + [' '] + hook;
    ContainsSplit(AGENT_PREFIX, ' ', hook, marker);
  }

  lemma QuotedContains(key: string, value: string, marker: string)
    requires marker != "" && '"' !in marker
    ensures Contains(key + "\"" + value + "\"", marker) <==> Contains(key, marker) || Contains(value, marker)
  {
    assert key + "\"" + value + "\"" == key + ['"'] + (value + ['"'] + "");
    ContainsSplit(key, '"', value + ['"'] + "", marker);
    ContainsSplit(value, '"', "", marker);
    EmptyContains(marker);
  }

  // ---- What the scanners see in a written block ----

  predicate CommandStart(l: string) {
    COMMAND_KEY <= Trim(l)
  }

  /** A block as one `reconcile_kimi_add` writes: its event line, then lines that name no event, the last
      being the one command line, which carries the current marker and not the legacy one. */
  ghost predicate Written(b: Block, event: string) {
    && |b| >= 3
    && Trim(b[0]) == HOOKS_HEADER
    && Trim(b[1]) == EventLine(event) && EventOf(b[1]).Some?
    && (forall j :: 0 < j < |b| ==> !IsHeader(b[j]))
    && (forall j :: 1 < j < |b| ==> EventOf(b[j]) == None)
    && (forall j :: 0 <= j < |b| - 1 ==> !CommandStart(b[j]))
    && CommandStart(b[|b| - 1])
    && Contains(Trim(b[|b| - 1]), HOOK_MARKER)
    && !Contains(Trim(b[|b| - 1]), LEGACY_MARKER)
    && forall l :: l in b ==> l != "" && Trim(l) != EMPTY_HOOKS && OneLine(l)
  }

  const EMPTY_HOOKS := "hooks = []"

  lemma CommandLineMarkers(hook: string)
    requires HookPath(hook)
    ensures Contains(CommandLine(hook), HOOK_MARKER) && !Contains(CommandLine(hook), LEGACY_MARKER)
  {
    var quoted := Escape(HookCommand(hook));
    assert CommandLine(hook) == COMMAND_KEY + "\"" + quoted + "\"";
    CommandMarkers(hook, HOOK_MARKER);
    CommandMarkers(hook, LEGACY_MARKER);
    QuotedContains(COMMAND_KEY, quoted, HOOK_MARKER);
    QuotedContains(COMMAND_KEY, quoted, LEGACY_MARKER);
    MissingChar(AGENT_PREFIX, LEGACY_MARKER, 5);
    MissingChar(COMMAND_KEY, LEGACY_MARKER, 5);
  }

  lemma WrittenBlock(event: string, hook: string)
    requires OneLine(event) && HookPath(hook)
    ensures Written(HookBlock(event, hook), event)
  {
    HeaderLine();
    EventLineFacts(event);
    MatcherLine();
    CommandLineFacts(hook);
    var matcher := if event == "PreToolUse" then [MATCHER_LINE] else [];
    assert HookBlock(event, hook) == [HOOKS_HEADER, EventLine(event)] + matcher + [CommandLine(hook)];
    WrittenFromLines(HOOKS_HEADER, EventLine(event), matcher, CommandLine(hook), event);
  }

  lemma WrittenFromLines(h: string, ev: string, matcher: seq<string>, cmd: string, event: string)
    requires LineIs(h, true, false, false) && Trim(h) == HOOKS_HEADER
    requires LineIs(ev, false, true, false) && ev == EventLine(event)
    requires |matcher| <= 1 && forall l :: l in matcher ==> LineIs(l, false, false, false)
    requires LineIs(cmd, false, false, true) && Contains(cmd, HOOK_MARKER) && !Contains(cmd, LEGACY_MARKER)
    ensures Written([h, ev] + matcher + [cmd], event)
  {
    hide Contains, Trim, IsHeader, EventOf, CommandStart, OneLine, EventLine;
    var b := [h, ev] + matcher + [cmd];
    assert b[0] == h && b[1] == ev && b[|b| - 1] == cmd;
    assert |b| == 4 ==> b[2] == matcher[0];
    assert forall j :: 1 < j < |b| - 1 ==> b[j] in matcher;
    assert forall j :: 0 <= j < |b| - 1 ==> b[j] == h || b[j] == ev || b[j] in matcher;
    assert forall l :: l in b ==> l == h || l == ev || l in matcher || l == cmd;
  }

  /** What one written line may and may not be. */
  ghost predicate LineIs(l: string, header: bool, event: bool, command: bool) {
    && Trim(l) == l && l != "" && l != EMPTY_HOOKS && OneLine(l)
    && IsHeader(l) == header && EventOf(l).Some? == event && CommandStart(l) == command
  }

  lemma HeaderLine()
    ensures LineIs(HOOKS_HEADER, true, false, false)
  {
    TrimFixed(HOOKS_HEADER);
  }

  lemma MatcherLine()
    ensures LineIs(MATCHER_LINE, false, false, false)
  {
    TrimFixed(MATCHER_LINE);
  }

  lemma EventLineFacts(event: string)
    requires OneLine(event)
    ensures LineIs(EventLine(event), false, true, false)
  {
    var l := EventLine(event);
    assert l == EVENT_KEY + "\"" + event + "\"";
    TrimFixed(l);
    assert l[0] == 'e';
  }

  lemma CommandLineFacts(hook: string)
    requires HookPath(hook)
    ensures LineIs(CommandLine(hook), false, false, true)
    ensures Contains(CommandLine(hook), HOOK_MARKER) && !Contains(CommandLine(hook), LEGACY_MARKER)
  {
    CommandLineMarkers(hook);
    var l := CommandLine(hook);
    assert l == COMMAND_KEY + ("\"" + Escape(HookCommand(hook)) + "\"");
    TrimFixed(l);
    assert l[0] == 'c';
    EscapeOneLine(HookCommand(hook));
  }

  lemma {:induction false} EscapeOneLine(s: string)
    requires OneLine(s)
    ensures OneLine(Escape(s))
  {
    if s != "" {
      EscapeOneLine(s[1..]);
    }
  }
}
