/** The rule engine and its shell-token matchers (crates/core/src/rule.rs). */
module Rules {
  import opened Common
  import opened Text

  datatype Mode = Observer | Autonomous | Guard | Paranoid

  function Level(m: Mode): nat {
    match m
    case Observer => 0
    case Autonomous => 1
    case Guard => 2
    case Paranoid => 3
  }

  datatype Action = Allow | Log | Notify | Ask | Deny

  /** `action_priority` */
  function Priority(a: Action): nat {
    match a
    case Deny => 4
    case Ask => 3
    case Notify => 2
    case Log => 1
    case Allow => 0
  }

  datatype Rule<!E> = Rule(id: string, description: string, action: Action, matcher: E -> bool, minMode: Mode)

  datatype Decision = Decision(action: Action, ruleId: Option<string>, note: string)

  function ActionName(a: Action): string {
    match a
    case Allow => "allow"
    case Log => "log"
    case Notify => "notify"
    case Ask => "ask"
    case Deny => "deny"
  }

  function Matched<E>(rules: seq<Rule<E>>, mode: Mode, e: E): seq<Rule<E>> {
    if rules == [] then []
    else
      var r := rules[|rules| - 1];
      Matched(rules[..|rules| - 1], mode, e) + (if Level(r.minMode) <= Level(mode) && r.matcher(e) then [r] else [])
  }

  /** `max_by_key` keeps the last of equal maxima. */
  function Primary<E>(matched: seq<Rule<E>>): Rule<E>
    requires matched != []
  {
    if |matched| == 1 then matched[0]
    else
      var best := Primary(matched[..|matched| - 1]);
      if Priority(matched[|matched| - 1].action) >= Priority(best.action) then matched[|matched| - 1] else best
  }

  function Notes<E>(matched: seq<Rule<E>>): string {
    if matched == [] then ""
    else if |matched| == 1 then matched[0].id + ": " + matched[0].description
    else Notes(matched[..|matched| - 1]) + "; " + matched[|matched| - 1].id + ": " + matched[|matched| - 1].description
  }

  /** `evaluate_observer`: every rule is looked at, nothing is held back. */
  function EvaluateObserver<E>(rules: seq<Rule<E>>, e: E): Decision {
    var matched := Matched(rules, Paranoid, e);
    if matched == [] then Decision(Allow, None, "[aspect-default] no rule matched")
    else
      var primary := Primary(matched);
      Decision(Allow, Some(primary.id),
               if primary.action != Allow then
                 "[aspect-observer] would be " + ActionName(primary.action) + ": " + Notes(matched)
               else Notes(matched))
  }

  function Evaluate<E>(rules: seq<Rule<E>>, mode: Mode, e: E): Decision {
    if mode == Observer then EvaluateObserver(rules, e)
    else
      var matched := Matched(rules, mode, e);
      if matched == [] then
        if mode == Paranoid then
          Decision(Ask, Some("D999"), "[aspect-paranoid] unclassified operation requires confirmation")
        else Decision(Allow, None, "[aspect-default] no rule matched")
      else Decision(Primary(matched).action, Some(Primary(matched).id), Notes(matched))
  }

  // ---- Which rule decides ----

  predicate Applies<E>(r: Rule<E>, mode: Mode, e: E) {
    Level(r.minMode) <= Level(mode) && r.matcher(e)
  }

  lemma {:induction false} PrimaryIsMax<E>(matched: seq<Rule<E>>) returns (k: nat)
    requires matched != []
    ensures k < |matched| && Primary(matched) == matched[k]
    ensures forall i :: 0 <= i < |matched| ==> Priority(matched[i].action) <= Priority(matched[k].action)
    ensures forall i :: k < i < |matched| ==> Priority(matched[i].action) < Priority(matched[k].action)
  {
    if |matched| == 1 {
      k := 0;
    } else {
      var front, last := matched[..|matched| - 1], matched[|matched| - 1];
      k := PrimaryIsMax(front);
      if Priority(last.action) >= Priority(front[k].action) {
        k := |matched| - 1;
      }
    }
  }

  /** The strictest action among the matched rules, if there is any. */
  ghost predicate Strictest<E>(rules: seq<Rule<E>>, mode: Mode, e: E, p: nat) {
    && (forall i :: 0 <= i < |rules| && Applies(rules[i], mode, e) ==> Priority(rules[i].action) <= p)
    && (exists i :: 0 <= i < |rules| && Applies(rules[i], mode, e) && Priority(rules[i].action) == p)
  }

  ghost predicate NoneApplies<E>(rules: seq<Rule<E>>, mode: Mode, e: E) {
    forall i :: 0 <= i < |rules| ==> !Applies(rules[i], mode, e)
  }

  lemma MatchedSnoc<E>(front: seq<Rule<E>>, r: Rule<E>, mode: Mode, e: E)
    ensures Matched(front + [r], mode, e) == Matched(front, mode, e) + (if Applies(r, mode, e) then [r] else [])
  {
    assert (front + [r])[..|front|] == front;
  }

  lemma PrimarySnoc<E>(front: seq<Rule<E>>, r: Rule<E>)
    ensures Primary(front + [r])
            == if front == [] || Priority(r.action) >= Priority(Primary(front).action) then r else Primary(front)
  {
    assert (front + [r])[..|front|] == front;
  }

  /** Matching finds a rule exactly when one applies, and the primary rule is as strict as any that applies. */
  lemma {:induction false} MatchedFrom<E>(rules: seq<Rule<E>>, mode: Mode, e: E)
    ensures Matched(rules, mode, e) == [] <==> NoneApplies(rules, mode, e)
    ensures Matched(rules, mode, e) != []
            ==> Strictest(rules, mode, e, Priority(Primary(Matched(rules, mode, e)).action))
  {
    if rules != [] {
      var front, r := rules[..|rules| - 1], rules[|rules| - 1];
      MatchedFrom(front, mode, e);
      assert rules == front + [r];
      MatchedSnoc(front, r, mode, e);
      var before := Matched(front, mode, e);
      PrimarySnoc(before, r);
      hide Matched, Primary, Applies, Strictest, NoneApplies, Priority;
      if Applies(r, mode, e) {
        StrictestStep(front, r, mode, e, if before == [] then None else Some(Priority(Primary(before).action)));
      } else {
        assert before + [] == before;
        SkipRule(front, r, mode, e, if before == [] then 0 else Priority(Primary(before).action));
      }
    }
  }

  lemma StrictestStep<E>(front: seq<Rule<E>>, r: Rule<E>, mode: Mode, e: E, before: Option<nat>)
    requires Applies(r, mode, e)
    requires if before.None? then NoneApplies(front, mode, e) else Strictest(front, mode, e, before.value)
    ensures Strictest(front + [r], mode, e,
                      if before.Some? && before.value > Priority(r.action) then before.value else Priority(r.action))
    ensures !NoneApplies(front + [r], mode, e)
  {
    hide Applies, Priority;
    var rules := front + [r];
    assert rules[|front|] == r;
    assert forall i :: 0 <= i < |front| ==> rules[i] == front[i];
    if before.Some? {
      var i :| 0 <= i < |front| && Applies(front[i], mode, e) && Priority(front[i].action) == before.value;
      assert Applies(rules[i], mode, e);
    }
  }

  lemma SkipRule<E>(front: seq<Rule<E>>, r: Rule<E>, mode: Mode, e: E, p: nat)
    requires !Applies(r, mode, e)
    ensures NoneApplies(front + [r], mode, e) <==> NoneApplies(front, mode, e)
    ensures Strictest(front, mode, e, p) ==> Strictest(front + [r], mode, e, p)
  {
    hide Applies, Priority;
    var rules := front + [r];
    assert rules[|front|] == r;
    assert forall i :: 0 <= i < |front| ==> rules[i] == front[i];
    if Strictest(front, mode, e, p) {
      var i :| 0 <= i < |front| && Applies(front[i], mode, e) && Priority(front[i].action) == p;
      assert Applies(rules[i], mode, e);
    }
  }

  lemma StrictestOrder<E>(rules: seq<Rule<E>>, mode: Mode, mode': Mode, e: E, p: nat, p': nat)
    requires Level(mode) <= Level(mode') && Strictest(rules, mode, e, p) && Strictest(rules, mode', e, p')
    ensures p <= p'
  {
    var i :| 0 <= i < |rules| && Applies(rules[i], mode, e) && Priority(rules[i].action) == p;
    assert Applies(rules[i], mode', e);
  }

  /** A stricter mode never gives a less severe action. */
  lemma StricterModeIsNoMilder<E>(rules: seq<Rule<E>>, mode: Mode, mode': Mode, e: E)
    requires Level(mode) <= Level(mode')
    ensures Priority(Evaluate(rules, mode, e).action) <= Priority(Evaluate(rules, mode', e).action)
  {
    MatchedFrom(rules, mode, e);
    MatchedFrom(rules, mode', e);
    var a, b := Matched(rules, mode, e), Matched(rules, mode', e);
    if mode != Observer && a != [] {
      assert b != [] by {
        var i :| 0 <= i < |rules| && Applies(rules[i], mode, e);
        assert Applies(rules[i], mode', e);
      }
      StrictestOrder(rules, mode, mode', e, Priority(Primary(a).action), Priority(Primary(b).action));
    }
  }

  /** Whenever a rule matches, Observer names the rule Paranoid decides by, and allows. */
  lemma ObserverNamesParanoidRule<E>(rules: seq<Rule<E>>, e: E)
    ensures Evaluate(rules, Observer, e).action == Allow
    ensures (exists i :: 0 <= i < |rules| && rules[i].matcher(e)) ==>
              Evaluate(rules, Observer, e).ruleId == Evaluate(rules, Paranoid, e).ruleId
    ensures Evaluate(rules, Observer, e).ruleId == None <==> forall i :: 0 <= i < |rules| ==> !rules[i].matcher(e)
  {
    MatchedFrom(rules, Paranoid, e);
    assert forall i :: 0 <= i < |rules| ==> Applies(rules[i], Paranoid, e) == rules[i].matcher(e);
  }

  /** An operation is denied exactly when an active rule that denies matches, whatever else matches. */
  lemma DenyWins<E>(rules: seq<Rule<E>>, mode: Mode, e: E)
    requires mode != Observer
    ensures Evaluate(rules, mode, e).action == Deny <==>
            exists i :: 0 <= i < |rules| && Applies(rules[i], mode, e) && rules[i].action == Deny
  {
    MatchedFrom(rules, mode, e);
    if exists i :: 0 <= i < |rules| && Applies(rules[i], mode, e) && rules[i].action == Deny {
      var i :| 0 <= i < |rules| && Applies(rules[i], mode, e) && rules[i].action == Deny;
      assert Priority(rules[i].action) == 4;
    }
  }

  /** Adding a rule makes the outcome milder in one case only: in Paranoid, when nothing matched before and
      the new rule matches with less than a question. */
  lemma AddedRuleMilder<E>(rules: seq<Rule<E>>, r: Rule<E>, mode: Mode, e: E)
    ensures Priority(Evaluate(rules + [r], mode, e).action) < Priority(Evaluate(rules, mode, e).action)
            <==> mode == Paranoid && r.matcher(e) && Priority(r.action) < Priority(Ask)
                 && forall i :: 0 <= i < |rules| ==> !rules[i].matcher(e)
  {
    MatchedFrom(rules, mode, e);
    MatchedSnoc(rules, r, mode, e);
    PrimarySnoc(Matched(rules, mode, e), r);
    ParanoidAppliesAll(rules, r, e);
    var before := Matched(rules, mode, e);
    assert before + [] == before;
    EvaluateAction(rules, mode, e);
    EvaluateAction(rules + [r], mode, e);
    hide Matched, Primary, Strictest, NoneApplies, Evaluate, Applies;
    if mode == Observer {
    } else if before == [] {
    } else if Applies(r, mode, e) {
    }
  }

  lemma EvaluateAction<E>(rules: seq<Rule<E>>, mode: Mode, e: E)
    ensures Evaluate(rules, mode, e).action ==
            if mode == Observer then Allow
            else if Matched(rules, mode, e) != [] then Primary(Matched(rules, mode, e)).action
            else if mode == Paranoid then Ask else Allow
  {
    hide Matched, Primary;
  }

  lemma ParanoidAppliesAll<E>(rules: seq<Rule<E>>, r: Rule<E>, e: E)
    ensures Applies(r, Paranoid, e) <==> r.matcher(e)
    ensures NoneApplies(rules, Paranoid, e) <==> forall i :: 0 <= i < |rules| ==> !rules[i].matcher(e)
  {
    assert forall i :: 0 <= i < |rules| ==> Applies(rules[i], Paranoid, e) == rules[i].matcher(e);
  }

  // ---- Shell tokens ----

  type Tokens = seq<string>

  predicate Dashed(t: string) {
    t != "" && t[0] == '-'
  }

  /** `short_flag_contains` */
  predicate ShortFlagContains(t: string, c: char) {
    Dashed(t) && !("--" <= t) && c in t[1..]
  }

  predicate IsForce(t: string) {
    t == "--force" || t == "--force-with-lease" || ShortFlagContains(t, 'f')
  }

  predicate HasForceFlag(ts: Tokens) {
    exists t :: t in ts && IsForce(t)
  }

  predicate IsRecursive(t: string) {
    t == "--recursive" || ShortFlagContains(t, 'r')
  }

  function FindFrom(ts: Tokens, i: nat, p: (Tokens, nat) -> bool): Option<nat>
    requires i <= |ts|
    decreases |ts| - i
  {
    if i == |ts| then None else if p(ts, i) then Some(i) else FindFrom(ts, i + 1, p)
  }

  function GitPushAt(): (Tokens, nat) -> bool {
    (ts: Tokens, i: nat) => i + 1 < |ts| && ts[i] == "git" && ts[i + 1] == "push"
  }

  function IsWord(w: string): (Tokens, nat) -> bool {
    (ts: Tokens, i: nat) => i < |ts| && ts[i] == w
  }

  /** The arguments after the first `git push`. */
  function PushArgs(ts: Tokens): Option<Tokens> {
    match FindFrom(ts, 0, GitPushAt())
    case None => None
    case Some(i) => if i + 2 <= |ts| then Some(ts[i + 2..]) else None
  }

  function Undashed(ts: Tokens): Tokens {
    if ts == [] then [] else (if Dashed(ts[0]) then [] else [ts[0]]) + Undashed(ts[1..])
  }

  /** What `positional_tokens` means: words that are no flags before the first `--`, every word after it. */
  function Positional(ts: Tokens): Tokens {
    match FindFrom(ts, 0, IsWord("--"))
    case None => Undashed(ts)
    case Some(k) => if k < |ts| then Undashed(ts[..k]) + ts[k + 1..] else Undashed(ts)
  }

  lemma {:induction false} FindFromSpec(ts: Tokens, i: nat, p: (Tokens, nat) -> bool)
    requires i <= |ts|
    ensures match FindFrom(ts, i, p)
            case None => forall j :: i <= j < |ts| ==> !p(ts, j)
            case Some(k) => i <= k < |ts| && p(ts, k) && forall j :: i <= j < k ==> !p(ts, j)
    decreases |ts| - i
  {
    if i < |ts| && !p(ts, i) {
      FindFromSpec(ts, i + 1, p);
    }
  }

  lemma {:induction false} UndashedSnoc(ts: Tokens, t: string)
    ensures Undashed(ts + [t]) == Undashed(ts) + (if Dashed(t) then [] else [t])
  {
    if ts == [] {
      assert ts + [t] == [t];
    } else {
      assert (ts + [t])[1..] == ts[1..] + [t];
      UndashedSnoc(ts[1..], t);
    }
  }

  /** `positional_tokens` */
  method PositionalTokens(tokens: Tokens) returns (values: Tokens)
    ensures values == Positional(tokens)
  {
    values := [];
    var afterDoubleDash := false;
    ghost var cut := 0;
    FindFromSpec(tokens, 0, IsWord("--"));
    var i := 0;
    while i < |tokens|
      invariant 0 <= i <= |tokens|
      invariant !afterDoubleDash ==> values == Undashed(tokens[..i]) && forall j :: 0 <= j < i ==> tokens[j] != "--"
      invariant afterDoubleDash ==> cut < i && tokens[cut] == "--" && (forall j :: 0 <= j < cut ==> tokens[j] != "--")
                                    && values == Undashed(tokens[..cut]) + tokens[cut + 1..i]
    {
      var token := tokens[i];
      assert tokens[..i + 1] == tokens[..i] + [token];
      UndashedSnoc(tokens[..i], token);
      i := i + 1;
      if afterDoubleDash {
        values := values + [token];
        continue;
      }
      if token == "--" {
        afterDoubleDash := true;
        cut := i - 1;
        continue;
      }
      if Dashed(token) {
        continue;
      }
      values := values + [token];
    }
    assert tokens[..i] == tokens;
    if afterDoubleDash {
      assert IsWord("--")(tokens, cut);
      assert FindFrom(tokens, 0, IsWord("--")) == Some(cut);
    } else {
      assert forall j :: 0 <= j < |tokens| ==> !IsWord("--")(tokens, j);
    }
  }

  predicate IsMainRef(t: string) {
    t == "main" || t == "master" || EndsWith(t, ":main") || EndsWith(t, ":master")
  }

  /** `d001_main_push`; tokens are what the shell splitter made of the command, lower-cased, if anything. */
  predicate MainPush(tokens: Option<Tokens>) {
    tokens.Some? && PushArgs(tokens.value).Some? &&
    var args := PushArgs(tokens.value).value;
    !HasForceFlag(args) && Positional(args) != [] && IsMainRef(Positional(args)[|Positional(args)| - 1])
  }

  /** `d002_force_push` */
  predicate ForcePush(tokens: Option<Tokens>) {
    tokens.Some? && PushArgs(tokens.value).Some? && HasForceFlag(PushArgs(tokens.value).value)
  }

  /** `d003_destructive_rm` */
  predicate DestructiveRm(tokens: Option<Tokens>) {
    tokens.Some? &&
    match FindFrom(tokens.value, 0, IsWord("rm"))
    case None => false
    case Some(i) => i < |tokens.value| && exists t :: t in tokens.value[i + 1..] && IsRecursive(t)
  }

  /** `d005_bulk_delete` */
  predicate BulkDelete(tokens: Option<Tokens>) {
    tokens.Some? && tokens.value != [] && tokens.value[0] == "rm" &&
    var args := tokens.value[1..];
    (exists t :: t in args && ('*' in t || '?' in t)) || |Positional(args)| >= 5
  }

  /** For one `git push`, exactly one of these holds: it forces, it goes to main, or neither rule speaks;
      and whether it forces does not depend on where it goes. */
  lemma PushRules(tokens: Tokens, i: nat)
    requires i + 1 < |tokens| && tokens[i] == "git" && tokens[i + 1] == "push"
    requires forall j :: 0 <= j < i ==> !(tokens[j] == "git" && tokens[j + 1] == "push")
    ensures ForcePush(Some(tokens)) <==> exists t :: t in tokens[i + 2..] && IsForce(t)
    ensures MainPush(Some(tokens)) <==>
            && !ForcePush(Some(tokens)) && Positional(tokens[i + 2..]) != []
            && IsMainRef(Positional(tokens[i + 2..])[|Positional(tokens[i + 2..])| - 1])
  {
    FindFromSpec(tokens, 0, GitPushAt());
    assert GitPushAt()(tokens, i);
    assert FindFrom(tokens, 0, GitPushAt()) == Some(i);
    hide FindFrom, GitPushAt, IsForce, Positional, IsMainRef;
  }

  /** The two push rules never both match. */
  lemma PushRulesExclude(tokens: Option<Tokens>)
    ensures !(MainPush(tokens) && ForcePush(tokens))
  {
  }

  // ---- The built-in rules ----

  /** What the rules read of an event: the words the shell splitter makes of the command, lower-cased, if it can
      split it; the path; and the two texts that may be written, lower-cased. */
  datatype ToolUse = ToolUse(tokens: Option<Tokens>, filePath: Option<string>, newString: Option<string>,
                             content: Option<string>)

  const ELEVATING := ["sudo", "sudoedit", "pkexec", "doas"]
  const SENSITIVE := [".env", "credentials", ".pem", ".key", "secret"]
  const SECRETS :=
    [ "api_key", "apikey", "api_secret", "apisecret", "private_key", "privatekey", "access_token", "accesstoken",
      "-----begin private", "-----begin rsa" ]
  const ADD_ALL := [".", "-a", "--all", "*"]
  const DOWNLOADERS := ["curl", "wget", "fetch"]
  const SHELLS := ["bash", "sh", "zsh"]

  /** `d004_sudo` */
  predicate Elevates(e: ToolUse) {
    e.tokens.Some? && e.tokens.value != [] && e.tokens.value[0] in ELEVATING
  }

  predicate ContainsAny(text: Option<string>, patterns: seq<string>) {
    text.Some? && exists p :: p in patterns && Contains(text.value, p)
  }

  /** `d006_sensitive_file` */
  predicate SensitiveFile(e: ToolUse) {
    ContainsAny(e.filePath, SENSITIVE)
  }

  /** `d007_secret_in_content` */
  predicate WritesSecret(e: ToolUse) {
    ContainsAny(e.newString, SECRETS) || ContainsAny(e.content, SECRETS)
  }

  /** `d008_large_batch_add` */
  predicate AddsAll(e: ToolUse) {
    e.tokens.Some? &&
    var ts := e.tokens.value;
    |ts| >= 2 && ts[0] == "git" && ts[1] == "add" && exists t :: t in ts[2..] && t in ADD_ALL
  }

  function InstallWords(tool: string): seq<string> {
    if tool == "npm" then ["install", "i", "add"]
    else if tool == "yarn" then ["add"]
    else if tool == "pnpm" then ["add", "install"]
    else if tool in ["pip", "pip3", "cargo", "brew", "apt", "apt-get", "dnf", "yum"] then ["install"]
    else []
  }

  /** `d010_package_install` */
  predicate InstallsPackage(e: ToolUse) {
    e.tokens.Some? &&
    var ts := e.tokens.value;
    ts != [] && Undashed(ts[1..]) != [] && Undashed(ts[1..])[0] in InstallWords(ts[0])
  }

  /** `d011_pipe_to_shell`: the first pipe that is a word of its own. */
  predicate PipesToShell(e: ToolUse) {
    e.tokens.Some? &&
    var ts := e.tokens.value;
    match FindFrom(ts, 0, IsWord("|"))
    case None => false
    case Some(k) =>
      && k < |ts| && Undashed(ts[..k]) != [] && Undashed(ts[..k])[0] in DOWNLOADERS
      && exists t :: t in ts[k + 1..] && t in SHELLS
  }

  /** `default_rules` */
  function BuiltInRules(): seq<Rule<ToolUse>> {
    [ Rule("D002", "git push --force → deny", Deny, (e: ToolUse) => ForcePush(e.tokens), Autonomous),
      Rule("D003", "rm -rf → deny", Deny, (e: ToolUse) => DestructiveRm(e.tokens), Autonomous),
      Rule("D004", "sudo / privilege escalation → deny", Deny, (e: ToolUse) => Elevates(e), Autonomous),
      Rule("D006", "sensitive file write → deny", Deny, (e: ToolUse) => SensitiveFile(e), Autonomous),
      Rule("D007", "secret pattern in content → deny", Deny, (e: ToolUse) => WritesSecret(e), Autonomous),
      Rule("D001", "git push to main/master → ask", Ask, (e: ToolUse) => MainPush(e.tokens), Guard),
      Rule("D005", "bulk delete (glob or >= 5 files) → ask", Ask, (e: ToolUse) => BulkDelete(e.tokens), Autonomous),
      Rule("D008", "git add all / dot → ask", Ask, (e: ToolUse) => AddsAll(e), Guard),
      Rule("D010", "package install → ask", Ask, (e: ToolUse) => InstallsPackage(e), Guard),
      Rule("D011", "curl/wget | bash/sh/shell → ask", Ask, (e: ToolUse) => PipesToShell(e), Guard) ]
  }

  /** The last of the strictest rules that apply. */
  ghost predicate Decides<E>(rules: seq<Rule<E>>, mode: Mode, e: E, i: nat) {
    && i < |rules| && Applies(rules[i], mode, e)
    && (forall j :: 0 <= j < |rules| && Applies(rules[j], mode, e) ==>
          Priority(rules[j].action) <= Priority(rules[i].action))
    && (forall j :: i < j < |rules| && Applies(rules[j], mode, e) ==>
          Priority(rules[j].action) < Priority(rules[i].action))
  }

  /** A matched event is decided by the last of the strictest rules that apply to it. */
  lemma {:induction false} DecidingRule<E>(rules: seq<Rule<E>>, mode: Mode, e: E) returns (i: nat)
    requires !NoneApplies(rules, mode, e)
    ensures Decides(rules, mode, e, i)
    ensures Matched(rules, mode, e) != [] && Primary(Matched(rules, mode, e)) == rules[i]
  {
    NothingMatches(mode, e);
    var front, r := rules[..|rules| - 1], rules[|rules| - 1];
    var before := Matched(front, mode, e);
    assert rules == front + [r];
    MatchedFrom(front, mode, e);
    MatchedSnoc(front, r, mode, e);
    AppendNothing(before);
    PrimarySnoc(before, r);
    hide Matched, Primary, Applies, Priority, NoneApplies, Decides, Strictest;
    if before == [] {
      i := |front|;
      FirstDecides(front, r, mode, e);
    } else {
      i := DecidingRule(front, mode, e);
      DecidesStep(front, r, mode, e, i);
      if Applies(r, mode, e) && Priority(r.action) >= Priority(front[i].action) {
        i := |front|;
      }
    }
  }

  lemma NothingMatches<E>(mode: Mode, e: E)
    ensures NoneApplies([], mode, e)
  {
  }

  lemma FirstDecides<E>(front: seq<Rule<E>>, r: Rule<E>, mode: Mode, e: E)
    requires NoneApplies(front, mode, e)
    ensures Applies(r, mode, e) ==> Decides(front + [r], mode, e, |front|)
    ensures !Applies(r, mode, e) ==> NoneApplies(front + [r], mode, e)
  {
    hide Applies, Priority;
    assert forall j :: 0 <= j < |front| ==> (front + [r])[j] == front[j];
  }

  lemma DecidesStep<E>(front: seq<Rule<E>>, r: Rule<E>, mode: Mode, e: E, i: nat)
    requires Decides(front, mode, e, i)
    ensures Decides(front + [r], mode, e,
                    if Applies(r, mode, e) && Priority(r.action) >= Priority(front[i].action) then |front| else i)
    ensures i < |front| && (front + [r])[i] == front[i]
  {
    hide Applies, Priority;
    assert forall j :: 0 <= j < |front| ==> (front + [r])[j] == front[j];
  }

  predicate Denied(e: ToolUse) {
    ForcePush(e.tokens) || DestructiveRm(e.tokens) || Elevates(e) || SensitiveFile(e) || WritesSecret(e)
  }

  predicate Asked(mode: Mode, e: ToolUse) {
    || BulkDelete(e.tokens)
    || (Level(mode) >= Level(Guard) && (MainPush(e.tokens) || AddsAll(e) || InstallsPackage(e) || PipesToShell(e)))
  }

  /** Where in the built-in list the deciding rule stands. */
  function DecidingIndex(mode: Mode, e: ToolUse): (i: nat)
    ensures i < 10
  {
    var guarded := Level(mode) >= Level(Guard);
    if WritesSecret(e) then 4
    else if SensitiveFile(e) then 3
    else if Elevates(e) then 2
    else if DestructiveRm(e.tokens) then 1
    else if ForcePush(e.tokens) then 0
    else if guarded && PipesToShell(e) then 9
    else if guarded && InstallsPackage(e) then 8
    else if guarded && AddsAll(e) then 7
    else if BulkDelete(e.tokens) then 6
    else 5
  }

  lemma BuiltInRulesApply(mode: Mode, e: ToolUse)
    requires mode != Observer
    ensures var rules := BuiltInRules();
            && |rules| == 10
            && (Applies(rules[0], mode, e) <==> ForcePush(e.tokens))
            && (Applies(rules[1], mode, e) <==> DestructiveRm(e.tokens))
            && (Applies(rules[2], mode, e) <==> Elevates(e))
            && (Applies(rules[3], mode, e) <==> SensitiveFile(e))
            && (Applies(rules[4], mode, e) <==> WritesSecret(e))
            && (Applies(rules[5], mode, e) <==> Level(mode) >= Level(Guard) && MainPush(e.tokens))
            && (Applies(rules[6], mode, e) <==> BulkDelete(e.tokens))
            && (Applies(rules[7], mode, e) <==> Level(mode) >= Level(Guard) && AddsAll(e))
            && (Applies(rules[8], mode, e) <==> Level(mode) >= Level(Guard) && InstallsPackage(e))
            && (Applies(rules[9], mode, e) <==> Level(mode) >= Level(Guard) && PipesToShell(e))
  {
    hide ForcePush, DestructiveRm, Elevates, SensitiveFile, WritesSecret, MainPush, BulkDelete, AddsAll,
         InstallsPackage, PipesToShell;
  }

  lemma RedLinesFirst()
    ensures var rules := BuiltInRules();
            && |rules| == 10
            && (forall i :: 0 <= i < 5 ==> rules[i].action == Deny)
            && (forall i :: 5 <= i < 10 ==> rules[i].action == Ask)
  {
  }

  lemma DecidesByClass<E>(rules: seq<Rule<E>>, mode: Mode, e: E, i: nat)
    requires |rules| == 10 && Decides(rules, mode, e, i)
    requires (forall k :: 0 <= k < 5 ==> rules[k].action == Deny)
             && (forall k :: 5 <= k < 10 ==> rules[k].action == Ask)
    ensures i < 10 && Applies(rules[i], mode, e)
    ensures forall j :: 0 <= j < 5 && Applies(rules[j], mode, e) ==> j <= i < 5
    ensures forall j :: i < j < 10 && Applies(rules[j], mode, e) ==> i < 5 <= j
  {
    hide Applies;
  }

  lemma DecidingPlace(mode: Mode, e: ToolUse, i: nat)
    requires mode != Observer && Decides(BuiltInRules(), mode, e, i)
    ensures i == DecidingIndex(mode, e)
    ensures if i < 5 then Denied(e) else Asked(mode, e) && !Denied(e)
  {
    var rules := BuiltInRules();
    BuiltInRulesApply(mode, e);
    RedLinesFirst();
    DecidesByClass(rules, mode, e, i);
    hide ForcePush, DestructiveRm, Elevates, SensitiveFile, WritesSecret, MainPush, BulkDelete, AddsAll,
         InstallsPackage, PipesToShell, Applies, BuiltInRules, Decides;
    if i == 0 {
    } else if i == 1 {
    } else if i == 2 {
    } else if i == 3 {
    } else if i == 4 {
    } else if i == 5 {
    } else if i == 6 {
    } else if i == 7 {
    } else if i == 8 {
    }
  }

  lemma SomeRuleApplies(mode: Mode, e: ToolUse)
    requires mode != Observer
    ensures NoneApplies(BuiltInRules(), mode, e) <==> !Denied(e) && !Asked(mode, e)
  {
    var rules := BuiltInRules();
    BuiltInRulesApply(mode, e);
    hide ForcePush, DestructiveRm, Elevates, SensitiveFile, WritesSecret, MainPush, BulkDelete, AddsAll,
         InstallsPackage, PipesToShell, Applies, BuiltInRules;
    if !Denied(e) && !Asked(mode, e) {
      forall i | 0 <= i < |rules| ensures !Applies(rules[i], mode, e) {
        assert i in {0, 1, 2, 3, 4, 5, 6, 7, 8, 9};
      }
    }
  }

  /** The policy of the ten built-in rules. An operation is denied exactly when one of the five red lines is crossed;
      otherwise it is asked about exactly when it deletes in bulk, when one of the four guarded cases arises in Guard
      or above, or in Paranoid. The rule named is the last of the strictest ones in the built-in order. */
  lemma BuiltInPolicy(mode: Mode, e: ToolUse)
    requires mode != Observer
    ensures var d := Evaluate(BuiltInRules(), mode, e);
            if Denied(e) || Asked(mode, e) then
              && d.action == (if Denied(e) then Deny else Ask)
              && d.ruleId == Some(BuiltInRules()[DecidingIndex(mode, e)].id)
            else if mode == Paranoid then d.action == Ask && d.ruleId == Some("D999")
            else d.action == Allow && d.ruleId == None
  {
    var rules := BuiltInRules();
    RedLinesFirst();
    SomeRuleApplies(mode, e);
    MatchedFrom(rules, mode, e);
    hide Denied, Asked, DecidingIndex, Matched, Primary, Applies, Notes, BuiltInRules, NoneApplies, Strictest, Decides;
    if Denied(e) || Asked(mode, e) {
      var i := DecidingRule(rules, mode, e);
      DecidingPlace(mode, e, i);
    }
  }
}
