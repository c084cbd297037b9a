/** What the note of a decision says (crates/core/src/rule.rs). */
module RuleNotes {
  import opened Common
  import opened Rules

  /** The places of the rules that speak in a mode, in order. */
  ghost predicate SpeakAt<E>(rules: seq<Rule<E>>, mode: Mode, e: E, at: seq<nat>) {
    && (forall m :: 0 <= m < |at| ==> at[m] < |rules|)
    && (forall m, n :: 0 <= m < n < |at| ==> at[m] < at[n])
    && forall i: nat :: i < |rules| ==> (i in at <==> Level(rules[i].minMode) <= Level(mode) && rules[i].matcher(e))
  }

  /** `texts` are id and description of the rules at the places `at`. */
  ghost predicate NamesRules<E>(rules: seq<Rule<E>>, at: seq<nat>, texts: seq<string>) {
    |texts| == |at| && forall m :: 0 <= m < |at| ==>
      at[m] < |rules| && texts[m] == rules[at[m]].id + ": " + rules[at[m]].description
  }

  function WithSemicolons(texts: seq<string>): string {
    if texts == [] then "" else if |texts| == 1 then texts[0] else texts[0] + "; " + WithSemicolons(texts[1..])
  }

  lemma {:induction false} SemicolonsSnoc(texts: seq<string>, t: string)
    ensures WithSemicolons(texts + [t]) == if texts == [] then t else WithSemicolons(texts) + "; " + t
  {
    if texts == [] {
      assert texts + [t] == [t];
    } else {
      assert (texts + [t])[1..] == texts[1..] + [t];
      SemicolonsSnoc(texts[1..], t);
      if |texts| > 1 {
        assert texts[0] + "; " + (WithSemicolons(texts[1..]) + "; " + t)
            == (texts[0] + "; " + WithSemicolons(texts[1..])) + "; " + t;
      }
    }
  }

  lemma NotesSnoc<E>(matched: seq<Rule<E>>, r: Rule<E>)
    ensures Notes(matched + [r])
            == if matched == [] then r.id + ": " + r.description
               else Notes(matched) + "; " + (r.id + ": " + r.description)
  {
    assert (matched + [r])[..|matched|] == matched;
    if matched != [] {
      assert Notes(matched) + "; " + r.id + ": " + r.description
          == Notes(matched) + "; " + (r.id + ": " + r.description);
    }
  }

  ghost predicate IsNoteOf<E>(rules: seq<Rule<E>>, mode: Mode, e: E, note: string) {
    exists at, texts :: SpeakAt(rules, mode, e, at) && NamesRules(rules, at, texts) && note == WithSemicolons(texts)
  }

  lemma OneRuleMore<E>(front: seq<Rule<E>>, r: Rule<E>, mode: Mode, e: E, at: seq<nat>, texts: seq<string>)
    requires SpeakAt(front, mode, e, at) && NamesRules(front, at, texts)
    ensures var rules, t := front + [r], r.id + ": " + r.description;
            if Applies(r, mode, e) then
              SpeakAt(rules, mode, e, at + [|front|]) && NamesRules(rules, at + [|front|], texts + [t])
            else SpeakAt(rules, mode, e, at) && NamesRules(rules, at, texts)
  {
    var rules := front + [r];
    assert rules[|front|] == r && forall i :: 0 <= i < |front| ==> rules[i] == front[i];
    assert |front| !in at;
    if Applies(r, mode, e) {
      assert forall i :: i in at + [|front|] <==> i in at || i == |front|;
    }
  }

  lemma {:induction false} NotesByPlace<E>(rules: seq<Rule<E>>, mode: Mode, e: E)
    returns (at: seq<nat>, texts: seq<string>)
    ensures SpeakAt(rules, mode, e, at) && NamesRules(rules, at, texts)
    ensures |texts| == |Matched(rules, mode, e)| && Notes(Matched(rules, mode, e)) == WithSemicolons(texts)
  {
    if rules == [] {
      at, texts := [], [];
    } else {
      var front, r := rules[..|rules| - 1], rules[|rules| - 1];
      at, texts := NotesByPlace(front, mode, e);
      assert rules == front + [r];
      MatchedSnoc(front, r, mode, e);
      NotesSnoc(Matched(front, mode, e), r);
      SemicolonsSnoc(texts, r.id + ": " + r.description);
      OneRuleMore(front, r, mode, e, at, texts);
      AppendNothing(Matched(front, mode, e));
      hide Matched, Notes, WithSemicolons, SpeakAt, NamesRules;
      if Applies(r, mode, e) {
        at, texts := at + [|front|], texts + [r.id + ": " + r.description];
      }
    }
  }

  /** A decision notes every rule that speaks, in the order of the list; Observer notes what every rule would say, and
      the action of the deciding one in front. */
  lemma NoteSays<E>(rules: seq<Rule<E>>, mode: Mode, e: E)
    ensures var note := Evaluate(rules, mode, e).note;
            if mode != Observer then
              if NoneApplies(rules, mode, e) then
                note == if mode == Paranoid then "[aspect-paranoid] unclassified operation requires confirmation"
                        else "[aspect-default] no rule matched"
              else IsNoteOf(rules, mode, e, note)
            else if NoneApplies(rules, Paranoid, e) then note == "[aspect-default] no rule matched"
            else
              exists i: nat, all :: Decides(rules, Paranoid, e, i) && IsNoteOf(rules, Paranoid, e, all)
                && note == ObserverText(rules[i].action) + all
  {
    MatchedFrom(rules, mode, e);
    MatchedFrom(rules, Paranoid, e);
    hide Matched, Primary, Notes, NoneApplies, Strictest, Applies;
    var m := if mode == Observer then Paranoid else mode;
    if !NoneApplies(rules, m, e) {
      var at, texts := NotesByPlace(rules, m, e);
      var all := Notes(Matched(rules, m, e));
      assert IsNoteOf(rules, m, e, all);
      var i := DecidingRule(rules, m, e);
      if mode == Observer {
        ObserverTexts(rules[i].action, all);
        assert Decides(rules, Paranoid, e, i) && IsNoteOf(rules, Paranoid, e, all);
      }
    }
  }

  function ObserverText(a: Action): string {
    match a
    case Allow => ""
    case Log => "[aspect-observer] would be log: "
    case Notify => "[aspect-observer] would be notify: "
    case Ask => "[aspect-observer] would be ask: "
    case Deny => "[aspect-observer] would be deny: "
  }

  lemma ObserverTexts(a: Action, all: string)
    ensures ObserverText(a) + all
            == if a == Allow then all else "[aspect-observer] would be " + ActionName(a) + ": " + all
  {
    if a.Log? {
      assert "[aspect-observer] would be " + "log" + ": " == "[aspect-observer] would be log: ";
    } else if a.Notify? {
      assert "[aspect-observer] would be " + "notify" + ": " == "[aspect-observer] would be notify: ";
    } else if a.Ask? {
      assert "[aspect-observer] would be " + "ask" + ": " == "[aspect-observer] would be ask: ";
    } else if a.Deny? {
      assert "[aspect-observer] would be " + "deny" + ": " == "[aspect-observer] would be deny: ";
    }
  }

  /** Every action is stricter than the one before it, and so is every mode. */
  lemma StrictnessOrder()
    ensures Priority(Allow) < Priority(Log) < Priority(Notify) < Priority(Ask) < Priority(Deny)
    ensures Level(Observer) < Level(Autonomous) < Level(Guard) < Level(Paranoid)
  {
  }
}
