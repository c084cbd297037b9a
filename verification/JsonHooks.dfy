/** Adding and removing this program's hooks in a JSON configuration (crates/core/src/hook_status.rs).
    A configuration is seen as far as the code looks into it; the rest is carried along. */
module JsonHooks {
  import opened Common
  import opened Text
  import opened KimiHooks

  /** One element of an event's array: the `command` strings of its own `hooks` array, if it has one. */
  datatype Entry = Entry(matcher: string, commands: Option<seq<Option<string>>>, others: string)

  datatype Value = NotArray(text: string) | Entries(entries: seq<Entry>)

  datatype Hooks = NoHooks | NotAnObject(text: string) | HookMap(events: map<string, Value>)

  /** `others` is every other key of the object. */
  datatype Root = NotObject(text: string) | Object(others: string, hooks: Hooks)

  /** What is on disk: nothing, text that is no JSON, or a configuration. */
  datatype Disk = Missing | Unreadable(text: string) | Holds(root: Root)

  predicate AnyCommand(e: Entry, p: string -> bool) {
    e.commands.Some? && exists c :: c in e.commands.value && c.Some? && p(c.value)
  }

  function AgentPrefix(agent: string): string {
    "AGENT_ASPECT_AGENT=" + agent
  }

  function Command(agent: string, hook: string): string {
    AgentPrefix(agent) + " " + hook
  }

  /** `json_entry_has_marker` */
  predicate HasMarker(e: Entry) {
    AnyCommand(e, c => Contains(c, HOOK_MARKER))
  }

  /** `json_entry_has_legacy` */
  predicate IsLegacy(e: Entry) {
    AnyCommand(e, c => Contains(c, LEGACY_MARKER))
  }

  /** `json_entry_matches_agent` */
  predicate IsAgents(e: Entry, agent: string) {
    AnyCommand(e, c => Contains(c, HOOK_MARKER) && Contains(c, AgentPrefix(agent)))
  }

  function NewEntry(event: string, command: string): Entry {
    Entry(if event == "PreToolUse" then "*" else "", Some([Some(command)]), "")
  }

  // ---- Taking entries out ----

  /** `retain` with the negated predicate */
  function Without(es: seq<Entry>, p: Entry -> bool): seq<Entry> {
    if es == [] then []
    else Without(es[..|es| - 1], p) + (if p(es[|es| - 1]) then [] else [es[|es| - 1]])
  }

  function WithoutValue(v: Value, p: Entry -> bool): Value {
    match v
    case NotArray(_) => v
    case Entries(es) => Entries(Without(es, p))
  }

  predicate Shrinks(v: Value, p: Entry -> bool) {
    v.Entries? && |Without(v.entries, p)| < |v.entries|
  }

  function WithoutEntries(root: Root, p: Entry -> bool): Root {
    if root.Object? && root.hooks.HookMap? then
      root.(hooks := HookMap(map k | k in root.hooks.events :: WithoutValue(root.hooks.events[k], p)))
    else root
  }

  function ShrunkEvents(root: Root, p: Entry -> bool): set<string> {
    if root.Object? && root.hooks.HookMap? then
      set k | k in root.hooks.events && Shrinks(root.hooks.events[k], p)
    else {}
  }

  function LegacyPred(): Entry -> bool { e => IsLegacy(e) }

  function AgentPred(agent: string): Entry -> bool { e => IsAgents(e, agent) }

  /** The loop over the events of a configuration that both removals run. */
  method RemoveEntries(root: Root, p: Entry -> bool) returns (cleaned: Root, removed: set<string>)
    ensures cleaned == WithoutEntries(root, p) && removed == ShrunkEvents(root, p)
  {
    removed := {};
    if !(root.Object? && root.hooks.HookMap?) {
      return root, removed;
    }
    var events := root.hooks.events;
    ghost var before := events;
    var left := events.Keys;
    while left != {}
      invariant left <= events.Keys == before.Keys
      invariant forall k :: k in before ==> events[k] == if k in left then before[k] else WithoutValue(before[k], p)
      invariant forall k :: k in removed <==> k in before && k !in left && Shrinks(before[k], p)
      decreases left
    {
      var key :| key in left;
      var v := events[key];
      if v.Entries? {
        var kept := Without(v.entries, p);
        events := events[key := Entries(kept)];
        if |kept| < |v.entries| {
          removed := removed + {key};
        }
      }
      left := left - {key};
    }
    cleaned := root.(hooks := HookMap(events));
    assert events == map k | k in before :: WithoutValue(before[k], p);
  }

  // ---- Adding ----

  function EntriesOf(root: Root, event: string): seq<Entry> {
    if root.Object? && root.hooks.HookMap? && event in root.hooks.events && root.hooks.events[event].Entries? then
      root.hooks.events[event].entries
    else []
  }

  /** `json_event_has_hook` */
  predicate HasHook(root: Root, event: string) {
    exists e :: e in EntriesOf(root, event) && HasMarker(e)
  }

  /** An entry can be added for the event: nothing in the way has another type. */
  predicate Fits(root: Root, event: string) {
    && root.Object?
    && (root.hooks.NoHooks?
        || (root.hooks.HookMap? && (event in root.hooks.events ==> root.hooks.events[event].Entries?)))
  }

  function EventsOf(hooks: Hooks): map<string, Value> {
    if hooks.HookMap? then hooks.events else map[]
  }

  function EventsIn(root: Root): map<string, Value> {
    if root.Object? then EventsOf(root.hooks) else map[]
  }

  /** `add_json_hook_entry` */
  function AddEntry(root: Root, event: string, command: string): Root
    requires Fits(root, event)
  {
    root.(hooks := HookMap(EventsIn(root)[event := Entries(EntriesOf(root, event) + [NewEntry(event, command)])]))
  }

  datatype Added = Panic | Added(root: Root, events: seq<string>)

  function AddAll(root: Root, events: seq<string>, command: string): Added {
    if events == [] then Added(root, [])
    else
      var e := events[|events| - 1];
      match AddAll(root, events[..|events| - 1], command)
      case Panic => Panic
      case Added(r, added) =>
        if HasHook(r, e) then Added(r, added)
        else if Fits(r, e) then Added(AddEntry(r, e, command), added + [e])
        else Panic
  }

  /** A configuration that cannot be read is treated as an empty one. */
  function Readable(disk: Disk): Root {
    if disk.Holds? then disk.root else Object("", NoHooks)
  }

  datatype Outcome = Panicked | Report(added: seq<string>, removed: set<string>)

  function AddOutcome(disk: Disk, agent: string, hook: string, events: seq<string>): Outcome {
    match AddAll(WithoutEntries(Readable(disk), LegacyPred()), events, Command(agent, hook))
    case Panic => Panicked
    case Added(_, added) => Report(added, ShrunkEvents(Readable(disk), LegacyPred()))
  }

  function AfterAdd(disk: Disk, agent: string, hook: string, events: seq<string>): Disk {
    match AddAll(WithoutEntries(Readable(disk), LegacyPred()), events, Command(agent, hook))
    case Panic => disk
    case Added(root, added) =>
      if added == [] && ShrunkEvents(Readable(disk), LegacyPred()) == {} then disk else Holds(root)
  }

  function Cleaned(root: Root, agent: string): Root {
    WithoutEntries(WithoutEntries(root, LegacyPred()), AgentPred(agent))
  }

  function TakenEvents(root: Root, agent: string): set<string> {
    ShrunkEvents(root, LegacyPred()) + ShrunkEvents(WithoutEntries(root, LegacyPred()), AgentPred(agent))
  }

  function AfterRemove(disk: Disk, agent: string): Disk {
    if disk.Holds? && TakenEvents(disk.root, agent) != {} then Holds(Cleaned(disk.root, agent)) else disk
  }

  class JsonConfig {
    var disk: Disk

    /** `reconcile_json_add`. A shape that cannot take an entry aborts before anything is written. */
    method ReconcileAdd(agent: string, hook: string, enabled: seq<string>) returns (outcome: Outcome)
      modifies this
      ensures outcome == AddOutcome(old(disk), agent, hook, enabled)
      ensures disk == AfterAdd(old(disk), agent, hook, enabled)
    {
      var root := if disk.Holds? then disk.root else Object("", NoHooks);
      var command := Command(agent, hook);
      var legacyRemoved;
      root, legacyRemoved := RemoveEntries(root, LegacyPred());
      ghost var base := root;
      var added := [];
      var i := 0;
      while i < |enabled|
        invariant 0 <= i <= |enabled|
        invariant AddAll(base, enabled[..i], command) == Added(root, added)
        invariant disk == old(disk)
      {
        var event := enabled[i];
        assert enabled[..i + 1][..i] == enabled[..i];
        if !HasHook(root, event) {
          if !Fits(root, event) {
            PanicStays(base, enabled, i + 1, command);
            return Panicked;
          }
          root := AddEntry(root, event, command);
          added := added + [event];
        }
        i := i + 1;
      }
      assert enabled[..i] == enabled;
      if legacyRemoved != {} || added != [] {
        disk := Holds(root);
      }
      outcome := Report(added, legacyRemoved);
    }

    /** `reconcile_json_remove` */
    method ReconcileRemove(agent: string) returns (outcome: Outcome)
      modifies this
      ensures disk == AfterRemove(old(disk), agent)
      ensures outcome == Report([], if old(disk).Holds? then TakenEvents(old(disk).root, agent) else {})
    {
      if !disk.Holds? {
        return Report([], {});
      }
      var root, legacyRemoved := RemoveEntries(disk.root, LegacyPred());
      var agentRemoved;
      root, agentRemoved := RemoveEntries(root, AgentPred(agent));
      var removed := legacyRemoved + agentRemoved;
      if removed != {} {
        disk := Holds(root);
      }
      outcome := Report([], removed);
    }
  }

  lemma {:induction false} PanicStays(root: Root, events: seq<string>, n: nat, command: string)
    requires n <= |events| && AddAll(root, events[..n], command).Panic?
    ensures AddAll(root, events, command).Panic?
    decreases |events|
  {
    if n < |events| {
      assert events[..|events| - 1][..n] == events[..n];
      PanicStays(root, events[..|events| - 1], n, command);
    } else {
      assert events[..n] == events;
    }
  }

  // ---- Taking out ----

  lemma WithoutSnoc(es: seq<Entry>, x: Entry, p: Entry -> bool)
    ensures Without(es + [x], p) == Without(es, p) + (if p(x) then [] else [x])
  {
    assert (es + [x])[..|es|] == es;
  }

  lemma {:induction false} WithoutMembers(es: seq<Entry>, p: Entry -> bool)
    ensures forall x :: x in Without(es, p) <==> x in es && !p(x)
    ensures |Without(es, p)| <= |es|
    ensures |Without(es, p)| == |es| <==> forall x :: x in es ==> !p(x)
    ensures (forall x :: x in es ==> !p(x)) ==> Without(es, p) == es
  {
    hide *;
    WithoutLast(es, p);
    if es != [] {
      var front, x := es[..|es| - 1], es[|es| - 1];
      WithoutMembers(front, p);
      assert es == front + [x];
      AppendNothing(Without(front, p));
    }
  }

  lemma WithoutLast(es: seq<Entry>, p: Entry -> bool)
    ensures es == [] ==> Without(es, p) == []
    ensures es != [] ==> Without(es, p) == Without(es[..|es| - 1], p) + (if p(es[|es| - 1]) then [] else [es[|es| - 1]])
  {
  }

  lemma {:induction false} WithoutCommutes(es: seq<Entry>, p: Entry -> bool, q: Entry -> bool)
    ensures Without(Without(es, p), q) == Without(Without(es, q), p)
  {
    hide *;
    WithoutLast(es, p);
    WithoutLast(es, q);
    if es == [] {
      WithoutLast([], p);
      WithoutLast([], q);
    } else {
      var front, x := es[..|es| - 1], es[|es| - 1];
      WithoutCommutes(front, p, q);
      WithoutSnoc(Without(front, p), x, q);
      WithoutSnoc(Without(front, q), x, p);
      AppendNothing(Without(front, p));
      AppendNothing(Without(front, q));
      AppendNothing(Without(Without(front, p), q));
    }
  }

  lemma EntriesWithout(root: Root, p: Entry -> bool, event: string)
    ensures EntriesOf(WithoutEntries(root, p), event) == Without(EntriesOf(root, event), p)
  {
  }

  /** Removals of any two kinds of entries commute. */
  lemma EntryRemovalsCommute(root: Root, p: Entry -> bool, q: Entry -> bool)
    ensures WithoutEntries(WithoutEntries(root, p), q) == WithoutEntries(WithoutEntries(root, q), p)
  {
    if root.Object? && root.hooks.HookMap? {
      var m := root.hooks.events;
      forall k | k in m ensures WithoutValue(WithoutValue(m[k], p), q) == WithoutValue(WithoutValue(m[k], q), p) {
        if m[k].Entries? {
          WithoutCommutes(m[k].entries, p, q);
        }
      }
      assert WithoutEntries(WithoutEntries(root, p), q).hooks.events
          == WithoutEntries(WithoutEntries(root, q), p).hooks.events;
    }
  }

  ghost predicate NoneMeet(root: Root, p: Entry -> bool) {
    forall event, x :: x in EntriesOf(root, event) ==> !p(x)
  }

  lemma NothingTaken(root: Root, p: Entry -> bool)
    requires NoneMeet(root, p)
    ensures WithoutEntries(root, p) == root && ShrunkEvents(root, p) == {}
  {
    if root.Object? && root.hooks.HookMap? {
      var m := root.hooks.events;
      forall k | k in m ensures WithoutValue(m[k], p) == m[k] && !Shrinks(m[k], p) {
        WithoutMembers(EntriesOf(root, k), p);
      }
      assert WithoutEntries(root, p).hooks.events == m;
    }
  }

  lemma NoneMeetAt(root: Root, p: Entry -> bool, event: string, x: Entry)
    requires NoneMeet(root, p) && x in EntriesOf(root, event)
    ensures !p(x)
  {
  }

  lemma TakenMeetsNone(root: Root, p: Entry -> bool, q: Entry -> bool)
    ensures NoneMeet(WithoutEntries(root, p), p)
    ensures NoneMeet(root, q) ==> NoneMeet(WithoutEntries(root, p), q)
  {
    hide EntriesOf, WithoutEntries, Without, NoneMeet;
    forall event, x | x in EntriesOf(WithoutEntries(root, p), event)
      ensures !p(x) && (NoneMeet(root, q) ==> !q(x))
    {
      EntriesWithout(root, p, event);
      WithoutMembers(EntriesOf(root, event), p);
      if NoneMeet(root, q) {
        NoneMeetAt(root, q, event, x);
      }
    }
    MeetsNone(WithoutEntries(root, p), p);
    if NoneMeet(root, q) {
      MeetsNone(WithoutEntries(root, p), q);
    }
  }

  lemma MeetsNone(root: Root, p: Entry -> bool)
    requires forall event, x :: x in EntriesOf(root, event) ==> !p(x)
    ensures NoneMeet(root, p)
  {
    hide EntriesOf;
  }

  /** A removal for an agent leaves exactly the entries that are neither legacy nor that agent's, for every event. */
  lemma RemovalIsExact(root: Root, agent: string, event: string, x: Entry)
    ensures x in EntriesOf(Cleaned(root, agent), event)
            <==> x in EntriesOf(root, event) && !IsLegacy(x) && !IsAgents(x, agent)
  {
    EntriesWithout(root, LegacyPred(), event);
    EntriesWithout(WithoutEntries(root, LegacyPred()), AgentPred(agent), event);
    WithoutMembers(EntriesOf(root, event), LegacyPred());
    WithoutMembers(EntriesOf(WithoutEntries(root, LegacyPred()), event), AgentPred(agent));
  }

  /** A second removal for the same agent changes nothing. */
  lemma RemovalIdempotent(disk: Disk, agent: string)
    ensures AfterRemove(AfterRemove(disk, agent), agent) == AfterRemove(disk, agent)
  {
    if disk.Holds? {
      var once := WithoutEntries(disk.root, LegacyPred());
      var c := Cleaned(disk.root, agent);
      TakenMeetsNone(disk.root, LegacyPred(), LegacyPred());
      TakenMeetsNone(once, AgentPred(agent), LegacyPred());
      NothingTaken(c, LegacyPred());
      NothingTaken(c, AgentPred(agent));
    }
  }

  /** An agent whose name starts with another agent's name loses its hooks along with it. */
  lemma PrefixAgentLosesHooks(x: Entry, agent: string, longer: string)
    requires agent <= longer && IsAgents(x, longer)
    ensures IsAgents(x, agent)
  {
    var c :| c in x.commands.value && c.Some? && Contains(c.value, HOOK_MARKER)
        && Contains(c.value, AgentPrefix(longer));
    var i :| 0 <= i <= |c.value| - |AgentPrefix(longer)| && OccursAt(c.value, AgentPrefix(longer), i);
    var short := AgentPrefix(agent);
    assert AgentPrefix(longer)[..|short|] == short;
    assert c.value[i..i + |short|] == c.value[i..i + |AgentPrefix(longer)|][..|short|];
    assert OccursAt(c.value, short, i);
  }

  // ---- Adding ----

  lemma ContainsPrefix(a: string, b: string)
    ensures Contains(a + b, a)
  {
    assert (a + b)[0..|a|] == a;
    assert OccursAt(a + b, a, 0);
  }

  lemma ContainsInTail(a: string, b: string, t: string)
    requires Contains(b, t)
    ensures Contains(a + b, t)
  {
    var i :| 0 <= i <= |b| - |t| && OccursAt(b, t, i);
    assert (a + b)[|a| + i..|a| + i + |t|] == b[i..i + |t|];
    assert OccursAt(a + b, t, |a| + i);
  }

  /** A hook binary as this program installs it. */
  predicate GoodHook(agent: string, hook: string) {
    Contains(hook, HOOK_MARKER) && !Contains(Command(agent, hook), LEGACY_MARKER)
  }

  lemma NewEntryFacts(event: string, agent: string, hook: string)
    requires GoodHook(agent, hook)
    ensures var x := NewEntry(event, Command(agent, hook)); HasMarker(x) && IsAgents(x, agent) && !IsLegacy(x)
  {
    var c := Command(agent, hook);
    assert c == AgentPrefix(agent) + (" " + hook) && c == (AgentPrefix(agent) + " ") + hook;
    ContainsPrefix(AgentPrefix(agent), " " + hook);
    ContainsInTail(AgentPrefix(agent) + " ", hook, HOOK_MARKER);
    var x := NewEntry(event, c);
    assert Some(c) in x.commands.value;
  }

  /** A configuration with one new entry for each of the events. */
  function WithNew(root: Root, events: set<string>, command: string): Root
    requires forall e :: e in events ==> Fits(root, e)
  {
    if events == {} || !root.Object? then root
    else
      root.(hooks := HookMap(map k | k in EventsIn(root).Keys + events ::
        if k in events then Entries(EntriesOf(root, k) + [NewEntry(k, command)]) else EventsIn(root)[k]))
  }

  lemma WithNewEntries(root: Root, events: set<string>, command: string, e: string)
    requires forall e :: e in events ==> Fits(root, e)
    ensures EntriesOf(WithNew(root, events, command), e)
            == EntriesOf(root, e) + (if e in events then [NewEntry(e, command)] else [])
    ensures Fits(WithNew(root, events, command), e) <==> Fits(root, e)
  {
    AppendNothing(EntriesOf(root, e));
    if events != {} {
      var k :| k in events;
      assert Fits(root, k);
    }
  }

  lemma OneMoreNew(root: Root, events: set<string>, command: string, e: string)
    requires (forall e :: e in events ==> Fits(root, e)) && e !in events && Fits(root, e)
    requires Fits(WithNew(root, events, command), e)
    ensures AddEntry(WithNew(root, events, command), e, command) == WithNew(root, events + {e}, command)
  {
    WithNewEntries(root, events, command, e);
    AppendNothing(EntriesOf(root, e));
    var a, b := AddEntry(WithNew(root, events, command), e, command), WithNew(root, events + {e}, command);
    assert e in events + {e};
    assert EventsIn(a).Keys == EventsIn(b).Keys;
    assert EventsIn(a) == EventsIn(b);
  }

  function AsSet(events: seq<string>): set<string> {
    set e | e in events
  }

  lemma HasHookWithNew(root: Root, events: set<string>, agent: string, hook: string, e: string)
    requires (forall e :: e in events ==> Fits(root, e)) && GoodHook(agent, hook)
    ensures HasHook(WithNew(root, events, Command(agent, hook)), e) <==> HasHook(root, e) || e in events
  {
    var x := NewEntry(e, Command(agent, hook));
    WithNewEntries(root, events, Command(agent, hook), e);
    NewEntryFacts(e, agent, hook);
    assert forall y :: y in EntriesOf(WithNew(root, events, Command(agent, hook)), e) <==>
                       y in EntriesOf(root, e) || (e in events && y == x);
    hide HasMarker, Command, WithNew, NewEntry;
  }

  lemma HookFits(root: Root, e: string)
    requires HasHook(root, e)
    ensures Fits(root, e)
  {
  }

  /** Adding stops with a panic exactly when some enabled event cannot take an entry. Otherwise it adds one entry
      for each enabled event that had no hook, and touches nothing else. */
  lemma {:induction false} AddAllAddsMissing(root: Root, events: seq<string>, agent: string, hook: string)
    requires GoodHook(agent, hook)
    ensures AddAll(root, events, Command(agent, hook)).Panic? <==> exists e :: e in events && !Fits(root, e)
    ensures match AddAll(root, events, Command(agent, hook))
            case Panic => true
            case Added(r, added) =>
              && (forall e :: e in added <==> e in events && !HasHook(root, e))
              && (forall e :: e in AsSet(added) ==> Fits(root, e))
              && r == WithNew(root, AsSet(added), Command(agent, hook))
  {
    var command := Command(agent, hook);
    if events == [] {
      assert AsSet([]) == {};
    } else {
      var front, e := events[..|events| - 1], events[|events| - 1];
      AddAllAddsMissing(root, front, agent, hook);
      assert events == front + [e];
      if AddAll(root, front, command).Added? {
        var before := AddAll(root, front, command).events;
        HasHookWithNew(root, AsSet(before), agent, hook, e);
        WithNewEntries(root, AsSet(before), command, e);
        if HasHook(root, e) {
          HookFits(root, e);
        }
        hide HasHook, WithNew, GoodHook, Command, Fits;
        if !HasHook(root, e) && e !in before && Fits(root, e) {
          OneMoreNew(root, AsSet(before), command, e);
          assert AsSet(before + [e]) == AsSet(before) + {e};
        }
      }
    }
  }

  // ---- Add, add again, remove ----

  /** With a hook for every event and no legacy entries, an add does nothing. */
  lemma NothingToAdd(root: Root, agent: string, hook: string, events: seq<string>)
    requires GoodHook(agent, hook) && NoneMeet(root, LegacyPred()) && forall e :: e in events ==> HasHook(root, e)
    ensures AddOutcome(Holds(root), agent, hook, events) == Report([], {})
    ensures AfterAdd(Holds(root), agent, hook, events) == Holds(root)
  {
    NothingTaken(root, LegacyPred());
    AddAllAddsMissing(root, events, agent, hook);
    forall e | e in events ensures Fits(root, e) {
      HookFits(root, e);
    }
    hide HasHook, Fits, WithNew, NoneMeet, WithoutEntries, GoodHook, ShrunkEvents;
    var again := AddAll(root, events, Command(agent, hook));
    hide AddAll, Command;
    FirstIsMember(again.events);
  }

  lemma FirstIsMember(events: seq<string>)
    ensures events != [] ==> events[0] in events
  {
  }

  /** What a successful add leaves on disk. */
  lemma AddLeaves(disk: Disk, agent: string, hook: string, events: seq<string>)
    requires GoodHook(agent, hook) && AddOutcome(disk, agent, hook, events).Report?
    ensures var f := AfterAdd(disk, agent, hook, events);
            if AddOutcome(disk, agent, hook, events) == Report([], {}) then f == disk
            else f.Holds? && NoneMeet(f.root, LegacyPred()) && forall e :: e in events ==> HasHook(f.root, e)
  {
    var base := WithoutEntries(Readable(disk), LegacyPred());
    TakenMeetsNone(Readable(disk), LegacyPred(), LegacyPred());
    AddAllAddsMissing(base, events, agent, hook);
    var r := AddAll(base, events, Command(agent, hook));
    NewIsNotLegacy(base, AsSet(r.events), agent, hook);
    forall e | e in events ensures HasHook(r.root, e) {
      HasHookWithNew(base, AsSet(r.events), agent, hook, e);
    }
    hide HasHook, Fits, WithNew, NoneMeet, WithoutEntries, GoodHook, ShrunkEvents, AddAll;
  }

  /** Adding twice is adding once, on any configuration where the first add goes through. */
  lemma AddTwice(disk: Disk, agent: string, hook: string, events: seq<string>)
    requires GoodHook(agent, hook) && AddOutcome(disk, agent, hook, events).Report?
    ensures var f := AfterAdd(disk, agent, hook, events);
            AfterAdd(f, agent, hook, events) == f && AddOutcome(f, agent, hook, events) == Report([], {})
  {
    hide *;
    AddLeaves(disk, agent, hook, events);
    var f := AfterAdd(disk, agent, hook, events);
    if AddOutcome(disk, agent, hook, events) != Report([], {}) {
      NothingToAdd(f.root, agent, hook, events);
    }
  }

  lemma EmptyNew(root: Root, command: string)
    ensures AsSet([]) == {} && WithNew(root, {}, command) == root
  {
  }

  lemma NewIsNotLegacy(root: Root, added: set<string>, agent: string, hook: string)
    requires GoodHook(agent, hook) && NoneMeet(root, LegacyPred()) && forall e :: e in added ==> Fits(root, e)
    ensures NoneMeet(WithNew(root, added, Command(agent, hook)), LegacyPred())
  {
    var r := WithNew(root, added, Command(agent, hook));
    forall e, x | x in EntriesOf(r, e) ensures !LegacyPred()(x) {
      WithNewEntries(root, added, Command(agent, hook), e);
      NewEntryFacts(e, agent, hook);
    }
  }

  /** The configuration with an empty array for every event that had none. */
  function WithEmpty(root: Root, events: set<string>): Root {
    if events == {} || !root.Object? then root
    else root.(hooks := HookMap(map k | k in EventsIn(root).Keys + events ::
                                  if k in EventsIn(root) then EventsIn(root)[k] else Entries([])))
  }

  /** The events of `WithNew`. */
  lemma NewEvents(root: Root, added: set<string>, command: string)
    requires root.Object? && added != {} && forall e :: e in added ==> Fits(root, e)
    ensures var r := WithNew(root, added, command);
            && r == root.(hooks := HookMap(EventsIn(r))) && EventsIn(r).Keys == EventsIn(root).Keys + added
            && forall k :: k in EventsIn(r) ==>
                 EventsIn(r)[k] == if k in added then Entries(EntriesOf(root, k) + [NewEntry(k, command)])
                                   else EventsIn(root)[k]
  {
  }

  lemma EmptyEvents(root: Root, added: set<string>)
    requires root.Object? && added != {}
    ensures var r := WithEmpty(root, added);
            && r == root.(hooks := HookMap(EventsIn(r))) && EventsIn(r).Keys == EventsIn(root).Keys + added
            && forall k :: k in EventsIn(r)
                ==> EventsIn(r)[k] == if k in EventsIn(root) then EventsIn(root)[k] else Entries([])
  {
  }

  /** A removal that turns one event map into another. */
  lemma MapsTo(root: Root, m: map<string, Value>, w: map<string, Value>, p: Entry -> bool, taken: set<string>)
    requires root.Object? && m.Keys == w.Keys && taken <= m.Keys
    requires forall k :: k in m ==> WithoutValue(m[k], p) == w[k] && (Shrinks(m[k], p) <==> k in taken)
    ensures WithoutEntries(root.(hooks := HookMap(m)), p) == root.(hooks := HookMap(w))
    ensures ShrunkEvents(root.(hooks := HookMap(m)), p) == taken
  {
    hide WithoutValue, Shrinks;
    assert (map k | k in m :: WithoutValue(m[k], p)) == w;
  }

  lemma RemoveNew(root: Root, added: set<string>, agent: string, hook: string)
    requires GoodHook(agent, hook) && NoneMeet(root, AgentPred(agent)) && forall e :: e in added ==> Fits(root, e)
    ensures WithoutEntries(WithNew(root, added, Command(agent, hook)), AgentPred(agent)) == WithEmpty(root, added)
    ensures ShrunkEvents(WithNew(root, added, Command(agent, hook)), AgentPred(agent))
            == if root.Object? then added else {}
  {
    if added == {} || !root.Object? {
      NothingTaken(root, AgentPred(agent));
    } else {
      NewEvents(root, added, Command(agent, hook));
      EmptyEvents(root, added);
      hide *;
      var m := EventsIn(WithNew(root, added, Command(agent, hook)));
      var w := EventsIn(WithEmpty(root, added));
      forall k | k in m
        ensures WithoutValue(m[k], AgentPred(agent)) == w[k] && (Shrinks(m[k], AgentPred(agent)) <==> k in added)
      {
        RemoveNewValue(root, added, agent, hook, k);
      }
      MapsTo(root, m, w, AgentPred(agent), added);
    }
  }

  lemma RemoveNewValue(root: Root, added: set<string>, agent: string, hook: string, k: string)
    requires GoodHook(agent, hook) && NoneMeet(root, AgentPred(agent)) && forall e :: e in added ==> Fits(root, e)
    requires root.Object? && k in EventsIn(root).Keys + added
    ensures var v := if k in added then Entries(EntriesOf(root, k) + [NewEntry(k, Command(agent, hook))])
                     else EventsIn(root)[k];
            && WithoutValue(v, AgentPred(agent)) == (if k in EventsIn(root) then EventsIn(root)[k] else Entries([]))
            && (Shrinks(v, AgentPred(agent)) <==> k in added)
  {
    var es := EntriesOf(root, k);
    var x := NewEntry(k, Command(agent, hook));
    WithoutMembers(es, AgentPred(agent));
    WithoutSnoc(es, x, AgentPred(agent));
    NewEntryFacts(k, agent, hook);
    AppendNothing(es);
    assert Without([], AgentPred(agent)) == [];
    hide Without, IsAgents, NewEntry, Command;
    if k in added {
      assert Fits(root, k);
    } else if EventsIn(root)[k].Entries? {
      assert EventsIn(root)[k].entries == es;
    }
  }

  /** On a configuration without legacy hooks and without hooks of the agent, removing after adding leaves what was
      there, with an empty array for each event that had none, and reports exactly the events that were added. */
  lemma RemoveUndoesAdd(root: Root, agent: string, hook: string, events: seq<string>)
    requires GoodHook(agent, hook) && NoneMeet(root, LegacyPred()) && NoneMeet(root, AgentPred(agent))
    requires AddOutcome(Holds(root), agent, hook, events).Report?
    ensures var added := AddOutcome(Holds(root), agent, hook, events).added;
            var f := AfterAdd(Holds(root), agent, hook, events);
            && AfterRemove(f, agent) == Holds(WithEmpty(root, AsSet(added)))
            && f.Holds? && TakenEvents(f.root, agent) == AsSet(added)
  {
    NothingTaken(root, LegacyPred());
    AddAllAddsMissing(root, events, agent, hook);
    var r := AddAll(root, events, Command(agent, hook));
    AddOnClean(root, agent, hook, events);
    var added := AsSet(r.events);
    NewIsNotLegacy(root, added, agent, hook);
    NothingTaken(r.root, LegacyPred());
    RemoveNew(root, added, agent, hook);
    EmptyNew(root, Command(agent, hook));
    NeedsObject(root, r.events);
    hide *;
    EmptySet(r.events);
    RemoveLeaves(r.root, agent, added);
  }

  lemma AddOnClean(root: Root, agent: string, hook: string, events: seq<string>)
    requires WithoutEntries(root, LegacyPred()) == root && ShrunkEvents(root, LegacyPred()) == {}
    requires AddAll(root, events, Command(agent, hook)).Added?
    ensures var r := AddAll(root, events, Command(agent, hook));
            && AddOutcome(Holds(root), agent, hook, events) == Report(r.events, {})
            && AfterAdd(Holds(root), agent, hook, events) == if r.events == [] then Holds(root) else Holds(r.root)
  {
    hide WithoutEntries, ShrunkEvents, AddAll;
  }

  lemma RemoveLeaves(root: Root, agent: string, taken: set<string>)
    requires WithoutEntries(root, LegacyPred()) == root && ShrunkEvents(root, LegacyPred()) == {}
    requires ShrunkEvents(root, AgentPred(agent)) == taken
    ensures TakenEvents(root, agent) == taken
    ensures AfterRemove(Holds(root), agent)
            == Holds(if taken == {} then root else WithoutEntries(root, AgentPred(agent)))
  {
    hide WithoutEntries, ShrunkEvents;
  }

  lemma EmptySet(events: seq<string>)
    ensures AsSet(events) == {} <==> events == []
  {
    if events != [] {
      assert events[0] in AsSet(events);
    }
  }

  lemma NeedsObject(root: Root, events: seq<string>)
    requires forall e :: e in AsSet(events) ==> Fits(root, e)
    ensures events != [] ==> root.Object?
  {
    FirstIsMember(events);
    assert events != [] ==> events[0] in AsSet(events);
  }

  /** So the configuration is restored exactly when every added event had its array already. */
  lemma RestoredExactly(root: Root, added: set<string>)
    requires forall e :: e in added ==> Fits(root, e)
    ensures WithEmpty(root, added) == root <==> forall e :: e in added ==> e in EventsIn(root)
  {
    if added != {} {
      var e :| e in added;
      assert Fits(root, e);
      var back := WithEmpty(root, added);
      assert EventsIn(back).Keys == EventsIn(root).Keys + added;
      if forall e :: e in added ==> e in EventsIn(root) {
        assert EventsIn(back) == EventsIn(root);
      }
    }
  }
}
