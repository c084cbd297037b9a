/** What an add and a remove leave of a JSON configuration, said on its old and new entries
    (crates/core/src/hook_status.rs). */
module JsonKept {
  import opened Common
  import opened Text
  import opened KimiHooks
  import opened JsonHooks

  // ---- Which entries are meant ----

  predicate Runs(e: Entry, c: string) {
    e.commands.Some? && Some(c) in e.commands.value
  }

  ghost predicate IsOld(e: Entry) {
    exists c :: Runs(e, c) && Contains(c, "checkpoint-hook")
  }

  ghost predicate IsCurrent(e: Entry) {
    exists c :: Runs(e, c) && Contains(c, "agent-aspect-hook")
  }

  ghost predicate IsCurrentOf(e: Entry, agent: string) {
    exists c :: Runs(e, c) && Contains(c, "agent-aspect-hook") && Contains(c, "AGENT_ASPECT_AGENT=" + agent)
  }

  ghost function Old(): Entry -> bool { e => IsOld(e) }

  ghost function OldOrOf(agent: string): Entry -> bool { e => IsOld(e) || IsCurrentOf(e, agent) }

  lemma OldIsLegacy(e: Entry)
    ensures IsLegacy(e) <==> IsOld(e)
  {
    hide Contains;
    if IsLegacy(e) {
      var c :| c in e.commands.value && c.Some? && Contains(c.value, LEGACY_MARKER);
      assert Runs(e, c.value);
    }
    if c :| IsOld(e) && Runs(e, c) && Contains(c, "checkpoint-hook") {
      assert Some(c) in e.commands.value;
    }
  }

  lemma CurrentHasMarker(e: Entry)
    ensures HasMarker(e) <==> IsCurrent(e)
  {
    hide Contains;
    if HasMarker(e) {
      var c :| c in e.commands.value && c.Some? && Contains(c.value, HOOK_MARKER);
      assert Runs(e, c.value);
    }
    if c :| IsCurrent(e) && Runs(e, c) && Contains(c, "agent-aspect-hook") {
      assert Some(c) in e.commands.value;
    }
  }

  lemma CurrentIsAgents(e: Entry, agent: string)
    ensures IsAgents(e, agent) <==> IsCurrentOf(e, agent)
  {
    hide Contains;
    if IsAgents(e, agent) {
      var c :| c in e.commands.value && c.Some? && Contains(c.value, HOOK_MARKER)
               && Contains(c.value, AgentPrefix(agent));
      assert Runs(e, c.value);
    }
    if c :| IsCurrentOf(e, agent) && Runs(e, c) && Contains(c, "agent-aspect-hook")
            && Contains(c, "AGENT_ASPECT_AGENT=" + agent)
    {
      assert Some(c) in e.commands.value;
    }
  }

  // ---- Which entries stay ----

  /** `kept` are the entries at the places `at`, in order: all but those that go. */
  ghost predicate StayAt(es: seq<Entry>, at: seq<nat>, kept: seq<Entry>, goes: Entry -> bool) {
    && |at| == |kept|
    && (forall m :: 0 <= m < |at| ==> at[m] < |es| && kept[m] == es[at[m]])
    && (forall m, n :: 0 <= m < n < |at| ==> at[m] < at[n])
    && (forall i: nat :: i < |es| ==> (i in at <==> !goes(es[i])))
  }

  lemma {:induction false} WithoutStays(es: seq<Entry>, p: Entry -> bool) returns (at: seq<nat>)
    ensures StayAt(es, at, Without(es, p), p)
  {
    hide *;
    WithoutLast(es, p);
    if es == [] {
      at := [];
      NothingStays(p);
    } else {
      var front, x := es[..|es| - 1], es[|es| - 1];
      var before := WithoutStays(front, p);
      at := before + (if p(x) then [] else [|front|]);
      assert es == front + [x];
      OneEntryMore(front, x, before, Without(front, p), p);
      AppendNothing(before);
      AppendNothing(Without(front, p));
    }
  }

  lemma NothingStays(p: Entry -> bool)
    ensures StayAt([], [], Without([], p), p)
  {
  }

  lemma OneEntryMore(es: seq<Entry>, x: Entry, at: seq<nat>, kept: seq<Entry>, p: Entry -> bool)
    requires StayAt(es, at, kept, p)
    ensures if p(x) then StayAt(es + [x], at, kept, p) else StayAt(es + [x], at + [|es|], kept + [x], p)
  {
    var all := es + [x];
    assert all[|es|] == x && forall i :: 0 <= i < |es| ==> all[i] == es[i];
    assert |es| !in at;
    if !p(x) {
      var at' := at + [|es|];
      assert at'[|at|] == |es| && forall i :: i in at' <==> i in at || i == |es|;
    }
  }

  /** The entries of one event afterwards: those that do not go, then what was added. */
  ghost predicate BecomesWith(v: Value, w: Value, goes: Entry -> bool, added: seq<Entry>) {
    match v
    case NotArray(_) => added == [] && w == v
    case Entries(es) => exists at, kept :: StayAt(es, at, kept, goes) && w == Entries(kept + added)
  }

  function Appended(v: Value, added: seq<Entry>): Value {
    match v
    case NotArray(_) => v
    case Entries(es) => Entries(es + added)
  }

  lemma WithoutBecomes(v: Value, p: Entry -> bool, added: seq<Entry>)
    requires v.NotArray? ==> added == []
    ensures BecomesWith(v, Appended(WithoutValue(v, p), added), p, added)
  {
    if v.Entries? {
      var at := WithoutStays(v.entries, p);
      hide Without, StayAt;
      assert StayAt(v.entries, at, Without(v.entries, p), p);
    }
  }

  lemma ShrinksMeans(v: Value, p: Entry -> bool)
    ensures Shrinks(v, p) <==> v.Entries? && exists e :: e in v.entries && p(e)
  {
    if v.Entries? {
      WithoutMembers(v.entries, p);
    }
  }

  /** Some entry of the event goes. */
  ghost predicate Loses(v: Value, goes: Entry -> bool) {
    v.Entries? && exists e :: e in v.entries && goes(e)
  }

  lemma SameGo(v: Value, w: Value, p: Entry -> bool, q: Entry -> bool, added: seq<Entry>)
    requires forall e :: p(e) <==> q(e)
    ensures BecomesWith(v, w, p, added) ==> BecomesWith(v, w, q, added)
    ensures Loses(v, p) <==> Loses(v, q)
  {
    if v.Entries? && BecomesWith(v, w, p, added) {
      var at, kept :| StayAt(v.entries, at, kept, p) && w == Entries(kept + added);
      assert StayAt(v.entries, at, kept, q);
    }
  }

  // ---- An add ----

  /** What the file holds, as far as it can be read. */
  function Before(disk: Disk): Root {
    match disk
    case Missing => Object("", NoHooks)
    case Unreadable(_) => Object("", NoHooks)
    case Holds(root) => root
  }

  function Events(root: Root): map<string, Value> {
    match root
    case NotObject(_) => map[]
    case Object(_, hooks) =>
      match hooks
      case NoHooks => map[]
      case NotAnObject(_) => map[]
      case HookMap(events) => events
  }

  /** Nothing stands in the way of an entry for the event. */
  predicate TakesEntry(root: Root, event: string) {
    && root.Object? && !root.hooks.NotAnObject?
    && (event in Events(root) ==> Events(root)[event].Entries?)
  }

  /** The event has a current hook that is not an old one as well. */
  ghost predicate IsHooked(root: Root, event: string) {
    event in Events(root) && Events(root)[event].Entries?
    && exists e :: e in Events(root)[event].entries && IsCurrent(e) && !IsOld(e)
  }

  function EntryFor(event: string, agent: string, hook: string): Entry {
    Entry(if event == "PreToolUse" then "*" else "", Some([Some("AGENT_ASPECT_AGENT=" + agent + " " + hook)]), "")
  }

  /** The array of one event after an add. */
  ghost predicate AddedTo(before: map<string, Value>, after: map<string, Value>, event: string, isNew: bool,
                          entry: Entry)
  {
    event in after && BecomesWith(if event in before then before[event] else Entries([]), after[event],
                                  Old(), if isNew then [entry] else [])
  }

  /** Each event once, in the order of the list. */
  ghost predicate OnceInOrder(added: seq<string>, enabled: seq<string>) {
    && (forall m, n :: 0 <= m < n < |added| ==> added[m] != added[n])
    && exists at: seq<nat> :: PlacesOf(added, enabled, at)
  }

  ghost predicate PlacesOf(added: seq<string>, enabled: seq<string>, at: seq<nat>) {
    && |at| == |added| && (forall m :: 0 <= m < |at| ==> at[m] < |enabled| && added[m] == enabled[at[m]])
    && forall m, n :: 0 <= m < n < |at| ==> at[m] < at[n]
  }

  /** An add stops exactly when an enabled event cannot take an entry, and writes nothing then. Otherwise every enabled
      event without a current hook is given one, every old entry goes, and the rest of the file stays. */
  ghost predicate AddSays(disk: Disk, after: Disk, outcome: Outcome, agent: string, hook: string,
                          enabled: seq<string>)
  {
    var root := Before(disk);
    match outcome
    case Panicked => after == disk && exists e :: e in enabled && !TakesEntry(root, e)
    case Report(added, removed) =>
      && (forall e :: e in enabled ==> TakesEntry(root, e))
      && (forall e :: e in added <==> e in enabled && !IsHooked(root, e)) && OnceInOrder(added, enabled)
      && (forall e :: e in removed <==> e in Events(root) && Loses(Events(root)[e], Old()))
      && if added == [] && removed == {} then after == disk
         else
           && after.Holds? && after.root.Object? && after.root.hooks.HookMap? && root.Object?
           && after.root.others == root.others
           && (forall e :: e in after.root.hooks.events <==> e in Events(root) || e in added)
           && forall e :: e in after.root.hooks.events ==>
                AddedTo(Events(root), after.root.hooks.events, e, e in added, EntryFor(e, agent, hook))
  }

  lemma EventsAre(root: Root)
    ensures EventsIn(root) == Events(root)
    ensures forall e :: Fits(root, e) <==> TakesEntry(root, e)
    ensures root.Object? && root.hooks.HookMap? ==> Events(root) == root.hooks.events
  {
  }

  lemma CleanEvents(root: Root, p: Entry -> bool)
    ensures var c := WithoutEntries(root, p);
            && (forall e :: Fits(c, e) <==> Fits(root, e))
            && Events(c).Keys == Events(root).Keys && c.Object? == root.Object?
            && (root.Object? ==> c.others == root.others)
            && forall e :: e in Events(root) ==> Events(c)[e] == WithoutValue(Events(root)[e], p)
  {
  }

  lemma HookedIs(root: Root, event: string)
    ensures HasHook(WithoutEntries(root, LegacyPred()), event) <==> IsHooked(root, event)
  {
    EntriesWithout(root, LegacyPred(), event);
    WithoutMembers(EntriesOf(root, event), LegacyPred());
    hide IsCurrent, IsOld, IsLegacy, HasMarker, Without, WithoutEntries;
    forall e ensures (HasMarker(e) <==> IsCurrent(e)) && (LegacyPred()(e) <==> IsOld(e)) {
      CurrentHasMarker(e);
      OldIsLegacy(e);
    }
  }

  lemma ShrunkAre(root: Root, p: Entry -> bool)
    ensures forall e :: e in ShrunkEvents(root, p) <==> e in Events(root) && Loses(Events(root)[e], p)
  {
    hide Shrinks, Loses;
    forall v: Value ensures Shrinks(v, p) <==> Loses(v, p) {
      ShrinksMeans(v, p);
      assert Loses(v, p) <==> v.Entries? && exists e :: e in v.entries && p(e) by {
        LosesMeans(v, p);
      }
    }
  }

  lemma LosesMeans(v: Value, p: Entry -> bool)
    ensures Loses(v, p) <==> v.Entries? && exists e :: e in v.entries && p(e)
  {
  }

  lemma LegacyGo()
    ensures forall e :: LegacyPred()(e) <==> Old()(e)
  {
    forall e ensures LegacyPred()(e) <==> Old()(e) {
      OldIsLegacy(e);
    }
  }

  lemma EntryText(event: string, agent: string, hook: string)
    ensures NewEntry(event, Command(agent, hook)) == EntryFor(event, agent, hook)
  {
  }

  /** One event of the new configuration. */
  lemma AddedEvent(root: Root, added: set<string>, event: string, agent: string, hook: string)
    requires forall e :: e in added ==> TakesEntry(root, e)
    requires root.Object? && (event in Events(root) || event in added)
    ensures var base := WithoutEntries(root, LegacyPred());
            && (forall e :: e in added ==> Fits(base, e))
            && AddedTo(Events(root), Events(WithNew(base, added, Command(agent, hook))), event, event in added,
                       EntryFor(event, agent, hook))
  {
    var base := WithoutEntries(root, LegacyPred());
    CleanEvents(root, LegacyPred());
    EventsAre(root);
    EventsAre(base);
    EntryText(event, agent, hook);
    var command := Command(agent, hook);
    var v := if event in Events(root) then Events(root)[event] else Entries([]);
    var extra := if event in added then [EntryFor(event, agent, hook)] else [];
    assert event in added ==> TakesEntry(root, event);
    WithoutBecomes(v, LegacyPred(), extra);
    LegacyGo();
    hide *;
    NewValue(base, added, event, command);
    EmptyWithout(LegacyPred());
    AppendedNothing(WithoutValue(v, LegacyPred()));
    var w := Appended(WithoutValue(v, LegacyPred()), extra);
    SameGo(v, w, LegacyPred(), Old(), extra);
    AddedToMeans(Events(root), Events(WithNew(base, added, command)), event, event in added,
                 EntryFor(event, agent, hook));
  }

  lemma AddedToMeans(before: map<string, Value>, after: map<string, Value>, event: string, isNew: bool, entry: Entry)
    ensures AddedTo(before, after, event, isNew, entry) <==>
            event in after && BecomesWith(if event in before then before[event] else Entries([]), after[event],
                                          Old(), if isNew then [entry] else [])
  {
  }

  lemma EmptyWithout(p: Entry -> bool)
    ensures WithoutValue(Entries([]), p) == Entries([])
  {
  }

  lemma AppendedNothing(v: Value)
    ensures Appended(v, []) == v
  {
    if v.Entries? {
      AppendNothing(v.entries);
    }
  }

  lemma NewValue(base: Root, added: set<string>, event: string, command: string)
    requires (forall e :: e in added ==> Fits(base, e)) && base.Object? && (event in Events(base) || event in added)
    ensures var after := Events(WithNew(base, added, command));
            var v := if event in Events(base) then Events(base)[event] else Entries([]);
            && event in after
            && after[event] == if event in added then Appended(v, [NewEntry(event, command)]) else v
  {
  }

  lemma NewKeys(base: Root, added: set<string>, command: string)
    requires forall e :: e in added ==> Fits(base, e)
    requires base.Object? && (added != {} || base.hooks.HookMap?)
    ensures var r := WithNew(base, added, command);
            && r.Object? && r.hooks.HookMap? && r.others == base.others && Events(r) == r.hooks.events
            && forall e :: e in Events(r) <==> e in Events(base) || e in added
  {
    EventsAre(base);
  }

  lemma ShrunkNeedsMap(root: Root, p: Entry -> bool)
    ensures ShrunkEvents(root, p) != {} ==>
              root.Object? && root.hooks.HookMap? && WithoutEntries(root, p).hooks.HookMap?
  {
  }

  /** What the steps of an add say about the configuration it starts from. */
  lemma AddParts(root: Root, agent: string, hook: string, enabled: seq<string>)
    requires GoodHook(agent, hook)
    ensures var base := WithoutEntries(root, LegacyPred());
            match AddAll(base, enabled, Command(agent, hook))
            case Panic => exists e :: e in enabled && !TakesEntry(root, e)
            case Added(r, added) =>
              && (forall e :: e in enabled ==> TakesEntry(root, e))
              && (forall e :: e in added <==> e in enabled && !IsHooked(root, e))
              && (forall e :: e in AsSet(added) ==> Fits(base, e))
              && r == WithNew(base, AsSet(added), Command(agent, hook))
  {
    var base := WithoutEntries(root, LegacyPred());
    AddAllAddsMissing(base, enabled, agent, hook);
    CleanEvents(root, LegacyPred());
    EventsAre(root);
    hide *;
    forall e ensures (Fits(base, e) <==> TakesEntry(root, e)) && (HasHook(base, e) <==> IsHooked(root, e)) {
      HookedIs(root, e);
    }
  }

  lemma RemovedAre(root: Root)
    ensures forall e :: e in ShrunkEvents(root, LegacyPred()) <==> e in Events(root) && Loses(Events(root)[e], Old())
  {
    ShrunkAre(root, LegacyPred());
    LegacyGo();
    hide *;
    forall v: Value ensures Loses(v, LegacyPred()) <==> Loses(v, Old()) {
      SameGo(v, v, LegacyPred(), Old(), []);
    }
  }

  /** The written configuration. */
  lemma WrittenByAdd(root: Root, added: seq<string>, agent: string, hook: string)
    requires forall e :: e in AsSet(added) ==> Fits(WithoutEntries(root, LegacyPred()), e)
    requires forall e :: e in added ==> TakesEntry(root, e)
    requires added != [] || ShrunkEvents(root, LegacyPred()) != {}
    ensures var r := WithNew(WithoutEntries(root, LegacyPred()), AsSet(added), Command(agent, hook));
            && r.Object? && r.hooks.HookMap? && root.Object? && r.others == root.others
            && (forall e :: e in r.hooks.events <==> e in Events(root) || e in added)
            && forall e :: e in r.hooks.events ==>
                 AddedTo(Events(root), r.hooks.events, e, e in added, EntryFor(e, agent, hook))
  {
    var base := WithoutEntries(root, LegacyPred());
    ShrunkNeedsMap(root, LegacyPred());
    CleanEvents(root, LegacyPred());
    EmptySet(added);
    FirstIsMember(added);
    assert added != [] ==> TakesEntry(root, added[0]);
    assert root.Object?;
    hide *;
    assert forall e :: e in AsSet(added) <==> e in added by {
      SetOf(added);
    }
    NewKeys(base, AsSet(added), Command(agent, hook));
    var r := WithNew(base, AsSet(added), Command(agent, hook));
    forall e | e in r.hooks.events
      ensures AddedTo(Events(root), r.hooks.events, e, e in added, EntryFor(e, agent, hook))
    {
      AddedEvent(root, AsSet(added), e, agent, hook);
    }
  }

  lemma SetOf(added: seq<string>)
    ensures forall e :: e in AsSet(added) <==> e in added
  {
  }

  lemma {:induction false} AddedOnce(root: Root, events: seq<string>, agent: string, hook: string)
    requires GoodHook(agent, hook)
    ensures var all := AddAll(root, events, Command(agent, hook)); all.Added? ==> OnceInOrder(all.events, events)
  {
    var all := AddAll(root, events, Command(agent, hook));
    if events == [] {
      assert PlacesOf([], [], []);
    } else if all.Added? {
      var front, e := events[..|events| - 1], events[|events| - 1];
      AddedOnce(root, front, agent, hook);
      AddAllAddsMissing(root, front, agent, hook);
      var before := AddAll(root, front, Command(agent, hook)).events;
      HasHookWithNew(root, AsSet(before), agent, hook, e);
      SetOf(before);
      assert e in before ==> all.events == before;
      hide *;
      assert events == front + [e];
      OneMoreOnce(before, front, e);
    }
  }

  lemma OneMoreOnce(added: seq<string>, enabled: seq<string>, e: string)
    requires OnceInOrder(added, enabled)
    ensures OnceInOrder(added, enabled + [e])
    ensures e !in added ==> OnceInOrder(added + [e], enabled + [e])
  {
    var at: seq<nat> :| PlacesOf(added, enabled, at);
    assert PlacesOf(added, enabled + [e], at);
    assert PlacesOf(added + [e], enabled + [e], at + [|enabled|]);
  }

  lemma AddShape(disk: Disk, agent: string, hook: string, enabled: seq<string>)
    ensures var root := Before(disk);
            var removed := ShrunkEvents(root, LegacyPred());
            match AddAll(WithoutEntries(root, LegacyPred()), enabled, Command(agent, hook))
            case Panic =>
              AfterAdd(disk, agent, hook, enabled) == disk && AddOutcome(disk, agent, hook, enabled) == Panicked
            case Added(r, added) =>
              && AddOutcome(disk, agent, hook, enabled) == Report(added, removed)
              && AfterAdd(disk, agent, hook, enabled) == if added == [] && removed == {} then disk else Holds(r)
  {
    hide WithoutEntries, AddAll, ShrunkEvents, Command;
  }

  lemma ReportSays(disk: Disk, after: Disk, added: seq<string>, removed: set<string>, agent: string, hook: string,
                   enabled: seq<string>)
    requires var root := Before(disk);
             && (forall e :: e in enabled ==> TakesEntry(root, e))
             && (forall e :: e in added <==> e in enabled && !IsHooked(root, e)) && OnceInOrder(added, enabled)
             && (forall e :: e in removed <==> e in Events(root) && Loses(Events(root)[e], Old()))
    requires added == [] && removed == {} ==> after == disk
    requires var root := Before(disk);
             added != [] || removed != {} ==>
               && after.Holds? && after.root.Object? && after.root.hooks.HookMap? && root.Object?
               && after.root.others == root.others
               && (forall e :: e in after.root.hooks.events <==> e in Events(root) || e in added)
               && forall e :: e in after.root.hooks.events ==>
                    AddedTo(Events(root), after.root.hooks.events, e, e in added, EntryFor(e, agent, hook))
    ensures AddSays(disk, after, Report(added, removed), agent, hook, enabled)
  {
    hide Before, TakesEntry, IsHooked, Events, Loses, AddedTo, EntryFor, OnceInOrder;
  }

  lemma PanicSays(disk: Disk, agent: string, hook: string, enabled: seq<string>)
    requires exists e :: e in enabled && !TakesEntry(Before(disk), e)
    ensures AddSays(disk, disk, Panicked, agent, hook, enabled)
  {
  }

  lemma AddKeeps(disk: Disk, agent: string, hook: string, enabled: seq<string>)
    requires GoodHook(agent, hook)
    ensures AddSays(disk, AfterAdd(disk, agent, hook, enabled), AddOutcome(disk, agent, hook, enabled), agent, hook,
                    enabled)
  {
    hide *;
    var root := Before(disk);
    AddShape(disk, agent, hook, enabled);
    AddParts(root, agent, hook, enabled);
    match AddAll(WithoutEntries(root, LegacyPred()), enabled, Command(agent, hook))
    case Panic =>
      PanicSays(disk, agent, hook, enabled);
    case Added(r, added) =>
      var removed := ShrunkEvents(root, LegacyPred());
      RemovedAre(root);
      AddedOnce(WithoutEntries(root, LegacyPred()), enabled, agent, hook);
      if added != [] || removed != {} {
        WrittenByAdd(root, added, agent, hook);
      }
      ReportSays(disk, AfterAdd(disk, agent, hook, enabled), added, removed, agent, hook, enabled);
  }

  // ---- A remove ----

  /** A remove takes exactly the old entries and those of the agent, reports the events that lost one, and writes only
      then; every event stays, if only with an empty array. A file that cannot be read is left alone. */
  ghost predicate RemoveSays(disk: Disk, after: Disk, removed: set<string>, agent: string) {
    if !disk.Holds? then after == disk && removed == {}
    else
      var root := disk.root;
      && (forall e :: e in removed <==> e in Events(root) && Loses(Events(root)[e], OldOrOf(agent)))
      && if removed == {} then after == disk
         else
           && after.Holds? && after.root.Object? && after.root.hooks.HookMap? && root.Object?
           && after.root.others == root.others && after.root.hooks.events.Keys == Events(root).Keys
           && forall e :: e in Events(root) ==>
                BecomesWith(Events(root)[e], after.root.hooks.events[e], OldOrOf(agent), [])
  }

  function Both(p: Entry -> bool, q: Entry -> bool): Entry -> bool {
    e => p(e) || q(e)
  }

  lemma {:induction false} WithoutBoth(es: seq<Entry>, p: Entry -> bool, q: Entry -> bool)
    ensures Without(Without(es, p), q) == Without(es, Both(p, q))
  {
    if es != [] {
      var front, x := es[..|es| - 1], es[|es| - 1];
      WithoutBoth(front, p, q);
      WithoutSnoc(Without(front, p), x, q);
      AppendNothing(Without(front, p));
      AppendNothing(Without(front, Both(p, q)));
      assert Both(p, q)(x) <==> p(x) || q(x);
    }
  }

  lemma ValueBoth(v: Value, p: Entry -> bool, q: Entry -> bool)
    ensures WithoutValue(WithoutValue(v, p), q) == WithoutValue(v, Both(p, q))
    ensures Shrinks(v, p) || Shrinks(WithoutValue(v, p), q) <==> Shrinks(v, Both(p, q))
  {
    if v.Entries? {
      WithoutBoth(v.entries, p, q);
      WithoutMembers(v.entries, p);
      WithoutMembers(Without(v.entries, p), q);
      hide Without;
    }
  }

  lemma EachGoes(agent: string)
    ensures forall e :: Both(LegacyPred(), AgentPred(agent))(e) <==> OldOrOf(agent)(e)
  {
    hide IsLegacy, IsAgents, IsOld, IsCurrentOf;
    forall e ensures Both(LegacyPred(), AgentPred(agent))(e) <==> OldOrOf(agent)(e) {
      OldIsLegacy(e);
      CurrentIsAgents(e, agent);
    }
  }

  /** One event of a configuration after a remove. */
  lemma RemovedFrom(v: Value, agent: string)
    ensures BecomesWith(v, WithoutValue(WithoutValue(v, LegacyPred()), AgentPred(agent)), OldOrOf(agent), [])
    ensures Shrinks(v, LegacyPred()) || Shrinks(WithoutValue(v, LegacyPred()), AgentPred(agent))
            <==> Loses(v, OldOrOf(agent))
  {
    var p := Both(LegacyPred(), AgentPred(agent));
    EachGoes(agent);
    ValueBoth(v, LegacyPred(), AgentPred(agent));
    WithoutBecomes(v, p, []);
    AppendedNothing(WithoutValue(v, p));
    ShrinksMeans(v, p);
    LosesMeans(v, p);
    hide *;
    SameGo(v, WithoutValue(v, p), p, OldOrOf(agent), []);
  }

  lemma TakenAre(root: Root, agent: string)
    ensures forall e :: e in TakenEvents(root, agent) <==>
              e in Events(root)
              && (Shrinks(Events(root)[e], LegacyPred())
                  || Shrinks(WithoutValue(Events(root)[e], LegacyPred()), AgentPred(agent)))
  {
    hide Shrinks, WithoutValue;
  }

  lemma CleanedEvents(root: Root, agent: string)
    requires root.Object? && root.hooks.HookMap?
    ensures var c := Cleaned(root, agent);
            && c.Object? && c.hooks.HookMap? && c.others == root.others
            && c.hooks.events.Keys == Events(root).Keys
            && forall e :: e in Events(root) ==>
                 c.hooks.events[e] == WithoutValue(WithoutValue(Events(root)[e], LegacyPred()), AgentPred(agent))
  {
    hide WithoutValue;
  }

  lemma TakenNeedsMap(root: Root, agent: string)
    ensures TakenEvents(root, agent) != {} ==> root.Object? && root.hooks.HookMap?
  {
  }

  lemma RemoveKeeps(disk: Disk, agent: string)
    ensures RemoveSays(disk, AfterRemove(disk, agent), if disk.Holds? then TakenEvents(disk.root, agent) else {}, agent)
  {
    if disk.Holds? {
      var root := disk.root;
      TakenAre(root, agent);
      TakenNeedsMap(root, agent);
      hide TakenEvents, Cleaned, Events, Shrinks, WithoutValue, Loses, BecomesWith;
      forall v: Value
        ensures BecomesWith(v, WithoutValue(WithoutValue(v, LegacyPred()), AgentPred(agent)), OldOrOf(agent), [])
        ensures Shrinks(v, LegacyPred()) || Shrinks(WithoutValue(v, LegacyPred()), AgentPred(agent))
                <==> Loses(v, OldOrOf(agent))
      {
        RemovedFrom(v, agent);
      }
      if root.Object? && root.hooks.HookMap? {
        CleanedEvents(root, agent);
      }
    }
  }
}
