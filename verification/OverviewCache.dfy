/** The one-slot overview cache with its dirty flag, under every interleaving of readers and writers
    (crates/bridge/src/routes.rs). A step is one access to shared state. */
module OverviewCache {
  import opened Common

  const TTL_SECS := 10

  /** What an overview was computed from: its key, the number of writes done under the store lock, and the
      number done beside it on other database connections. */
  datatype Snapshot = Snapshot(key: string, version: nat, side: nat)

  datatype Slot = Vacant | Entry(snapshot: Snapshot, storedAt: int)

  datatype Lock = Free | HeldBy(id: nat)

  /** What a request knows: its key, whether it asks for the first page, and (as history) which writes had
      been invalidated when it started. */
  datatype Request = Request(key: string, firstPage: bool, floor: nat, sideFloor: nat)

  datatype Thread =
    | LoadingFlag(req: Request)
    | ReadingSlot(req: Request)
    | WantingStore(req: Request)
    | Computing(req: Request, snapshot: Snapshot)
    | Storing(req: Request, snapshot: Snapshot)
    | Answering(req: Request, snapshot: Snapshot)
    | Served(req: Request, snapshot: Snapshot, age: int)
    | WriterWaiting
    | WriterHolding(version: nat)
    | WriterReleased(version: nat)
    | SideWritten(side: nat)
    | WriterEnded

  datatype State = State(version: nat, side: nat, floor: nat, sideFloor: nat, storeLock: Lock, cacheLock: Lock,
                         slot: Slot, dirty: bool, now: int, threads: map<nat, Thread>)

  function Init(now: int): State {
    State(0, 0, 0, 0, Free, Free, Vacant, true, now, map[])
  }

  datatype Action =
    | Ask(id: nat, key: string, firstPage: bool) | LoadFlag(id: nat) | ReadSlot(id: nat)
    | LockStore(id: nat) | FillSlot(id: nat) | ClearFlag(id: nat) | Answer(id: nat)
    | StartWriter(id: nat) | WriteLocked(id: nat) | ReleaseStore(id: nat) | Invalidate(id: nat) | EndQuietly(id: nat)
    | WriteBeside(id: nat) | InvalidateBeside(id: nat)
    | Tick(secs: nat)

  function Put(s: State, id: nat, t: Thread): State {
    s.(threads := s.threads[id := t])
  }

  function ReaderStep(s: State, a: Action): State {
    match a
    case Ask(id, key, firstPage) =>
      if id in s.threads then s
      else
        var req := Request(key, firstPage, s.floor, s.sideFloor);
        Put(s, id, if firstPage then LoadingFlag(req) else WantingStore(req))
    case LoadFlag(id) =>
      if !(id in s.threads && s.threads[id].LoadingFlag?) then s
      else if s.dirty then Put(s, id, WantingStore(s.threads[id].req))
      else Put(s, id, ReadingSlot(s.threads[id].req))
    case ReadSlot(id) =>
      if !(id in s.threads && s.threads[id].ReadingSlot? && s.cacheLock.Free?) then s
      else
        var req := s.threads[id].req;
        if s.slot.Entry? && s.slot.snapshot.key == req.key && s.slot.storedAt + TTL_SECS > s.now then
          Put(s, id, Served(req, s.slot.snapshot, s.now - s.slot.storedAt))
        else Put(s, id, WantingStore(req))
    case LockStore(id) =>
      if !(id in s.threads && s.threads[id].WantingStore? && s.storeLock.Free?) then s
      else
        var req := s.threads[id].req;
        Put(s, id, Computing(req, Snapshot(req.key, s.version, s.side))).(storeLock := HeldBy(id))
    case FillSlot(id) =>
      if !(id in s.threads && s.threads[id].Computing? && s.cacheLock.Free?) then s
      else
        var t := s.threads[id];
        if t.req.firstPage then
          Put(s, id, Storing(t.req, t.snapshot)).(cacheLock := HeldBy(id), slot := Entry(t.snapshot, s.now))
        else Put(s, id, Answering(t.req, t.snapshot))
    case ClearFlag(id) =>
      if !(id in s.threads && s.threads[id].Storing?) then s
      else Put(s, id, Answering(s.threads[id].req, s.threads[id].snapshot)).(dirty := false, cacheLock := Free)
    case Answer(id) =>
      if !(id in s.threads && s.threads[id].Answering?) then s
      else Put(s, id, Served(s.threads[id].req, s.threads[id].snapshot, 0)).(storeLock := Free)
    case _ => s
  }

  predicate Expired(s: State) {
    s.slot.Entry? && s.slot.storedAt + TTL_SECS <= s.now
  }

  /** A reader that can still clear the flag over an entry without the write, while the entry lives. */
  predicate StaleFiller(s: State, t: Thread, side: nat) {
    || (t.Computing? && t.req.firstPage && t.snapshot.side < side)
    || (t.Storing? && t.snapshot.side < side && !Expired(s))
  }

  predicate NoStaleFiller(s: State, side: nat) {
    forall id :: id in s.threads ==> !StaleFiller(s, s.threads[id], side)
  }

  function WriterStep(s: State, a: Action): State {
    match a
    case StartWriter(id) =>
      if id in s.threads then s else Put(s, id, WriterWaiting)
    case WriteLocked(id) =>
      if !(id in s.threads && s.threads[id].WriterWaiting? && s.storeLock.Free?) then s
      else Put(s, id, WriterHolding(s.version + 1)).(storeLock := HeldBy(id), version := s.version + 1)
    case ReleaseStore(id) =>
      if !(id in s.threads && s.threads[id].WriterHolding?) then s
      else Put(s, id, WriterReleased(s.threads[id].version)).(storeLock := Free)
    case Invalidate(id) =>
      if !(id in s.threads && s.threads[id].WriterReleased?) then s
      else Put(s, id, WriterEnded).(dirty := true, floor := Max(s.floor, s.threads[id].version))
    case EndQuietly(id) =>
      if id in s.threads && (s.threads[id].WriterReleased? || s.threads[id].SideWritten?) then
        Put(s, id, WriterEnded)
      else s
    case WriteBeside(id) =>
      if id in s.threads then s else Put(s, id, SideWritten(s.side + 1)).(side := s.side + 1)
    case InvalidateBeside(id) =>
      if !(id in s.threads && s.threads[id].SideWritten?) then s
      else
        Put(s, id, WriterEnded).(dirty := true,
                                 sideFloor := if NoStaleFiller(s, s.threads[id].side)
                                     then Max(s.sideFloor, s.threads[id].side)
                                              else s.sideFloor)
    case Tick(secs) => s.(now := s.now + secs)
    case _ => s
  }

  predicate ReaderAction(a: Action) {
    a.Ask? || a.LoadFlag? || a.ReadSlot? || a.LockStore? || a.FillSlot? || a.ClearFlag? || a.Answer?
  }

  function Step(s: State, a: Action): State {
    if ReaderAction(a) then ReaderStep(s, a) else WriterStep(s, a)
  }

  // ---- What every step keeps ----

  /** At least as new as every write whose invalidation counts. */
  predicate Covers(snapshot: Snapshot, floor: nat, sideFloor: nat) {
    snapshot.version >= floor && snapshot.side >= sideFloor
  }

  predicate HoldsStore(t: Thread) {
    t.Computing? || t.Storing? || t.Answering? || t.WriterHolding?
  }

  /** The entry can be served to a request with these floors, or not at all. */
  predicate Safe(s: State, floor: nat, sideFloor: nat) {
    s.slot.Entry? && s.slot.snapshot.version >= floor && (s.slot.snapshot.side >= sideFloor || Expired(s))
  }

  predicate HasRequest(t: Thread) {
    t.LoadingFlag? || t.ReadingSlot? || t.WantingStore? || t.Computing? || t.Storing? || t.Answering? || t.Served?
  }

  ghost predicate ThreadInv(s: State, id: nat, t: Thread) {
    && (HoldsStore(t) ==> s.storeLock == HeldBy(id))
    && (HasRequest(t) ==> t.req.floor <= s.floor && t.req.sideFloor <= s.sideFloor)
    && (t.ReadingSlot? ==> Safe(s, t.req.floor, t.req.sideFloor))
    && (t.Computing? || t.Storing? || t.Answering? || t.Served? ==>
          t.snapshot.key == t.req.key && Covers(t.snapshot, t.req.floor, t.req.sideFloor))
    && (t.Computing? || t.Storing? || t.Answering? ==> t.snapshot.version == s.version && t.snapshot.side <= s.side)
    && (t.Computing? && t.req.firstPage ==> t.snapshot.side >= s.sideFloor)
    && (t.Computing? && s.slot.Entry? ==> s.slot.snapshot.side <= t.snapshot.side)
    && (t.Storing? ==> s.slot.Entry? && s.slot.snapshot == t.snapshot && s.cacheLock == HeldBy(id))
    && (t.Storing? ==> t.snapshot.side >= s.sideFloor || Expired(s))
    && (t.Served? ==> 0 <= t.age < TTL_SECS)
    && (t.WriterHolding? || t.WriterReleased? ==> t.version <= s.version)
    && (t.SideWritten? ==> t.side <= s.side)
  }

  ghost predicate Shared(s: State) {
    && s.floor <= s.version && s.sideFloor <= s.side
    && (s.slot.Entry? ==>
          s.slot.snapshot.version <= s.version && s.slot.snapshot.side <= s.side && s.slot.storedAt <= s.now)
    && (!s.dirty ==> Safe(s, s.floor, s.sideFloor))
    && (s.cacheLock.HeldBy? ==> s.cacheLock.id in s.threads && s.threads[s.cacheLock.id].Storing?)
  }

  ghost predicate Inv(s: State) {
    Shared(s) && forall id :: id in s.threads ==> ThreadInv(s, id, s.threads[id])
  }

  lemma InitInv(now: int)
    ensures Inv(Init(now))
  {
  }

  /** The other threads' invariants survive when the shared state only moves forward. */
  lemma OthersKeep(s: State, t: State, id: nat)
    requires Inv(s) && id in t.threads
    requires forall k :: k in t.threads && k != id ==> k in s.threads && t.threads[k] == s.threads[k]
    requires s.version <= t.version && s.side <= t.side && s.floor <= t.floor && s.sideFloor <= t.sideFloor
             && s.now == t.now
    requires s.slot.Entry? ==> t.slot.Entry? && Covers(t.slot.snapshot, s.slot.snapshot.version, s.slot.snapshot.side)
    requires s.storeLock == t.storeLock || s.storeLock.Free? || (id in s.threads && HoldsStore(s.threads[id]))
    requires s.cacheLock == t.cacheLock || s.cacheLock.Free? || (id in s.threads && s.threads[id].Storing?)
    requires t.slot == s.slot
             || (id in s.threads && s.threads[id].Computing? && t.slot.snapshot.side >= s.sideFloor && t.slot.Entry?)
    requires t.version == s.version || s.storeLock.Free?
    requires t.sideFloor == s.sideFloor || (t.slot == s.slot && NoStaleFiller(s, t.sideFloor))
    ensures forall k :: k in t.threads && k != id ==> ThreadInv(t, k, t.threads[k])
  {
    forall k | k in t.threads && k != id ensures ThreadInv(t, k, t.threads[k]) {
      assert ThreadInv(s, k, s.threads[k]);
      if id in s.threads {
        assert ThreadInv(s, id, s.threads[id]);
      }
      if t.sideFloor != s.sideFloor {
        assert !StaleFiller(s, s.threads[k], t.sideFloor);
      }
    }
  }

  lemma AskKeepsInv(s: State, a: Action)
    requires Inv(s) && (a.Ask? || a.LoadFlag?)
    ensures Inv(ReaderStep(s, a))
  {
    var t := ReaderStep(s, a);
    if t != s {
      OthersKeep(s, t, a.id);
      assert a.id in s.threads ==> ThreadInv(s, a.id, s.threads[a.id]);
      if a.LoadFlag? {
        if s.dirty {}
      } else if a.firstPage {}
    }
  }

  lemma LookupKeepsInv(s: State, a: Action)
    requires Inv(s) && (a.ReadSlot? || a.LockStore?)
    ensures Inv(ReaderStep(s, a))
  {
    var t := ReaderStep(s, a);
    if t != s {
      OthersKeep(s, t, a.id);
      assert ThreadInv(s, a.id, s.threads[a.id]);
      if a.ReadSlot? {
        if t.threads[a.id].Served? {}
      }
    }
  }

  lemma FillKeepsInv(s: State, a: Action)
    requires Inv(s) && (a.FillSlot? || a.ClearFlag? || a.Answer?)
    ensures Inv(ReaderStep(s, a))
  {
    var t := ReaderStep(s, a);
    if t != s {
      OthersKeep(s, t, a.id);
      assert a.id in s.threads ==> ThreadInv(s, a.id, s.threads[a.id]);
      match a {
        case FillSlot(id) => if s.threads[id].req.firstPage {}
        case ClearFlag(_) =>
        case Answer(_) =>
      }
    }
  }

  lemma TickKeepsInv(s: State, secs: nat)
    requires Inv(s)
    ensures Inv(WriterStep(s, Tick(secs)))
  {
    var t := WriterStep(s, Tick(secs));
    forall id | id in s.threads ensures ThreadInv(t, id, t.threads[id]) {
      assert ThreadInv(s, id, s.threads[id]);
    }
  }

  lemma BesideKeepsInv(s: State, a: Action)
    requires Inv(s) && (a.WriteBeside? || a.InvalidateBeside?)
    ensures Inv(WriterStep(s, a))
  {
    var t := WriterStep(s, a);
    if t != s {
      OthersKeep(s, t, a.id);
      assert a.id in s.threads ==> ThreadInv(s, a.id, s.threads[a.id]);
    }
  }

  lemma WriterKeepsInv(s: State, a: Action)
    requires Inv(s) && !ReaderAction(a) && !a.WriteBeside? && !a.InvalidateBeside? && !a.Tick?
    ensures Inv(WriterStep(s, a))
  {
    var t := WriterStep(s, a);
    if t != s {
      OthersKeep(s, t, a.id);
      assert a.id in s.threads ==> ThreadInv(s, a.id, s.threads[a.id]);
    }
  }

  lemma StepKeepsInv(s: State, a: Action)
    requires Inv(s)
    ensures Inv(Step(s, a))
  {
    hide Inv, ReaderStep, WriterStep;
    if a.FillSlot? || a.ClearFlag? || a.Answer? {
      FillKeepsInv(s, a);
    } else if a.Ask? || a.LoadFlag? {
      AskKeepsInv(s, a);
    } else if ReaderAction(a) {
      LookupKeepsInv(s, a);
    } else if a.Tick? {
      TickKeepsInv(s, a.secs);
    } else if a.WriteBeside? || a.InvalidateBeside? {
      BesideKeepsInv(s, a);
    } else {
      WriterKeepsInv(s, a);
    }
  }

  /** Where a schedule leads; a step that is not possible yet changes nothing. */
  function Run(s: State, actions: seq<Action>): State {
    if actions == [] then s else Step(Run(s, actions[..|actions| - 1]), actions[|actions| - 1])
  }

  lemma {:induction false} RunKeepsInv(now: int, actions: seq<Action>)
    ensures Inv(Run(Init(now), actions))
  {
    if actions == [] {
      InitInv(now);
    } else {
      RunKeepsInv(now, actions[..|actions| - 1]);
      hide Inv, Step;
      StepKeepsInv(Run(Init(now), actions[..|actions| - 1]), actions[|actions| - 1]);
    }
  }

  /** Under every schedule, an overview is for the key asked for and includes what its request had to include. */
  lemma OverviewIsFresh(now: int, actions: seq<Action>, id: nat)
    requires id in Run(Init(now), actions).threads && Run(Init(now), actions).threads[id].Served?
    ensures var t := Run(Init(now), actions).threads[id];
            t.snapshot.key == t.req.key && Covers(t.snapshot, t.req.floor, t.req.sideFloor)
  {
    RunKeepsInv(now, actions);
    var s := Run(Init(now), actions);
    hide Run;
    assert ThreadInv(s, id, s.threads[id]);
  }

  /** Whatever writers do, a cached overview is less than ten seconds old when it is served. */
  lemma OverviewIsYoung(now: int, actions: seq<Action>, id: nat)
    requires id in Run(Init(now), actions).threads && Run(Init(now), actions).threads[id].Served?
    ensures 0 <= Run(Init(now), actions).threads[id].age < 10
  {
    RunKeepsInv(now, actions);
    var s := Run(Init(now), actions);
    hide Run;
    assert ThreadInv(s, id, s.threads[id]);
  }

  // ---- What fills the cache, and what is served from it ----

  lemma Run3(s: State, a: Action, b: Action, c: Action)
    ensures Run(s, [a, b, c]) == Step(Step(Step(s, a), b), c)
  {
    hide Step;
    Run1(s, a);
    ThenRun(s, [a], Step(s, a), b);
    ThenRun(s, [a] + [b], Step(Step(s, a), b), c);
    assert [a] + [b] + [c] == [a, b, c];
  }

  /** A first-page request is served from the cache exactly when the flag is down and the entry has its key and is
      less than ten seconds old; then no lock on the store is taken. Any other goes on to compute. */
  lemma HitExactly(s: State, id: nat, key: string)
    requires id !in s.threads && s.cacheLock.Free?
    ensures var t := Run(s, [Ask(id, key, true), LoadFlag(id), ReadSlot(id)]);
            && t == s.(threads := t.threads) && t.threads.Keys == s.threads.Keys + {id}
            && (forall k :: k in s.threads ==> t.threads[k] == s.threads[k])
            && if !s.dirty && s.slot.Entry? && s.slot.snapshot.key == key && s.now - s.slot.storedAt < 10 then
                 t.threads[id] == Served(Request(key, true, s.floor, s.sideFloor), s.slot.snapshot,
                                         s.now - s.slot.storedAt)
               else t.threads[id] == WantingStore(Request(key, true, s.floor, s.sideFloor))
  {
    Run3(s, Ask(id, key, true), LoadFlag(id), ReadSlot(id));
    hide Run;
    var s1 := Step(s, Ask(id, key, true));
    assert s1 == Put(s, id, LoadingFlag(Request(key, true, s.floor, s.sideFloor)));
    var s2 := Step(s1, LoadFlag(id));
    assert s2.threads[id].ReadingSlot? <==> !s.dirty;
  }

  /** Once the overview is computed, a first page replaces the entry, takes the flag down and is answered; a later page
      is answered and leaves cache and flag alone. */
  lemma FillsExactly(now: int, s: State, f: nat)
    requires Reaches(now, s) && f in s.threads && s.threads[f].Computing?
    ensures var t := s.threads[f];
            var served := s.threads[f := Served(t.req, t.snapshot, 0)];
            if t.req.firstPage then
              Run(s, [FillSlot(f), ClearFlag(f), Answer(f)])
              == s.(slot := Entry(t.snapshot, s.now), dirty := false, storeLock := Free, threads := served)
            else Step(Step(s, FillSlot(f)), Answer(f)) == s.(storeLock := Free, threads := served)
  {
    ReachableInv(now, s);
    CacheIsFree(s, f);
    Run3(s, FillSlot(f), ClearFlag(f), Answer(f));
    hide Run, Inv;
    var t, s1 := s.threads[f], Step(s, FillSlot(f));
    if t.req.firstPage {
      var s2 := Step(s1, ClearFlag(f));
      assert s2.threads == s.threads[f := Answering(t.req, t.snapshot)];
    } else {
      assert s1.threads == s.threads[f := Answering(t.req, t.snapshot)];
    }
  }

  /** A write under the store lock is newer than the cached entry and than every write before it, and no overview is
      being computed meanwhile; one computed later holds every write that let go of the lock. */
  lemma WriteIsNew(now: int, s: State, w: nat)
    requires Reaches(now, s) && w in s.threads && s.threads[w].WriterWaiting? && s.storeLock.Free?
    ensures var t := Step(s, WriteLocked(w));
            && t.threads[w].WriterHolding? && t.storeLock == HeldBy(w)
            && (t.slot.Entry? ==> t.slot.snapshot.version < t.threads[w].version)
            && forall k :: k in t.threads && k != w ==>
                 && !t.threads[k].Computing?
                 && (t.threads[k].WriterReleased? ==> t.threads[k].version < t.threads[w].version)
  {
    ReachableInv(now, s);
    var t := Step(s, WriteLocked(w));
    forall k | k in t.threads && k != w
      ensures !t.threads[k].Computing?
      ensures t.threads[k].WriterReleased? ==> t.threads[k].version < t.threads[w].version
    {
      assert ThreadInv(s, k, s.threads[k]);
    }
  }

  lemma SnapshotHoldsWrites(now: int, s: State, id: nat)
    requires Reaches(now, s) && id in s.threads && s.threads[id].WantingStore? && s.storeLock.Free?
    ensures var t := Step(s, LockStore(id));
            && t.threads[id].Computing? && t.storeLock == HeldBy(id)
            && t.threads[id].snapshot.key == s.threads[id].req.key
            && forall k :: k in t.threads ==>
                 && (t.threads[k].WriterReleased? ==> t.threads[k].version <= t.threads[id].snapshot.version)
                 && (t.threads[k].SideWritten? ==> t.threads[k].side <= t.threads[id].snapshot.side)
  {
    ReachableInv(now, s);
    var t := Step(s, LockStore(id));
    forall k | k in t.threads
      ensures t.threads[k].WriterReleased? ==> t.threads[k].version <= t.threads[id].snapshot.version
      ensures t.threads[k].SideWritten? ==> t.threads[k].side <= t.threads[id].snapshot.side
    {
      assert k in s.threads && ThreadInv(s, k, s.threads[k]);
    }
  }

  // ---- From an invalidation to the requests after it ----

  ghost predicate Reaches(now: int, s: State) {
    exists actions :: Run(Init(now), actions) == s
  }

  lemma {:induction false} RunAppend(s: State, a: seq<Action>, b: seq<Action>)
    ensures Run(s, a + b) == Run(Run(s, a), b)
  {
    if b == [] {
      assert a + b == a;
    } else {
      RunAppend(s, a, b[..|b| - 1]);
      assert (a + b)[..|a + b| - 1] == a + b[..|b| - 1];
    }
  }

  /** What `t` knows of the threads that were not there at `s`: they were asked for later. */
  ghost predicate AskedLater(s: State, t: State) {
    && s.floor <= t.floor && s.sideFloor <= t.sideFloor
    && forall id :: id in t.threads && id !in s.threads && HasRequest(t.threads[id]) ==>
         s.floor <= t.threads[id].req.floor && s.sideFloor <= t.threads[id].req.sideFloor
  }

  /** A step changes no request that was made before. */
  ghost predicate KeepsRequests(t: State, u: State) {
    && t.floor <= u.floor && t.sideFloor <= u.sideFloor
    && forall id :: id in u.threads && HasRequest(u.threads[id]) ==>
         if id in t.threads && HasRequest(t.threads[id]) then u.threads[id].req == t.threads[id].req
         else id !in t.threads && u.threads[id].req.floor == t.floor && u.threads[id].req.sideFloor == t.sideFloor
  }

  lemma StepKeepsRequests(t: State, a: Action)
    ensures KeepsRequests(t, Step(t, a))
  {
    if ReaderAction(a) {
      ReaderKeepsRequests(t, a);
    } else {
      WriterKeepsRequests(t, a);
    }
  }

  lemma ReaderKeepsRequests(t: State, a: Action)
    requires ReaderAction(a)
    ensures KeepsRequests(t, ReaderStep(t, a))
  {
    if ReaderStep(t, a) != t {
      assert forall id :: id in t.threads && id != a.id ==> ReaderStep(t, a).threads[id] == t.threads[id];
    }
  }

  lemma WriterKeepsRequests(t: State, a: Action)
    requires !ReaderAction(a)
    ensures KeepsRequests(t, WriterStep(t, a))
  {
    hide NoStaleFiller;
    if !a.Tick? && WriterStep(t, a) != t {
      assert forall id :: id in t.threads && id != a.id ==> WriterStep(t, a).threads[id] == t.threads[id];
    }
  }

  lemma LaterStep(s: State, t: State, a: Action)
    requires AskedLater(s, t) && forall id :: id in s.threads ==> id in t.threads
    ensures AskedLater(s, Step(t, a)) && forall id :: id in s.threads ==> id in Step(t, a).threads
  {
    StepKeepsRequests(t, a);
    StepKeepsThreads(t, a);
    hide Step;
  }

  lemma StepKeepsThreads(t: State, a: Action)
    ensures forall id :: id in t.threads ==> id in Step(t, a).threads
  {
    hide NoStaleFiller;
  }

  lemma {:induction false} LaterRun(s: State, actions: seq<Action>)
    ensures AskedLater(s, Run(s, actions)) && forall id :: id in s.threads ==> id in Run(s, actions).threads
  {
    if actions != [] {
      LaterRun(s, actions[..|actions| - 1]);
      hide AskedLater, Step;
      LaterStep(s, Run(s, actions[..|actions| - 1]), actions[|actions| - 1]);
    }
  }

  /** A request made after `s` that is served an overview without write number `side` beside the lock,
      or without locked write number `version`. */
  ghost predicate Misses(s: State, actions: seq<Action>, id: nat, version: nat, side: nat) {
    var t := Run(s, actions);
    && id !in s.threads && id in t.threads && t.threads[id].Served?
    && (t.threads[id].snapshot.version < version || t.threads[id].snapshot.side < side)
  }

  lemma NeverMisses(now: int, s: State, actions: seq<Action>, id: nat, version: nat, side: nat)
    requires Reaches(now, s) && version <= s.floor && side <= s.sideFloor
    ensures !Misses(s, actions, id, version, side)
  {
    var before :| Run(Init(now), before) == s;
    RunAppend(Init(now), before, actions);
    LaterRun(s, actions);
    if Misses(s, actions, id, version, side) {
      OverviewIsFresh(now, before + actions, id);
    }
  }

  /** A write under the store lock: no request made after its invalidation is served an overview without it. */
  lemma LockedWriteIsSeen(now: int, s: State, w: nat, actions: seq<Action>, id: nat)
    requires Reaches(now, s) && w in s.threads && s.threads[w].WriterReleased?
    ensures !Misses(Step(s, Invalidate(w)), actions, id, s.threads[w].version, 0)
  {
    var t := Step(s, Invalidate(w));
    ReachesStep(now, s, Invalidate(w));
    assert s.threads[w].version <= t.floor;
    hide Step, Misses, Reaches;
    NeverMisses(now, t, actions, id, s.threads[w].version, 0);
  }

  lemma ReachesStep(now: int, s: State, a: Action)
    requires Reaches(now, s)
    ensures Reaches(now, Step(s, a))
  {
    hide Step;
    var actions :| Run(Init(now), actions) == s;
    assert (actions + [a])[..|actions|] == actions;
    assert Run(Init(now), actions + [a]) == Step(s, a);
  }

  lemma ReachableInv(now: int, s: State)
    requires Reaches(now, s)
    ensures Inv(s)
  {
    hide Inv, Run;
    var actions :| Run(Init(now), actions) == s;
    RunKeepsInv(now, actions);
  }

  // ---- A write beside the lock: exactly when its invalidation can be lost ----

  lemma Run1(s: State, a: Action)
    ensures Run(s, [a]) == Step(s, a)
  {
    assert [a][..0] == [];
  }

  lemma ThenRun(s: State, actions: seq<Action>, t: State, a: Action)
    requires Run(s, actions) == t
    ensures Run(s, actions + [a]) == Step(t, a)
  {
    assert (actions + [a])[..|actions|] == actions;
  }

  /** With the flag down over a living entry, a new request is served that entry. */
  lemma ServedFromEntry(s: State, id: nat) returns (actions: seq<Action>)
    requires id !in s.threads && !s.dirty && s.cacheLock.Free? && s.slot.Entry? && !Expired(s)
    ensures var t := Run(s, actions);
            id in t.threads && t.threads[id].Served? && t.threads[id].snapshot == s.slot.snapshot
  {
    var key := s.slot.snapshot.key;
    actions := [Ask(id, key, true)];
    Run1(s, Ask(id, key, true));
    var s1 := Step(s, Ask(id, key, true));
    ThenRun(s, actions, s1, LoadFlag(id));
    actions := actions + [LoadFlag(id)];
    var s2 := Step(s1, LoadFlag(id));
    ThenRun(s, actions, s2, ReadSlot(id));
    actions := actions + [ReadSlot(id)];
  }

  /** A stale filler can go on to put its entry in the cache and take the flag down. */
  lemma StaleFillerFills(s: State, f: nat, side: nat) returns (actions: seq<Action>)
    requires Inv(s) && f in s.threads && StaleFiller(s, s.threads[f], side)
    ensures var t := Run(s, actions);
            && t.threads.Keys == s.threads.Keys && !t.dirty && t.cacheLock.Free?
            && t.slot.Entry? && !Expired(t) && t.slot.snapshot.side < side
  {
    assert ThreadInv(s, f, s.threads[f]);
    if s.threads[f].Computing? {
      CacheIsFree(s, f);
      Run1(s, FillSlot(f));
      var s1 := Step(s, FillSlot(f));
      ThenRun(s, [FillSlot(f)], s1, ClearFlag(f));
      actions := [FillSlot(f)] + [ClearFlag(f)];
    } else {
      Run1(s, ClearFlag(f));
      actions := [ClearFlag(f)];
    }
  }

  lemma CacheIsFree(s: State, f: nat)
    requires Inv(s) && f in s.threads && s.threads[f].Computing?
    ensures s.cacheLock.Free?
  {
    assert forall g :: g in s.threads ==> ThreadInv(s, g, s.threads[g]);
    assert forall g :: g in s.threads && s.threads[g].Storing? ==> s.storeLock == HeldBy(g);
    assert s.storeLock == HeldBy(f);
  }

  lemma {:induction false} FreshId(ids: set<nat>) returns (id: nat)
    ensures forall k :: k in ids ==> k < id
    decreases ids
  {
    if ids == {} {
      id := 0;
    } else {
      var k :| k in ids;
      var others := FreshId(ids - {k});
      id := if others <= k then k + 1 else others;
      forall j | j in ids ensures j < id {
        assert j == k || j in ids - {k};
      }
    }
  }

  /** The invalidation of write number `side` beside the lock can be lost: some later request may miss it. */
  ghost predicate CanBeLost(s: State, side: nat) {
    exists actions, id :: Misses(s, actions, id, 0, side)
  }

  /** The invalidation of a write beside the lock can be lost exactly when, at that moment, a first-page reader holds a
      snapshot without the write and has still to fill the cache, or has filled it less than ten seconds before and
      has still to take the flag down. */
  lemma SideInvalidationLostExactly(now: int, s: State, w: nat)
    requires Reaches(now, s) && w in s.threads && s.threads[w].SideWritten?
    ensures var side := s.threads[w].side;
            CanBeLost(Step(s, InvalidateBeside(w)), side) <==> !NoStaleFiller(s, side)
  {
    var side := s.threads[w].side;
    var t := Step(s, InvalidateBeside(w));
    ReachesStep(now, s, InvalidateBeside(w));
    ReachableInv(now, t);
    if NoStaleFiller(s, side) {
      assert side <= t.sideFloor;
      forall actions, id ensures !Misses(t, actions, id, 0, side) {
        NeverMisses(now, t, actions, id, 0, side);
      }
    } else {
      var f :| f in s.threads && StaleFiller(s, s.threads[f], side);
      assert t.threads[f] == s.threads[f];
      LostThrough(t, f, side);
    }
  }

  lemma LostThrough(t: State, f: nat, side: nat)
    requires Inv(t) && f in t.threads && StaleFiller(t, t.threads[f], side)
    ensures CanBeLost(t, side)
  {
    var fill := StaleFillerFills(t, f, side);
    var u := Run(t, fill);
    var id := FreshId(u.threads.Keys);
    assert id !in u.threads;
    var serve := ServedFromEntry(u, id);
    RunAppend(t, fill, serve);
    hide Run, Step, Inv, StaleFiller;
    assert Misses(t, fill + serve, id, 0, side);
  }

  // ---- One such run ----

  lemma Then(s: State, a: Action) returns (t: State)
    requires Reaches(0, s)
    ensures t == Step(s, a) && Reaches(0, t)
  {
    t := Step(s, a);
    ReachesStep(0, s, a);
  }

  lemma AtStart()
    ensures Reaches(0, Init(0))
  {
    assert Run(Init(0), []) == Init(0);
  }

  /** A reader takes its snapshot, another connection writes and invalidates, the reader clears the flag. */
  lemma FlagClearedAfterInvalidation(key: string) returns (s: State)
    ensures Reaches(0, s) && s.side == 1 && s.threads.Keys == {0, 1} && s.threads[1].WriterEnded?
    ensures !s.dirty && s.cacheLock.Free? && s.slot == Entry(Snapshot(key, 0, 0), 0) && s.now == 0
  {
    hide Reaches;
    s := Init(0);
    AtStart();
    s := Then(s, Ask(0, key, true));
    s := Then(s, LoadFlag(0));
    s := Then(s, LockStore(0));
    s := Then(s, WriteBeside(1));
    s := Then(s, InvalidateBeside(1));
    s := Then(s, FillSlot(0));
    s := Then(s, ClearFlag(0));
  }

  /** A request that starts after a write beside the lock and its invalidation is served the overview from
      before the write. */
  lemma SideInvalidationMayBeLost(key: string) returns (s: State)
    ensures Reaches(0, s) && 1 in s.threads && s.threads[1].WriterEnded? && s.side == 1
    ensures 2 in s.threads && s.threads[2].Served? && s.threads[2].snapshot == Snapshot(key, 0, 0)
  {
    hide Reaches;
    s := FlagClearedAfterInvalidation(key);
    s := Then(s, Ask(2, key, true));
    s := Then(s, LoadFlag(2));
    s := Then(s, ReadSlot(2));
  }
}
