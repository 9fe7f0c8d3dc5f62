/** The response cache under concurrent callers. One step is one critical section, or one atomic
    load or store outside them; any number of threads interleave. `clearMu` is a read-write lock,
    so a step that takes it exclusively is possible only when no thread is inside.
    (internal/cache/response_cache.go) */
module CacheProtocol {
  import opened Common
  import opened CacheStore
  import opened CacheEviction

  /** What one generation bump invalidates. */
  datatype Cut = Everything | Target(siteID: nat, path: string)

  predicate Hits(c: Cut, e: Entry)
  {
    c.Everything? || (e.siteID == c.siteID && OfPath(c.path, e.targetURI))
  }

  /** Where a thread is. `gen` is the generation number it holds, `seen` how many cuts had been
      made when it read it. */
  datatype Pc =
    | Idle
    | Filling(gen: nat, seen: nat)
    | SetWant(gen: nat, seen: nat, key: string, entry: Entry)
    | SetOn(gen: nat, seen: nat, key: string, entry: Entry)
    | SetReady(gen: nat, seen: nat, key: string, entry: Entry)
    | GetOn(key: string)
    | GetRead(key: string)
    | GetStale(key: string, entry: Entry)
    | LookOn(gen: nat, seen: nat, key: string)
    | LookRead(gen: nat, seen: nat, key: string)
    | Touching(key: string, entry: Entry)
    | Cleaning
    | ClearWant
    | ClearHeld
    | ClearBumped
    | PurgeWant(siteID: nat, path: string)
    | PurgeHeld(siteID: nat, path: string)
    | PurgeBumped(siteID: nat, path: string)

  predicate HoldsRead(p: Pc)
  {
    p.SetWant? || p.SetOn? || p.SetReady? || p.GetRead? || p.GetStale? || p.LookRead? || p.Touching? || p.Cleaning?
  }

  predicate HoldsWrite(p: Pc)
  {
    p.ClearHeld? || p.ClearBumped? || p.PurgeHeld? || p.PurgeBumped?
  }

  predicate Bumped(p: Pc)
  {
    p.ClearBumped? || p.PurgeBumped?
  }

  /** Progress of the latest switch from on to off. */
  datatype Off = On | Pending(caller: nat) | Done

  /** `cuts`, `born` (how many cuts the fill of an entry had seen) and `off` record the history. */
  datatype Sys = Sys(store: Store, enabled: bool, gen: nat, pcs: map<nat, Pc>, nextId: nat,
                     cuts: seq<Cut>, born: map<nat, nat>, off: Off)

  function At(s: Sys, t: nat): Pc
  {
    if t in s.pcs then s.pcs[t] else Idle
  }

  function To(s: Sys, t: nat, p: Pc): Sys
  {
    s.(pcs := s.pcs[t := p])
  }

  ghost predicate NoWriter(s: Sys)
  {
    forall t :: !HoldsWrite(At(s, t))
  }

  ghost predicate Unlocked(s: Sys)
  {
    forall t :: !HoldsWrite(At(s, t)) && !HoldsRead(At(s, t))
  }

  datatype Step =
    | ReadGeneration(t: nat)
    | BeginSet(t: nat, key: string, entry: Entry)
    | BeginPlainSet(t: nat, key: string, entry: Entry)
    | CheckEnabled(t: nat)
    | CheckGeneration(t: nat)
    | StoreEntry(t: nat, now: int, after: Store)
    | BeginGet(t: nat, key: string)
    | LockGet(t: nat)
    | LookGet(t: nat, now: int)
    | ExpireGet(t: nat)
    | BeginLook(t: nat, key: string)
    | LockLook(t: nat)
    | AnswerLook(t: nat)
    | TouchHit(t: nat, nano: int)
    | BeginClean(t: nat)
    | Clean(t: nat, now: int, after: Store)
    | BeginClear(t: nat)
    | LockClear(t: nat)
    | BumpClear(t: nat)
    | Wipe(t: nat)
    | BeginPurge(t: nat, siteID: nat, targetURI: string)
    | LockPurge(t: nat)
    | BumpPurge(t: nat)
    | Purge(t: nat, after: Store)
    | Switch(t: nat, on: bool)

  /** The object under the key is still the one that was read. */
  predicate SameObject(s: Sys, key: string, e: Entry)
    requires |s.store.shards| == SHARDS
  {
    key in s.store.shards[ShardOf(key)] && s.store.shards[ShardOf(key)][key].id == e.id
  }

  function Found(s: Sys, key: string): Entry
    requires |s.store.shards| == SHARDS && key in s.store.shards[ShardOf(key)]
  {
    s.store.shards[ShardOf(key)][key]
  }

  predicate Present(s: Sys, key: string)
    requires |s.store.shards| == SHARDS
  {
    key in s.store.shards[ShardOf(key)]
  }

  /** A response that passed the size checks; a lifetime of zero has been replaced. */
  predicate WellSized(e: Entry, lim: Limits)
  {
    0 < e.sizeBytes <= lim.maxSize / 10 && e.ttl > 0
  }

  /** When the step is possible, and what the scheduler's choices inside it may be. */
  ghost predicate Can(lim: Limits, s: Sys, a: Step)
    requires |s.store.shards| == SHARDS
  {
    match a
    case ReadGeneration(t) => At(s, t).Idle?
    case BeginSet(t, key, entry) => At(s, t).Filling? && NoWriter(s) && WellSized(entry, lim)
    case BeginPlainSet(t, key, entry) => At(s, t).Idle? && NoWriter(s) && WellSized(entry, lim)
    case CheckEnabled(t) => At(s, t).SetWant?
    case CheckGeneration(t) => At(s, t).SetOn?
    case StoreEntry(t, now, after) =>
      At(s, t).SetReady? &&
      (At(s, t).gen == s.gen ==>
        Removes(Inserted(s, t), after) && Evicted(Items(Inserted(s, t).shards), Items(after.shards), now, lim))
    case BeginGet(t, key) => At(s, t).Idle?
    case LockGet(t) => At(s, t).GetOn? && NoWriter(s)
    case LookGet(t, now) => At(s, t).GetRead?
    case ExpireGet(t) => At(s, t).GetStale?
    case BeginLook(t, key) => At(s, t).Filling?
    case LockLook(t) => At(s, t).LookOn? && NoWriter(s)
    case AnswerLook(t) => At(s, t).LookRead?
    case TouchHit(t, nano) => At(s, t).Touching?
    case BeginClean(t) => At(s, t).Idle? && NoWriter(s)
    case Clean(t, now, after) =>
      At(s, t).Cleaning? && Removes(s.store, after) && Items(after.shards) == Sweep(Items(s.store.shards), SHARDS, now)
    case BeginClear(t) => At(s, t).Idle?
    case LockClear(t) => At(s, t).ClearWant? && Unlocked(s)
    case BumpClear(t) => At(s, t).ClearHeld?
    case Wipe(t) => At(s, t).ClearBumped?
    case BeginPurge(t, siteID, targetURI) => At(s, t).Idle? && siteID != 0
    case LockPurge(t) => At(s, t).PurgeWant? && Unlocked(s)
    case BumpPurge(t) => At(s, t).PurgeHeld?
    case Purge(t, after) =>
      At(s, t).PurgeBumped? && Removes(s.store, after)
      && Items(after.shards) == PurgedPath(Items(s.store.shards), At(s, t).siteID, At(s, t).path)
    case Switch(t, on) => At(s, t).Idle?
  }

  /** The store right after the new entry replaced what was there. */
  function Inserted(s: Sys, t: nat): (st: Store)
    requires |s.store.shards| == SHARDS && At(s, t).SetReady?
    ensures |st.shards| == SHARDS
  {
    Put(s.store, At(s, t).key, At(s, t).entry.(id := s.nextId))
  }

  ghost function PurgedPath(items: map<string, Entry>, siteID: nat, path: string): map<string, Entry>
  {
    map k | k in items && !Hits(Target(siteID, path), items[k]) :: items[k]
  }

  function NextGen(g: nat): nat
  {
    (g + 1) % TWO_TO_THE_64
  }

  /** Where the step takes its thread. */
  function Place(s: Sys, a: Step): Pc
    requires |s.store.shards| == SHARDS
  {
    var p := At(s, a.t);
    match a
    case ReadGeneration(t) => Filling(s.gen, |s.cuts|)
    case BeginSet(t, key, entry) => if p.Filling? then SetWant(p.gen, p.seen, key, entry) else p
    case BeginPlainSet(t, key, entry) => SetWant(s.gen, |s.cuts|, key, entry)
    case CheckEnabled(t) => if p.SetWant? && s.enabled then SetOn(p.gen, p.seen, p.key, p.entry) else Idle
    case CheckGeneration(t) => if p.SetOn? && s.gen == p.gen then SetReady(p.gen, p.seen, p.key, p.entry) else Idle
    case BeginGet(t, key) => if s.enabled then GetOn(key) else p
    case LockGet(t) => if p.GetOn? then GetRead(p.key) else p
    case LookGet(t, now) =>
      if p.GetRead? && Present(s, p.key) then
        if Expired(Found(s, p.key), now) then GetStale(p.key, Found(s, p.key)) else Touching(p.key, Found(s, p.key))
      else Idle
    case BeginLook(t, key) => if s.enabled && p.Filling? then LookOn(p.gen, p.seen, key) else p
    case LockLook(t) => if p.LookOn? then LookRead(p.gen, p.seen, p.key) else p
    case AnswerLook(t) =>
      if p.LookRead? && s.gen == p.gen && Present(s, p.key) then Touching(p.key, Found(s, p.key)) else Idle
    case BeginClean(t) => Cleaning
    case BeginClear(t) => ClearWant
    case LockClear(t) => ClearHeld
    case BumpClear(t) => ClearBumped
    case BeginPurge(t, siteID, targetURI) => PurgeWant(siteID, TargetPath(targetURI))
    case LockPurge(t) => if p.PurgeWant? then PurgeHeld(p.siteID, p.path) else p
    case BumpPurge(t) => if p.PurgeHeld? then PurgeBumped(p.siteID, p.path) else p
    case Switch(t, on) => if s.enabled && !on then ClearWant else p
    case _ => Idle
  }

  /** What the step does: it moves its thread, and some steps change what is shared. */
  function Do(s: Sys, a: Step): Sys
    requires |s.store.shards| == SHARDS
  {
    var p, n := At(s, a.t), To(s, a.t, Place(s, a));
    match a
    case StoreEntry(t, now, after) =>
      if p.SetReady? && s.gen == p.gen
      then n.(store := after, nextId := s.nextId + 1, born := s.born[s.nextId := p.seen]) else n
    case ExpireGet(t) =>
      if p.GetStale? && SameObject(s, p.key, p.entry) then n.(store := Drop(s.store, p.key)) else n
    case TouchHit(t, nano) =>
      if p.Touching? && SameObject(s, p.key, p.entry) then n.(store := Touch(s.store, p.key, nano)) else n
    case Clean(t, now, after) => n.(store := after)
    case BumpClear(t) => n.(gen := NextGen(s.gen), cuts := s.cuts + [Everything])
    case Wipe(t) => n.(store := EmptyStore(), off := if s.off == Pending(t) then Done else s.off)
    case BumpPurge(t) =>
      if p.PurgeHeld? then n.(gen := NextGen(s.gen), cuts := s.cuts + [Target(p.siteID, p.path)]) else n
    case Purge(t, after) => n.(store := after)
    case Switch(t, on) =>
      if s.enabled && !on then n.(enabled := false, off := Pending(t))
      else n.(enabled := on, off := if on then On else s.off)
    case _ => n
  }

  // ---------------------------------------------------------------------------------------
  // Invariants
  // ---------------------------------------------------------------------------------------

  /** The read-write lock: a writer excludes everyone else. */
  ghost predicate LockInv(s: Sys)
  {
    forall t, u :: HoldsWrite(At(s, t)) && (HoldsRead(At(s, u)) || HoldsWrite(At(s, u))) ==> t == u
  }

  ghost function Stored(s: Sys): map<string, Entry>
    requires |s.store.shards| == SHARDS
  {
    Items(s.store.shards)
  }

  /** Counters, shards and reverse index are exact, the limits hold, identities are fresh. */
  ghost predicate StoreInv(lim: Limits, s: Sys)
  {
    && ValidStore(s.store, lim)
    && |s.store.shards| == SHARDS
    && (forall k :: k in Stored(s) ==> Stored(s)[k].id < s.nextId)
  }

  predicate SameButAccess(a: Entry, b: Entry)
  {
    a.(lastAccess := 0) == b.(lastAccess := 0)
  }

  /** The entry a thread holds on to is either still stored as it was, or no longer stored. */
  ghost predicate Held(s: Sys, key: string, e: Entry)
    requires |s.store.shards| == SHARDS
  {
    e.id < s.nextId && (key in Stored(s) && Stored(s)[key].id == e.id ==> SameButAccess(Stored(s)[key], e))
  }

  ghost predicate HeldInv(s: Sys)
    requires |s.store.shards| == SHARDS
  {
    forall t :: At(s, t).GetStale? || At(s, t).Touching? ==> Held(s, At(s, t).key, At(s, t).entry)
  }

  predicate KnowsGeneration(p: Pc)
  {
    p.Filling? || p.SetWant? || p.SetOn? || p.SetReady? || p.LookOn? || p.LookRead?
  }

  /** Generation numbers count cuts, modulo the width of the counter. */
  ghost predicate FenceInv(s: Sys)
  {
    && s.gen == |s.cuts| % TWO_TO_THE_64
    && (forall t :: KnowsGeneration(At(s, t)) ==>
          At(s, t).seen <= |s.cuts| && At(s, t).gen == At(s, t).seen % TWO_TO_THE_64)
    && (forall t :: At(s, t).ClearBumped? ==> s.cuts != [] && s.cuts[|s.cuts| - 1] == Everything)
    && (forall t :: At(s, t).PurgeBumped? ==>
          s.cuts != [] && s.cuts[|s.cuts| - 1] == Target(At(s, t).siteID, At(s, t).path))
  }

  /** Some call has bumped the generation and not yet finished its removal. */
  ghost predicate Removing(s: Sys)
  {
    exists t :: Bumped(At(s, t))
  }

  /** Cut number c has been made, and the call that made it is past its removal. */
  ghost predicate Completed(s: Sys, c: nat)
  {
    c < |s.cuts| && (c == |s.cuts| - 1 ==> !Removing(s))
  }

  /** The entry was fetched after every completed cut that hits it. */
  ghost predicate Fresh(s: Sys, e: Entry)
  {
    e.id in s.born && forall c: nat :: Completed(s, c) && Hits(s.cuts[c], e) ==> c < s.born[e.id]
  }

  ghost predicate FreshInv(s: Sys)
    requires |s.store.shards| == SHARDS
  {
    |s.cuts| < TWO_TO_THE_64 ==> forall k :: k in Stored(s) ==> Fresh(s, Stored(s)[k])
  }

  /** Once the switch to off has finished, nothing is stored and nothing can be. */
  ghost predicate OffInv(s: Sys)
    requires |s.store.shards| == SHARDS
  {
    && (s.enabled <==> s.off == On)
    && (s.off == Done ==> Stored(s) == map[] && forall t :: !At(s, t).SetOn? && !At(s, t).SetReady?)
  }

  ghost predicate SizedInv(lim: Limits, s: Sys)
  {
    forall t :: At(s, t).SetWant? || At(s, t).SetOn? || At(s, t).SetReady? ==> WellSized(At(s, t).entry, lim)
  }

  ghost predicate Inv(lim: Limits, s: Sys)
  {
    && LockInv(s) && SizedInv(lim, s) && StoreInv(lim, s) && HeldInv(s)
    && FenceInv(s) && FreshInv(s) && OffInv(s)
  }

  // ---------------------------------------------------------------------------------------
  // Every step keeps the invariants
  // ---------------------------------------------------------------------------------------

  /** A step moves one thread only. */
  lemma OthersStay(s: Sys, a: Step)
    requires |s.store.shards| == SHARDS
    ensures forall t :: At(Do(s, a), t) == if t == a.t then Place(s, a) else At(s, t)
  {
    hide Items, Removes, Evicted, Drop, Touch, Put, Place, SameObject, EmptyStore;
  }

  /** What a step may do to the lock. */
  lemma LockUse(lim: Limits, s: Sys, a: Step)
    requires |s.store.shards| == SHARDS && Can(lim, s, a)
    ensures HoldsWrite(At(Do(s, a), a.t)) ==> HoldsWrite(At(s, a.t)) || Unlocked(s)
    ensures HoldsRead(At(Do(s, a), a.t)) ==> HoldsRead(At(s, a.t)) || NoWriter(s)
  {
    hide Items, Removes, Evicted, Do, Sweep, PurgedPath, Found, Present, Expired;
    OthersStay(s, a);
  }

  lemma LockStep(lim: Limits, s: Sys, a: Step)
    requires |s.store.shards| == SHARDS && LockInv(s) && Can(lim, s, a)
    ensures LockInv(Do(s, a))
  {
    hide Do, Can;
    OthersStay(s, a);
    LockUse(lim, s, a);
    var n := Do(s, a);
    forall t, u | HoldsWrite(At(n, t)) && (HoldsRead(At(n, u)) || HoldsWrite(At(n, u)))
      ensures t == u
    {
      assert !HoldsWrite(At(s, t)) || !(HoldsRead(At(s, u)) || HoldsWrite(At(s, u))) || t == u;
    }
  }

  /** Between two states no entry appeared and none changed but for its access time. */
  ghost predicate Shrinks(s: Sys, n: Sys)
  {
    && |s.store.shards| == |n.store.shards| == SHARDS
    && n.nextId == s.nextId && n.born == s.born
    && forall k :: k in Stored(n) ==> k in Stored(s) && SameButAccess(Stored(n)[k], Stored(s)[k])
  }

  predicate ChangesStore(a: Step)
  {
    a.StoreEntry? || a.ExpireGet? || a.TouchHit? || a.Clean? || a.Wipe? || a.Purge?
  }

  lemma OtherStepsKeepStore(s: Sys, a: Step)
    requires |s.store.shards| == SHARDS && !ChangesStore(a)
    ensures Do(s, a).store == s.store && Do(s, a).nextId == s.nextId && Do(s, a).born == s.born
  {
    hide Items, Removes, Evicted, Drop, Touch, Put, Sweep, PurgedPath;
  }

  /** Removals by a list of single deletions leave a valid store. */
  lemma RemovalStep(lim: Limits, s: Sys, after: Store)
    requires ValidStore(s.store, lim) && |s.store.shards| == SHARDS && Removes(s.store, after)
    ensures |after.shards| == SHARDS && ValidStore(after, lim) && SubMap(Items(after.shards), Items(s.store.shards))
  {
    hide IndexExact, SumSizes, Items, Fits, Bounded;
    var victims :| after == DropAll(s.store, victims);
    DropAllConsistent(s.store, victims);
    ValidRemoved(s.store, after, lim);
  }

  lemma ExpireStep(lim: Limits, s: Sys, t: nat)
    requires StoreInv(lim, s) && At(s, t).GetStale?
    ensures Shrinks(s, Do(s, ExpireGet(t))) && ValidStore(Do(s, ExpireGet(t)).store, lim)
  {
    hide Consistent, Items, Fits, Bounded;
    var p := At(s, t);
    ValidFind(s.store, p.key);
    if SameObject(s, p.key, p.entry) {
      ValidDrop(s.store, p.key, lim);
    }
  }

  lemma TouchStep(lim: Limits, s: Sys, t: nat, nano: int)
    requires StoreInv(lim, s) && At(s, t).Touching?
    ensures Shrinks(s, Do(s, TouchHit(t, nano))) && ValidStore(Do(s, TouchHit(t, nano)).store, lim)
  {
    hide Consistent, Items, Fits, Bounded;
    var p := At(s, t);
    ValidFind(s.store, p.key);
    if SameObject(s, p.key, p.entry) {
      ValidTouch(s.store, p.key, nano, lim);
    }
  }

  /** Every step but a store only shrinks the content. */
  lemma ShrinkStep(lim: Limits, s: Sys, a: Step)
    requires 0 <= lim.maxSize && 0 <= lim.maxEntries
    requires StoreInv(lim, s) && Can(lim, s, a) && !a.StoreEntry?
    ensures Shrinks(s, Do(s, a)) && ValidStore(Do(s, a).store, lim)
  {
    hide Consistent, Items, Fits, Bounded;
    match a
    case ExpireGet(t) => ExpireStep(lim, s, t);
    case TouchHit(t, nano) => TouchStep(lim, s, t, nano);
    case Clean(t, now, after) => RemovalStep(lim, s, after);
    case Purge(t, after) => RemovalStep(lim, s, after);
    case Wipe(t) => ValidEmpty(lim);
    case _ => OtherStepsKeepStore(s, a);
  }

  /** What a successful store leaves: old entries, and possibly the new one under a new identity. */
  lemma StoreStep(lim: Limits, s: Sys, t: nat, now: int, after: Store)
    requires StoreInv(lim, s) && Can(lim, s, StoreEntry(t, now, after)) && At(s, t).gen == s.gen
    requires WellSized(At(s, t).entry, lim)
    ensures |after.shards| == SHARDS && ValidStore(after, lim)
    ensures SubMap(Items(after.shards), Stored(s)[At(s, t).key := At(s, t).entry.(id := s.nextId)])
  {
    hide IndexExact, SumSizes, Items, Fits, Bounded, Evicted;
    var p := At(s, t);
    ValidPut(s.store, p.key, p.entry.(id := s.nextId), lim);
    var put := Inserted(s, t);
    var victims :| after == DropAll(put, victims);
    DropAllConsistent(put, victims);
    ValidEvicted(put, after, now, lim);
    EvictionRestoresLimits(Content(put), Content(after), now, lim);
  }

  lemma SizedMove(lim: Limits, s: Sys, a: Step)
    requires |s.store.shards| == SHARDS && SizedInv(lim, s) && Can(lim, s, a)
    ensures var p := At(Do(s, a), a.t); p.SetWant? || p.SetOn? || p.SetReady? ==> WellSized(p.entry, lim)
  {
    hide Items, Removes, Evicted, Do, Sweep, PurgedPath, Found, Present, Expired;
    OthersStay(s, a);
  }

  lemma SizedStep(lim: Limits, s: Sys, a: Step)
    requires |s.store.shards| == SHARDS && SizedInv(lim, s) && Can(lim, s, a)
    ensures SizedInv(lim, Do(s, a))
  {
    hide Do, Can;
    OthersStay(s, a);
    SizedMove(lim, s, a);
  }

  /** A thread takes hold only of an entry that is stored at that moment. */
  lemma NewHolding(lim: Limits, s: Sys, a: Step)
    requires StoreInv(lim, s) && Can(lim, s, a)
    ensures var p := At(Do(s, a), a.t); p.GetStale? || p.Touching? ==> Held(s, p.key, p.entry)
  {
    hide ValidStore, Items, Evicted, Removes, Drop, Touch, Put, Sweep, PurgedPath, Held;
    if a.LookGet? || a.AnswerLook? {
      FoundIsStored(lim, s, At(s, a.t).key);
    } else {
      NothingHeldByOthers(lim, s, a);
    }
  }

  lemma NothingHeldByOthers(lim: Limits, s: Sys, a: Step)
    requires |s.store.shards| == SHARDS && Can(lim, s, a) && !a.LookGet? && !a.AnswerLook?
    ensures !At(Do(s, a), a.t).GetStale? && !At(Do(s, a), a.t).Touching?
  {
    hide Items, Evicted, Removes, Do, Sweep, PurgedPath, Found, Present, Expired;
    OthersStay(s, a);
  }

  lemma FoundIsStored(lim: Limits, s: Sys, key: string)
    requires StoreInv(lim, s)
    ensures Present(s, key) <==> key in Stored(s)
    ensures Present(s, key) ==> Found(s, key) == Stored(s)[key] && Held(s, key, Found(s, key))
  {
    hide IndexExact, SumSizes, Items, Fits, Bounded;
    InItems(s.store.shards, key);
  }

  /** Identities stay below the counter, and what a thread holds on to stays true. */
  lemma HeldStep(lim: Limits, s: Sys, a: Step)
    requires 0 <= lim.maxSize && 0 <= lim.maxEntries
    requires StoreInv(lim, s) && HeldInv(s) && SizedInv(lim, s) && Can(lim, s, a)
    ensures StoreInv(lim, Do(s, a)) && HeldInv(Do(s, a))
  {
    hide ValidStore, Items, Do, Can, SizedInv, Held;
    OthersStay(s, a);
    NewHolding(lim, s, a);
    StoreMove(lim, s, a);
    var n := Do(s, a);
    forall t | At(n, t).GetStale? || At(n, t).Touching?
      ensures Held(n, At(n, t).key, At(n, t).entry)
    {
      assert Held(s, At(n, t).key, At(n, t).entry);
      HeldStays(s, n, a.t, At(n, t).key, At(n, t).entry);
    }
  }

  lemma HeldStays(s: Sys, n: Sys, t: nat, key: string, e: Entry)
    requires Shrinks(s, n) || Grows(s, n, t)
    requires Held(s, key, e)
    ensures Held(n, key, e)
  {
    hide Items;
  }

  /** Either nothing new is stored, or the entry being set, under a new identity. */
  ghost predicate Grows(s: Sys, n: Sys, t: nat)
  {
    && |s.store.shards| == |n.store.shards| == SHARDS
    && At(s, t).SetReady? && At(s, t).gen == s.gen
    && n.nextId == s.nextId + 1 && n.born == s.born[s.nextId := At(s, t).seen]
    && SubMap(Stored(n), Stored(s)[At(s, t).key := At(s, t).entry.(id := s.nextId)])
  }

  lemma StoreMove(lim: Limits, s: Sys, a: Step)
    requires 0 <= lim.maxSize && 0 <= lim.maxEntries
    requires StoreInv(lim, s) && SizedInv(lim, s) && Can(lim, s, a)
    ensures ValidStore(Do(s, a).store, lim)
    ensures Shrinks(s, Do(s, a)) || (a.StoreEntry? && Grows(s, Do(s, a), a.t) && At(Do(s, a), a.t).Idle?)
  {
    hide ValidStore, Items, Evicted, Removes, Bounded;
    if a.StoreEntry? {
      if At(s, a.t).gen == s.gen {
        StoreStep(lim, s, a.t, a.now, a.after);
      }
    } else {
      ShrinkStep(lim, s, a);
    }
  }

  lemma KnownMove(lim: Limits, s: Sys, a: Step)
    requires |s.store.shards| == SHARDS && FenceInv(s) && Can(lim, s, a)
    ensures KnowsGeneration(At(Do(s, a), a.t)) ==>
            At(Do(s, a), a.t).seen <= |s.cuts| && At(Do(s, a), a.t).gen == At(Do(s, a), a.t).seen % TWO_TO_THE_64
  {
    hide Items, Removes, Evicted, Do, Sweep, PurgedPath, Found, Present, Expired;
    OthersStay(s, a);
  }

  /** Only the two bumps lead to the places after them. */
  lemma OnlyBumpsBump(s: Sys, a: Step)
    requires |s.store.shards| == SHARDS && !a.BumpClear? && !a.BumpPurge?
    ensures Bumped(Place(s, a)) ==> Place(s, a) == At(s, a.t)
  {
    hide Items, Found, Present, Expired;
  }

  lemma OnlyBumpsCut(s: Sys, a: Step)
    requires |s.store.shards| == SHARDS && !a.BumpClear? && !a.BumpPurge?
    ensures Do(s, a).cuts == s.cuts
  {
    hide Items, Drop, Touch, Put, Place, SameObject, EmptyStore;
  }

  lemma LastCutMove(lim: Limits, s: Sys, a: Step)
    requires |s.store.shards| == SHARDS && FenceInv(s) && Can(lim, s, a)
    ensures var n, p := Do(s, a), At(Do(s, a), a.t);
      && (p.ClearBumped? ==> n.cuts != [] && n.cuts[|n.cuts| - 1] == Everything)
      && (p.PurgeBumped? ==> n.cuts != [] && n.cuts[|n.cuts| - 1] == Target(p.siteID, p.path))
  {
    hide Items, Removes, Evicted, Sweep, PurgedPath;
    OthersStay(s, a);
    if a.BumpClear? || a.BumpPurge? {
      LastCutBump(s, a);
    } else {
      hide Do, Can, Place;
      OnlyBumpsBump(s, a);
      OnlyBumpsCut(s, a);
    }
  }

  lemma LastCutBump(s: Sys, a: Step)
    requires |s.store.shards| == SHARDS && (a.BumpClear? || (a.BumpPurge? && At(s, a.t).PurgeHeld?))
    ensures var n, p := Do(s, a), At(Do(s, a), a.t);
      && (p.ClearBumped? ==> n.cuts != [] && n.cuts[|n.cuts| - 1] == Everything)
      && (p.PurgeBumped? ==> n.cuts != [] && n.cuts[|n.cuts| - 1] == Target(p.siteID, p.path))
  {
    hide Items;
  }

  lemma FenceStep(lim: Limits, s: Sys, a: Step)
    requires |s.store.shards| == SHARDS && LockInv(s) && FenceInv(s) && Can(lim, s, a)
    ensures FenceInv(Do(s, a))
  {
    hide Do, Can;
    OthersStay(s, a);
    CutsMove(lim, s, a);
    BumpMove(lim, s, a);
    KnownMove(lim, s, a);
    LastCutMove(lim, s, a);
  }

  /** Cuts are only added, one at a time, by the thread that holds the lock exclusively. */
  lemma CutsMove(lim: Limits, s: Sys, a: Step)
    requires |s.store.shards| == SHARDS && FenceInv(s) && Can(lim, s, a)
    ensures Do(s, a).gen == |Do(s, a).cuts| % TWO_TO_THE_64
    ensures Do(s, a).cuts == s.cuts ||
            (|Do(s, a).cuts| == |s.cuts| + 1 && s.cuts <= Do(s, a).cuts && (a.BumpClear? || a.BumpPurge?))
  {
    hide Items, Removes, Evicted, Drop, Touch, Put, Sweep, PurgedPath;
  }

  lemma BumpMove(lim: Limits, s: Sys, a: Step)
    requires |s.store.shards| == SHARDS && Can(lim, s, a)
    ensures a.BumpClear? || a.BumpPurge? ==> HoldsWrite(At(s, a.t)) && !Bumped(At(s, a.t)) && Bumped(At(Do(s, a), a.t))
    ensures Bumped(At(s, a.t)) && !Bumped(At(Do(s, a), a.t)) ==> a.Wipe? || a.Purge?
  {
    hide Items, Removes, Evicted, Drop, Touch, Put, Sweep, PurgedPath;
  }

  /** A cut becomes complete by the removal of the call that made it. */
  lemma CompletedBefore(lim: Limits, s: Sys, a: Step, c: nat)
    requires |s.store.shards| == SHARDS && LockInv(s) && FenceInv(s) && Can(lim, s, a)
    requires Completed(Do(s, a), c)
    ensures c < |s.cuts| && Do(s, a).cuts[c] == s.cuts[c]
    ensures Completed(s, c) || (c == |s.cuts| - 1 && (a.Wipe? || a.Purge?) && Bumped(At(s, a.t)))
  {
    hide Do, Can;
    OthersStay(s, a);
    CutsMove(lim, s, a);
    BumpMove(lim, s, a);
    if c < |s.cuts| && !Completed(s, c) {
      var t :| Bumped(At(s, t));
      assert t == a.t;
    }
  }

  /** The removal of a purge leaves nothing that its own cut hits. */
  lemma RemovalIsComplete(lim: Limits, s: Sys, a: Step)
    requires |s.store.shards| == SHARDS && FenceInv(s) && Can(lim, s, a)
    requires a.Purge? && |Do(s, a).store.shards| == SHARDS
    ensures s.cuts != []
    ensures forall k :: k in Stored(Do(s, a)) ==> !Hits(s.cuts[|s.cuts| - 1], Stored(Do(s, a))[k])
  {
    hide Removes, Evicted, Items;
  }

  /** The generation check lets a fill through exactly when the number of cuts made since it read the
      number is a multiple of 2^64: with fewer cuts than that in all, when there was none. */
  lemma SameGenerationIff(s: Sys, t: nat)
    requires FenceInv(s) && KnowsGeneration(At(s, t))
    ensures At(s, t).gen == s.gen <==> (|s.cuts| - At(s, t).seen) % TWO_TO_THE_64 == 0
    ensures |s.cuts| < TWO_TO_THE_64 && At(s, t).gen == s.gen ==> At(s, t).seen == |s.cuts|
  {
    var a, b, m := |s.cuts|, At(s, t).seen, TWO_TO_THE_64;
    assert At(s, t).gen == b % m && s.gen == a % m;
    assert a - b == m * (a / m - b / m) + (a % m - b % m);
  }

  /** A stored entry was fetched after every completed cut that hits it, and stays so. */
  lemma FreshStep(lim: Limits, s: Sys, a: Step)
    requires 0 <= lim.maxSize && 0 <= lim.maxEntries
    requires Inv(lim, s) && Can(lim, s, a)
    ensures |Do(s, a).store.shards| == SHARDS && FreshInv(Do(s, a))
  {
    StoreMove(lim, s, a);
    CutsMove(lim, s, a);
    var n := Do(s, a);
    if a.Wipe? {
      EmptyIsConsistent();
    } else if |n.cuts| < TWO_TO_THE_64 {
      hide ValidStore, Items, Do, Can;
      forall k | k in Stored(n)
        ensures Fresh(n, Stored(n)[k])
      {
        if k in Stored(s) && SameButAccess(Stored(n)[k], Stored(s)[k]) {
          OldEntryFresh(lim, s, a, k);
        } else {
          NewEntryFresh(lim, s, a, k);
        }
      }
    }
  }

  lemma OldEntryFresh(lim: Limits, s: Sys, a: Step, k: string)
    requires Inv(lim, s) && Can(lim, s, a) && !a.Wipe? && |s.cuts| < TWO_TO_THE_64
    requires Shrinks(s, Do(s, a)) || Grows(s, Do(s, a), a.t)
    requires k in Stored(s) && k in Stored(Do(s, a)) && SameButAccess(Stored(Do(s, a))[k], Stored(s)[k])
    ensures Fresh(Do(s, a), Stored(Do(s, a))[k])
  {
    hide ValidStore, Items, Do, Can, HeldInv, SizedInv, LockInv, FenceInv, OffInv, SubMap;
    var n, e := Do(s, a), Stored(Do(s, a))[k];
    assert Fresh(s, Stored(s)[k]);
    assert e.id < s.nextId;
    forall c: nat | Completed(n, c) && Hits(n.cuts[c], e)
      ensures c < n.born[e.id]
    {
      CompletedBefore(lim, s, a, c);
      if !Completed(s, c) {
        RemovalIsComplete(lim, s, a);
      }
    }
  }

  lemma NewEntryFresh(lim: Limits, s: Sys, a: Step, k: string)
    requires Inv(lim, s) && Can(lim, s, a) && |s.cuts| < TWO_TO_THE_64
    requires Grows(s, Do(s, a), a.t) && k in Stored(Do(s, a))
    requires Stored(Do(s, a))[k] == At(s, a.t).entry.(id := s.nextId)
    ensures Fresh(Do(s, a), Stored(Do(s, a))[k])
  {
    hide ValidStore, Items, Do, Can, HeldInv, SizedInv, LockInv, OffInv, SubMap;
    SameGenerationIff(s, a.t);
    var n, e := Do(s, a), Stored(Do(s, a))[k];
    forall c: nat | Completed(n, c) && Hits(n.cuts[c], e)
      ensures c < n.born[e.id]
    {
      CompletedBefore(lim, s, a, c);
    }
  }

  lemma OffStep(lim: Limits, s: Sys, a: Step)
    requires 0 <= lim.maxSize && 0 <= lim.maxEntries
    requires Inv(lim, s) && Can(lim, s, a)
    ensures |Do(s, a).store.shards| == SHARDS && OffInv(Do(s, a))
  {
    hide ValidStore, Do, Can, Items, FenceInv, FreshInv, HeldInv, SizedInv, LockInv;
    StoreMove(lim, s, a);
    SwitchMove(lim, s, a);
    EmptyIsConsistent();
    if Do(s, a).off == Done {
      OffKeepsOut(lim, s, a);
    }
    var n := Do(s, a);
    if n.off == Done && s.off == Done {
      assert s.enabled <==> s.off == On;
      assert forall k :: k in Stored(n) ==> k in Stored(s);
    }
  }

  lemma OffKeepsOut(lim: Limits, s: Sys, a: Step)
    requires |s.store.shards| == SHARDS && LockInv(s) && OffInv(s) && Can(lim, s, a)
    requires Do(s, a).off == Done
    ensures forall t :: !At(Do(s, a), t).SetOn? && !At(Do(s, a), t).SetReady?
  {
    hide Do, Can, Items;
    OthersStay(s, a);
    SwitchMove(lim, s, a);
    ReadyMove(lim, s, a);
    var n := Do(s, a);
    forall t
      ensures !At(n, t).SetOn? && !At(n, t).SetReady?
    {
      if t != a.t {
        assert At(n, t) == At(s, t);
        assert HoldsRead(At(s, t)) ==> !HoldsWrite(At(s, a.t));
      }
    }
  }

  /** Only the removal of the call that switched off completes the switch. */
  lemma SwitchMove(lim: Limits, s: Sys, a: Step)
    requires |s.store.shards| == SHARDS && OffInv(s) && Can(lim, s, a)
    ensures Do(s, a).enabled <==> Do(s, a).off == On
    ensures Do(s, a).off == Done && s.off != Done ==>
            a.Wipe? && HoldsWrite(At(s, a.t)) && Do(s, a).store == EmptyStore() && At(Do(s, a), a.t).Idle?
  {
    hide Items, Removes, Evicted, Drop, Touch, Put, Sweep, PurgedPath;
  }

  /** No thread gets past the enabled check of a store while the cache is off. */
  lemma ReadyMove(lim: Limits, s: Sys, a: Step)
    requires |s.store.shards| == SHARDS && OffInv(s) && Can(lim, s, a)
    ensures At(Do(s, a), a.t).SetOn? ==> s.enabled
    ensures At(Do(s, a), a.t).SetReady? ==> At(s, a.t).SetOn?
  {
    hide Items, Removes, Evicted, Do, Sweep, PurgedPath, Found, Present, Expired;
    OthersStay(s, a);
  }

  lemma InvStep(lim: Limits, s: Sys, a: Step)
    requires 0 <= lim.maxSize && 0 <= lim.maxEntries
    requires Inv(lim, s) && Can(lim, s, a)
    ensures Inv(lim, Do(s, a))
  {
    hide Do, Can, LockInv, SizedInv, HeldInv, FenceInv, FreshInv, OffInv, ValidStore;
    LockStep(lim, s, a);
    SizedStep(lim, s, a);
    HeldStep(lim, s, a);
    FenceStep(lim, s, a);
    FreshStep(lim, s, a);
    OffStep(lim, s, a);
  }

  // ---------------------------------------------------------------------------------------
  // Whole runs
  // ---------------------------------------------------------------------------------------

  predicate Init(s: Sys)
  {
    s == Sys(EmptyStore(), true, 0, map[], 0, [], map[], On)
  }

  ghost predicate Run(lim: Limits, trace: seq<Sys>, steps: seq<Step>)
  {
    && 0 <= lim.maxSize && 0 <= lim.maxEntries
    && |trace| == |steps| + 1 && Init(trace[0])
    && (forall i :: 0 <= i < |steps| ==> Next(lim, trace, steps, i))
  }

  ghost predicate Next(lim: Limits, trace: seq<Sys>, steps: seq<Step>, i: nat)
    requires i < |steps| && |trace| == |steps| + 1
  {
    && |trace[i].store.shards| == SHARDS
    && Can(lim, trace[i], steps[i]) && trace[i + 1] == Do(trace[i], steps[i])
  }

  lemma RunStep(lim: Limits, trace: seq<Sys>, steps: seq<Step>, i: nat)
    requires Run(lim, trace, steps) && i < |steps|
    ensures 0 <= lim.maxSize && 0 <= lim.maxEntries && |trace| == |steps| + 1
    ensures |trace[i].store.shards| == SHARDS && Can(lim, trace[i], steps[i]) && trace[i + 1] == Do(trace[i], steps[i])
  {
    hide Can, Do, Init;
    assert Next(lim, trace, steps, i);
  }

  lemma InitIsSafe(lim: Limits, s: Sys)
    requires 0 <= lim.maxSize && 0 <= lim.maxEntries && Init(s)
    ensures Inv(lim, s)
  {
    ValidEmpty(lim);
    hide Items, Fits, Consistent, Bounded;
  }

  lemma RunStart(lim: Limits, trace: seq<Sys>, steps: seq<Step>)
    requires Run(lim, trace, steps)
    ensures |trace| == |steps| + 1 && Inv(lim, trace[0])
  {
    hide Inv;
    InitIsSafe(lim, trace[0]);
  }

  /** In every reachable state the accounting is exact, the limits hold, every entry is fresh and
      a finished switch-off leaves the cache empty. */
  lemma {:induction false} EveryStateIsSafe(lim: Limits, trace: seq<Sys>, steps: seq<Step>, i: nat)
    requires Run(lim, trace, steps) && i < |trace|
    ensures Inv(lim, trace[i])
  {
    hide *;
    RunStart(lim, trace, steps);
    if i > 0 {
      EveryStateIsSafe(lim, trace, steps, i - 1);
      RunStep(lim, trace, steps, i - 1);
      InvStep(lim, trace[i - 1], steps[i - 1]);
    }
  }

  lemma {:induction false} CutsOnlyGrow(lim: Limits, trace: seq<Sys>, steps: seq<Step>, i: nat, j: nat)
    requires Run(lim, trace, steps) && i <= j < |trace|
    ensures trace[i].cuts <= trace[j].cuts
  {
    hide Run, Can, Do, LockInv, SizedInv, HeldInv, FenceInv, FreshInv, OffInv, StoreInv;
    RunStart(lim, trace, steps);
    if i < j {
      CutsOnlyGrow(lim, trace, steps, i, j - 1);
      EveryStateIsSafe(lim, trace, steps, j - 1);
      RunStep(lim, trace, steps, j - 1);
      CutsMove(lim, trace[j - 1], steps[j - 1]);
    }
  }

  /** A fill whose generation was read before a clear or a purge began stores nothing after it. */
  lemma LateFillStoresNothing(lim: Limits, trace: seq<Sys>, steps: seq<Step>, j: nat, i: nat)
    requires Run(lim, trace, steps) && j < i < |steps|
    requires steps[j].BumpClear? || steps[j].BumpPurge?
    requires steps[i].StoreEntry? && i < |trace| && At(trace[i], steps[i].t).SetReady?
    requires At(trace[i], steps[i].t).seen <= |trace[j].cuts|
    requires |trace[i].cuts| - At(trace[i], steps[i].t).seen < TWO_TO_THE_64
    ensures i + 1 < |trace| && trace[i + 1].store == trace[i].store
  {
    hide Run, Can, LockInv, SizedInv, HeldInv, FenceInv, FreshInv, OffInv, StoreInv;
    EveryStateIsSafe(lim, trace, steps, i);
    RunStep(lim, trace, steps, i);
    RunStep(lim, trace, steps, j);
    CutsOnlyGrow(lim, trace, steps, j + 1, i);
    BumpCounts(lim, trace[j], steps[j]);
    if At(trace[i], steps[i].t).gen == trace[i].gen {
      SameGenerationIff(trace[i], steps[i].t);
    }
  }

  lemma BumpCounts(lim: Limits, s: Sys, a: Step)
    requires |s.store.shards| == SHARDS && Can(lim, s, a) && (a.BumpClear? || a.BumpPurge?)
    ensures |Do(s, a).cuts| == |s.cuts| + 1
  {
  }

  /** A generation-checked lookup answers only if no cut was made since the generation was read,
      and only with an entry fetched after every completed cut that hits it. */
  lemma LookupIsFenced(lim: Limits, trace: seq<Sys>, steps: seq<Step>, i: nat)
    requires Run(lim, trace, steps) && i < |steps| && steps[i].AnswerLook?
    requires |trace[i].cuts| < TWO_TO_THE_64
    requires At(trace[i], steps[i].t).LookRead? && At(trace[i + 1], steps[i].t).Touching?
    ensures At(trace[i], steps[i].t).seen == |trace[i].cuts|
    ensures Fresh(trace[i], At(trace[i + 1], steps[i].t).entry)
  {
    EveryStateIsSafe(lim, trace, steps, i);
    RunStep(lim, trace, steps, i);
    var s, p := trace[i], At(trace[i], steps[i].t);
    assert p.LookRead? && s.gen == p.gen && Present(s, p.key);
    hide ValidStore, Items;
    FoundIsStored(lim, s, p.key);
    SameGenerationIff(s, steps[i].t);
    assert Fresh(s, Stored(s)[p.key]);
  }

  /** A Get that saw an expired entry removes that entry or nothing: a replacement stored in the
      meantime stays, and so does every other entry. */
  lemma ExpiringGetSparesReplacement(lim: Limits, trace: seq<Sys>, steps: seq<Step>, i: nat, k: string)
    requires Run(lim, trace, steps) && i < |steps| && steps[i].ExpireGet?
    requires At(trace[i], steps[i].t).GetStale?
    requires |trace[i].store.shards| == |trace[i + 1].store.shards| == SHARDS && k in Stored(trace[i])
    ensures var p := At(trace[i], steps[i].t);
      if k == p.key && Stored(trace[i])[k].id == p.entry.id
      then k !in Stored(trace[i + 1]) && SameButAccess(Stored(trace[i])[k], p.entry)
      else k in Stored(trace[i + 1]) && Stored(trace[i + 1])[k] == Stored(trace[i])[k]
  {
    EveryStateIsSafe(lim, trace, steps, i);
    RunStep(lim, trace, steps, i);
    var s, p := trace[i], At(trace[i], steps[i].t);
    assert Held(s, p.key, p.entry);
    FoundIsStored(lim, s, p.key);
    hide IndexExact, SumSizes, Items, Fits, Bounded, Can;
    if SameObject(s, p.key, p.entry) {
      DropConsistent(s.store, p.key);
    }
  }

  /** From the moment the call that switched the cache off has removed everything, the cache stays
      empty until it is switched on again, whatever stores were in flight. */
  lemma {:induction false} StaysEmptyWhileOff(lim: Limits, trace: seq<Sys>, steps: seq<Step>, i: nat, j: nat)
    requires Run(lim, trace, steps) && |trace| == |steps| + 1 && i < j < |trace|
    requires steps[i].Wipe? && trace[i].off == Pending(steps[i].t)
    requires forall m :: i < m < j ==> !(steps[m].Switch? && steps[m].on)
    ensures trace[j].off == Done && |trace[j].store.shards| == SHARDS && Stored(trace[j]) == map[]
  {
    hide Run, Can, Init, LockInv, SizedInv, HeldInv, FenceInv, FreshInv, Items, ValidStore;
    EveryStateIsSafe(lim, trace, steps, j);
    EveryStateIsSafe(lim, trace, steps, j - 1);
    RunStep(lim, trace, steps, j - 1);
    if i + 1 < j {
      StaysEmptyWhileOff(lim, trace, steps, i, j - 1);
      OffStays(trace[j - 1], steps[j - 1]);
    }
  }

  lemma OffStays(s: Sys, a: Step)
    requires |s.store.shards| == SHARDS && s.off == Done && !s.enabled && !(a.Switch? && a.on)
    ensures Do(s, a).off == Done
  {
    hide Items, Drop, Touch, Put;
  }
}
