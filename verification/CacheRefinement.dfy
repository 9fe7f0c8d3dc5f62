/** The class and the step system are the same cache: what a method of ResponseCache does to the
    store inside its critical section is what the step of CacheProtocol allows and does; and the
    steps that leave a choice are always possible. */
module CacheRefinement {
  import opened CacheStore
  import opened CacheEviction
  import opened CacheProtocol
  import opened Common
  import RC = ResponseCache

  // ---------------------------------------------------------------------------------------
  // The methods take the steps
  // ---------------------------------------------------------------------------------------

  /** The object holds the store of the system, outside any critical section. */
  ghost predicate Represents(rc: RC.ResponseCache, lim: Limits, s: Sys)
    reads rc
  {
    && rc.Valid() && rc.Lim() == lim && rc.Snapshot() == s.store && |s.store.shards| == SHARDS
    && rc.generation == s.gen && rc.enabled == s.enabled && rc.nextId == s.nextId
  }

  /** A store that passes its checks takes the step StoreEntry of a thread that is ready. */
  method StoreTakesStep(rc: RC.ResponseCache, gen: nat, siteID: nat, targetURI: string, key: string, r: Response,
                        ttl: int, now: int, nano: int, ghost lim: Limits, ghost s: Sys, ghost t: nat)
    returns (stored: bool)
    requires Represents(rc, lim, s)
    requires At(s, t).SetReady? && At(s, t).gen == gen && At(s, t).key == key
    requires var life := if ttl <= 0 then rc.defaultTTL else ttl;
      var e := RC.NewEntry(rc.nextId, key, siteID, targetURI, r, life, now, nano);
      At(s, t).entry.(id := 0) == e.(id := 0)
    modifies rc
    ensures stored ==> Can(lim, s, StoreEntry(t, now, rc.Snapshot()))
    ensures stored ==> Represents(rc, lim, Do(s, StoreEntry(t, now, rc.Snapshot())))
    ensures !stored ==> Represents(rc, lim, s)
  {
    ghost var st := rc.Snapshot();
    ghost var id := rc.nextId;
    stored := rc.SetIfGenerationLocked(gen, siteID, targetURI, key, r, ttl, now, nano);
    if stored {
      ghost var e := At(s, t).entry.(id := id);
      StoreIsAStep(st, key, e, rc.Snapshot(), now, lim);
    }
  }

  lemma StoreIsAStep(st: Store, key: string, e: Entry, after: Store, now: int, lim: Limits)
    requires Consistent(st) && Consistent(after) && Evicted(Content(st)[key := e], Content(after), now, lim)
    ensures |Put(st, key, e).shards| == SHARDS && Removes(Put(st, key, e), after)
    ensures Evicted(Items(Put(st, key, e).shards), Items(after.shards), now, lim)
  {
    hide IndexExact, SumSizes, Items, Fits, Evicted;
    PutConsistent(st, key, e);
    EvictionRestoresLimits(Content(st)[key := e], Content(after), now, lim);
    SmallerIsReached(Put(st, key, e), after);
  }

  /** Cleaning takes the step Clean. */
  method CleanTakesStep(rc: RC.ResponseCache, now: int, ghost lim: Limits, ghost s: Sys, ghost t: nat)
    requires Represents(rc, lim, s) && At(s, t).Cleaning?
    modifies rc
    ensures Can(lim, s, Clean(t, now, rc.Snapshot()))
    ensures Represents(rc, lim, Do(s, Clean(t, now, rc.Snapshot())))
  {
    hide Consistent, Items, Fits, Bounded, Sweep, Removes;
    ghost var st := rc.Snapshot();
    rc.CleanExpiredEntries(now);
    CleanIsAStep(st, now, rc.Snapshot());
  }

  lemma PurgeIsAStep(st: Store, siteID: nat, targetURI: string, after: Store)
    requires Consistent(st) && Consistent(after) && siteID != 0
    requires Content(after) == Purged(Content(st), siteID, TargetPath(targetURI))
    ensures |st.shards| == SHARDS && |after.shards| == SHARDS && Removes(st, after)
    ensures Items(after.shards) == PurgedPath(Items(st.shards), siteID, TargetPath(targetURI))
  {
    hide IndexExact, SumSizes, Items;
    SmallerIsReached(st, after);
  }

  lemma CleanIsAStep(st: Store, now: int, after: Store)
    requires Consistent(st) && Consistent(after) && Content(after) == Sweep(Content(st), SHARDS, now)
    ensures |st.shards| == SHARDS && |after.shards| == SHARDS && Removes(st, after)
    ensures Items(after.shards) == Sweep(Items(st.shards), SHARDS, now)
  {
    hide IndexExact, SumSizes, Items;
    SmallerIsReached(st, after);
  }

  /** Purging takes the steps BumpPurge and Purge. */
  method PurgeTakesSteps(rc: RC.ResponseCache, siteID: nat, targetURI: string, ghost lim: Limits, ghost s: Sys,
                         ghost t: nat)
    requires Represents(rc, lim, s) && siteID != 0 && At(s, t) == PurgeHeld(siteID, TargetPath(targetURI))
    modifies rc
    ensures Can(lim, s, BumpPurge(t))
    ensures |Do(s, BumpPurge(t)).store.shards| == SHARDS && Can(lim, Do(s, BumpPurge(t)), Purge(t, rc.Snapshot()))
    ensures Represents(rc, lim, Do(Do(s, BumpPurge(t)), Purge(t, rc.Snapshot())))
  {
    hide Consistent, Items, Fits, Bounded, Purged, PurgedPath, Removes;
    ghost var st := rc.Snapshot();
    rc.PurgeSiteTarget(siteID, targetURI);
    PathIsCut(TargetPath(targetURI), targetURI);
    PurgeIsAStep(st, siteID, targetURI, rc.Snapshot());
  }

  /** Clearing takes the steps BumpClear and Wipe. */
  method ClearTakesSteps(rc: RC.ResponseCache, ghost lim: Limits, ghost s: Sys, ghost t: nat)
    requires Represents(rc, lim, s) && At(s, t).ClearHeld?
    modifies rc
    ensures Can(lim, s, BumpClear(t))
    ensures |Do(s, BumpClear(t)).store.shards| == SHARDS && Can(lim, Do(s, BumpClear(t)), Wipe(t))
    ensures Represents(rc, lim, Do(Do(s, BumpClear(t)), Wipe(t)))
  {
    hide IndexExact, SumSizes, Items, Fits, Bounded;
    rc.Clear();
    EmptyIsConsistent();
    StoreIsDetermined(rc.Snapshot(), EmptyStore());
  }

  /** A Get takes the step LookGet and then, for an entry, ExpireGet or TouchHit. */
  method GetTakesSteps(rc: RC.ResponseCache, key: string, now: int, nano: int, ghost lim: Limits, ghost s: Sys,
                       ghost t: nat)
    returns (r: Option<Entry>)
    requires Represents(rc, lim, s) && At(s, t) == GetRead(key) && s.enabled
    modifies rc
    ensures Can(lim, s, LookGet(t, now)) && |Do(s, LookGet(t, now)).store.shards| == SHARDS
    ensures var n := Do(s, LookGet(t, now));
      match At(n, t)
      case GetStale(_, _) => r.None? && Can(lim, n, ExpireGet(t)) && Represents(rc, lim, Do(n, ExpireGet(t)))
      case Touching(_, e) => r == Some(e) && Can(lim, n, TouchHit(t, nano))
          && Represents(rc, lim, Do(n, TouchHit(t, nano)))
      case _ => r.None? && Represents(rc, lim, n)
  {
    hide Consistent, Items, Fits, Bounded;
    ghost var st := rc.Snapshot();
    ValidFind(st, key);
    r := rc.Get(key, now, nano);
    if key in Content(st) {
      ValidDrop(st, key, lim);
      ValidTouch(st, key, nano, lim);
      if r.Some? {
        StoreIsDetermined(rc.Snapshot(), Touch(st, key, nano));
      } else {
        StoreIsDetermined(rc.Snapshot(), Drop(st, key));
      }
    } else {
      assert Content(st) - {key} == Content(st);
      StoreIsDetermined(rc.Snapshot(), st);
    }
  }

  // ---------------------------------------------------------------------------------------
  // No step waits for a choice that does not exist
  // ---------------------------------------------------------------------------------------

  ghost predicate IsOldest(items: map<string, Entry>, k: string)
  {
    k in items && forall x :: x in items ==> items[k].lastAccess <= items[x].lastAccess
  }

  lemma {:induction false} OldestKey(items: map<string, Entry>) returns (k: string)
    requires items != map[]
    ensures IsOldest(items, k)
    decreases |items|
  {
    k :| k in items;
    var rest := items - {k};
    assert forall x :: x in rest ==> x in items && rest[x] == items[x];
    assert forall x :: x in items && x != k ==> x in rest;
    if rest != map[] {
      var other := OldestKey(rest);
      assert other in items;
      if items[other].lastAccess < items[k].lastAccess {
        k := other;
      }
    }
  }

  lemma OldestGoesFirst(items: map<string, Entry>, k: string, rest: seq<string>)
    requires IsOldest(items, k) && OldestFirst(rest, items - {k})
    ensures OldestFirst([k] + rest, items)
  {
    var less, order := items - {k}, [k] + rest;
    forall x
      ensures x in order <==> x in items
    {
      assert x in order <==> x == k || x in rest;
    }
    forall i | 0 < i < |order|
      ensures order[i] == rest[i - 1] && order[i] in less && less[order[i]] == items[order[i]]
    {
      assert rest[i - 1] in rest;
    }
  }

  /** Every content has an order by access time. */
  lemma {:induction false} OrderExists(items: map<string, Entry>) returns (order: seq<string>)
    ensures OldestFirst(order, items)
    decreases |items|
  {
    order := [];
    if items != map[] {
      var k := OldestKey(items);
      hide OldestFirst;
      var rest := OrderExists(items - {k});
      OldestGoesFirst(items, k, rest);
      order := [k] + rest;
    }
  }

  /** Some prefix of the order suffices. */
  lemma {:induction false} PrefixExists(items: map<string, Entry>, order: seq<string>, j: nat,
                                        lim: Limits) returns (n: nat)
    requires OldestFirst(order, items) && 0 <= lim.maxSize && 0 <= lim.maxEntries && j <= |order|
    requires forall i :: 0 <= i < j ==> !Fits(Without(items, order, i), lim)
    ensures ShortestPrefix(items, order, n, lim)
    decreases |order| - j
  {
    hide Fits;
    n := j;
    if !Fits(Without(items, order, j), lim) {
      if j == |order| {
        NothingLeft(items, order);
        NothingFits(lim);
      } else {
        n := PrefixExists(items, order, j + 1, lim);
      }
    }
  }

  lemma NothingLeft(items: map<string, Entry>, order: seq<string>)
    requires OldestFirst(order, items)
    ensures Without(items, order, |order|) == map[]
  {
    assert order[..|order|] == order;
  }

  lemma NothingFits(lim: Limits)
    requires 0 <= lim.maxSize && 0 <= lim.maxEntries
    ensures Fits(map[], lim)
  {
  }

  /** The first round stops at some shard, or never. */
  lemma {:induction false} SweepStopsOrNot(items: map<string, Entry>, n: nat, now: int, lim: Limits) returns (stop: int)
    requires n <= SHARDS && forall m :: 0 <= m < n ==> !Fits(Sweep(items, m, now), lim)
    ensures stop >= 0 ==> StopsAt(items, stop, now, lim)
    ensures stop < 0 ==> forall m :: 0 <= m <= SHARDS ==> !Fits(Sweep(items, m, now), lim)
    decreases SHARDS - n
  {
    hide Fits, Sweep;
    if Fits(Sweep(items, n, now), lim) {
      stop := n;
    } else if n == SHARDS {
      stop := -1;
    } else {
      stop := SweepStopsOrNot(items, n + 1, now, lim);
    }
  }

  lemma EvictionExists(items: map<string, Entry>, now: int, lim: Limits) returns (after: map<string, Entry>)
    requires 0 <= lim.maxSize && 0 <= lim.maxEntries
    ensures Evicted(items, after, now, lim)
  {
    hide Fits, Sweep;
    var stop := SweepStopsOrNot(items, 0, now, lim);
    if stop >= 0 {
      after := Sweep(items, stop, now);
    } else {
      var swept := Sweep(items, SHARDS, now);
      var order := OrderExists(swept);
      var j := PrefixExists(swept, order, 0, lim);
      after := Without(swept, order, j);
    }
  }

  /** Any smaller content is the content of a store reached by deletions. */
  lemma RemovalExists(st: Store, less: map<string, Entry>) returns (after: Store)
    requires Consistent(st) && SubMap(less, Content(st))
    ensures Removes(st, after) && Consistent(after) && Content(after) == less
  {
    hide IndexExact, SumSizes, Items;
    var victims := AsSequence(Content(st).Keys - less.Keys);
    after := DropAll(st, victims);
    DropAllConsistent(st, victims);
    assert Content(after) == less;
  }

  /** A thread that is ready can store. */
  lemma StoreIsPossible(lim: Limits, s: Sys, t: nat, now: int)
    requires 0 <= lim.maxSize && 0 <= lim.maxEntries && ValidStore(s.store, lim) && At(s, t).SetReady?
    ensures |s.store.shards| == SHARDS && exists after :: Can(lim, s, StoreEntry(t, now, after))
  {
    hide IndexExact, SumSizes, Items, Evicted, Fits, Bounded, Removes, Put;
    var p := At(s, t);
    var items, e := Content(s.store), p.entry.(id := s.nextId);
    PutConsistent(s.store, p.key, e);
    var less := EvictionExists(items[p.key := e], now, lim);
    EvictionRestoresLimits(items[p.key := e], less, now, lim);
    var after := RemovalExists(Put(s.store, p.key, e), less);
    assert Can(lim, s, StoreEntry(t, now, after));
  }

  /** One that cleans can clean. */
  lemma CleanIsPossible(lim: Limits, s: Sys, t: nat, now: int)
    requires Consistent(s.store) && At(s, t).Cleaning?
    ensures |s.store.shards| == SHARDS && exists after :: Can(lim, s, Clean(t, now, after))
  {
    hide IndexExact, SumSizes, Items, Removes;
    var after := RemovalExists(s.store, Sweep(Content(s.store), SHARDS, now));
    assert Can(lim, s, Clean(t, now, after));
  }

  /** One that purges can purge. */
  lemma PurgeIsPossible(lim: Limits, s: Sys, t: nat)
    requires Consistent(s.store) && At(s, t).PurgeBumped?
    ensures |s.store.shards| == SHARDS && exists after :: Can(lim, s, Purge(t, after))
  {
    hide IndexExact, SumSizes, Items, Removes;
    var after := RemovalExists(s.store, PurgedPath(Content(s.store), At(s, t).siteID, At(s, t).path));
    assert Can(lim, s, Purge(t, after));
  }

  /** In every reachable state the three steps whose outcome is a choice have one. */
  lemma ChoicesExist(lim: Limits, trace: seq<Sys>, steps: seq<Step>, i: nat, t: nat, now: int)
    requires Run(lim, trace, steps) && i < |trace|
    ensures |trace[i].store.shards| == SHARDS
    ensures At(trace[i], t).SetReady? ==> exists after :: Can(lim, trace[i], StoreEntry(t, now, after))
    ensures At(trace[i], t).Cleaning? ==> exists after :: Can(lim, trace[i], Clean(t, now, after))
    ensures At(trace[i], t).PurgeBumped? ==> exists after :: Can(lim, trace[i], Purge(t, after))
  {
    hide Can, LockInv, SizedInv, HeldInv, FenceInv, FreshInv, OffInv, Next;
    EveryStateIsSafe(lim, trace, steps, i);
    var s := trace[i];
    if At(s, t).SetReady? {
      StoreIsPossible(lim, s, t, now);
    } else if At(s, t).Cleaning? {
      CleanIsPossible(lim, s, t, now);
    } else if At(s, t).PurgeBumped? {
      PurgeIsPossible(lim, s, t);
    }
  }
}
