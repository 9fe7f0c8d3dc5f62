/** Which entries the response cache gives up when it is over one of its limits, and what that
    choice guarantees. Expired entries go first, shard by shard, stopping as soon as the limits
    hold; then the least recently used ones, one by one. Ties in access time are broken
    arbitrarily, so the outcome is a relation. */
module CacheEviction {
  import opened CacheStore

  datatype Limits = Limits(maxSize: int, maxEntries: int)

  ghost predicate Fits(items: map<string, Entry>, lim: Limits)
  {
    SumSizes(items) <= lim.maxSize && |items| <= lim.maxEntries
  }

  /** The entries that stay when the expired ones of the first n shards are removed. */
  ghost function Sweep(items: map<string, Entry>, n: int, now: int): map<string, Entry>
  {
    map k | k in items && !(ShardOf(k) < n && Expired(items[k], now)) :: items[k]
  }

  /** The first round stopped before shard n: the limits hold and did not hold earlier. */
  ghost predicate StopsAt(items: map<string, Entry>, n: int, now: int, lim: Limits)
  {
    && 0 <= n <= SHARDS && Fits(Sweep(items, n, now), lim)
    && forall m :: 0 <= m < n ==> !Fits(Sweep(items, m, now), lim)
  }

  /** `order` lists every key once, least recently used first. */
  ghost predicate OldestFirst(order: seq<string>, items: map<string, Entry>)
  {
    && (forall k :: k in order <==> k in items)
    && (forall i, j :: 0 <= i < j < |order| ==> order[i] != order[j])
    && (forall i, j :: 0 <= i < j < |order| ==> items[order[i]].lastAccess <= items[order[j]].lastAccess)
  }

  ghost function Without(items: map<string, Entry>, order: seq<string>, j: int): map<string, Entry>
    requires 0 <= j <= |order|
  {
    map k | k in items && k !in order[..j] :: items[k]
  }

  /** The first j keys of `order` are a shortest prefix whose removal restores the limits. */
  ghost predicate ShortestPrefix(items: map<string, Entry>, order: seq<string>, j: int, lim: Limits)
  {
    && 0 <= j <= |order| && Fits(Without(items, order, j), lim)
    && forall i :: 0 <= i < j ==> !Fits(Without(items, order, i), lim)
  }

  ghost predicate SecondRound(items: map<string, Entry>, after: map<string, Entry>, lim: Limits)
  {
    exists order, j :: OldestFirst(order, items) && ShortestPrefix(items, order, j, lim)
                       && after == Without(items, order, j)
  }

  /** What eviction may leave of `items`. */
  ghost predicate Evicted(items: map<string, Entry>, after: map<string, Entry>, now: int, lim: Limits)
  {
    || (exists n :: StopsAt(items, n, now, lim) && after == Sweep(items, n, now))
    || ((forall m :: 0 <= m <= SHARDS ==> !Fits(Sweep(items, m, now), lim))
        && SecondRound(Sweep(items, SHARDS, now), after, lim))
  }

  ghost predicate SubMap(a: map<string, Entry>, b: map<string, Entry>)
  {
    forall k :: k in a ==> k in b && a[k] == b[k]
  }

  /** Nothing is changed but by removal, and the limits hold afterwards. */
  lemma EvictionRestoresLimits(items: map<string, Entry>, after: map<string, Entry>, now: int, lim: Limits)
    requires Evicted(items, after, now, lim)
    ensures Fits(after, lim) && SubMap(after, items)
    ensures Fits(items, lim) ==> after == items
  {
    assert Sweep(items, 0, now) == items;
  }

  /** No live entry is given up while an expired one stays. */
  lemma ExpiredGoFirst(items: map<string, Entry>, after: map<string, Entry>, now: int, lim: Limits,
                       victim: string, other: string)
    requires Evicted(items, after, now, lim)
    requires victim in items && victim !in after && !Expired(items[victim], now)
    requires other in after
    ensures !Expired(items[other], now)
  {
    var swept := Sweep(items, SHARDS, now);
    assert !exists n :: StopsAt(items, n, now, lim) && after == Sweep(items, n, now);
    assert ShardOf(other) < SHARDS;
  }

  /** Among live entries the victims are the least recently used, and no victim could be spared. */
  lemma VictimsAreOldest(items: map<string, Entry>, after: map<string, Entry>, now: int, lim: Limits,
                         victim: string, other: string)
    requires Evicted(items, after, now, lim)
    requires victim in items && victim !in after && !Expired(items[victim], now)
    requires other in after
    ensures items[victim].lastAccess <= items[other].lastAccess
  {
    var swept := Sweep(items, SHARDS, now);
    var order, j :| OldestFirst(order, swept) && ShortestPrefix(swept, order, j, lim)
                    && after == Without(swept, order, j);
    assert victim in order && other in order;
    var a :| 0 <= a < |order| && order[a] == victim;
    var b :| 0 <= b < |order| && order[b] == other;
    assert victim in order[..j];
    assert forall x :: 0 <= x < j ==> order[x] in order[..j];
    assert a < j <= b;
  }

  /** The entry just stored survives when it is live, no larger than the store and strictly the
      most recently used. */
  lemma NewestSurvives(items: map<string, Entry>, after: map<string, Entry>, now: int, lim: Limits, k: string)
    requires Evicted(items, after, now, lim)
    requires k in items && !Expired(items[k], now)
    requires forall x :: x in items && x != k ==> items[x].lastAccess < items[k].lastAccess
    requires items[k].sizeBytes <= lim.maxSize && 1 <= lim.maxEntries
    ensures k in after && after[k] == items[k]
  {
    var swept := Sweep(items, SHARDS, now);
    assert k in swept && swept[k] == items[k];
    if SecondRound(swept, after, lim) {
      hide Fits;
      var order, j :| OldestFirst(order, swept) && ShortestPrefix(swept, order, j, lim)
                      && after == Without(swept, order, j);
      NewestSurvivesPrefix(swept, order, j, lim, k);
    }
  }

  lemma NewestSurvivesPrefix(items: map<string, Entry>, order: seq<string>, j: int, lim: Limits, k: string)
    requires OldestFirst(order, items) && ShortestPrefix(items, order, j, lim)
    requires k in items && items[k].sizeBytes <= lim.maxSize && 1 <= lim.maxEntries
    requires forall x :: x in items && x != k ==> items[x].lastAccess < items[k].lastAccess
    ensures k in Without(items, order, j)
  {
    NewestIsLast(items, order, k);
    var last := |order| - 1;
    OnlyNewestLeft(items, order, k);
    FitsAlone(k, items[k], lim);
    assert j <= last;
    assert order[..j] <= order[..last];
  }

  lemma FitsAlone(k: string, e: Entry, lim: Limits)
    requires e.sizeBytes <= lim.maxSize && 1 <= lim.maxEntries
    ensures Fits(map[k := e], lim)
  {
    SumPut(map[], k, e);
    assert map[][k := e] == map[k := e];
  }

  lemma NewestIsLast(items: map<string, Entry>, order: seq<string>, k: string)
    requires OldestFirst(order, items) && k in items
    requires forall x :: x in items && x != k ==> items[x].lastAccess < items[k].lastAccess
    ensures |order| > 0 && order[|order| - 1] == k && k !in order[..|order| - 1]
  {
    assert k in order;
    var a :| 0 <= a < |order| && order[a] == k;
    var last := |order| - 1;
    assert order[last] in items && items[order[a]].lastAccess <= items[order[last]].lastAccess;
    assert a == last;
    assert forall i :: 0 <= i < last ==> order[..last][i] == order[i] != order[last];
  }

  lemma OnlyNewestLeft(items: map<string, Entry>, order: seq<string>, k: string)
    requires OldestFirst(order, items) && |order| > 0 && order[|order| - 1] == k && k !in order[..|order| - 1]
    ensures Without(items, order, |order| - 1) == map[k := items[k]]
  {
    var last := |order| - 1;
    assert order == order[..last] + [k];
    forall x
      ensures x in Without(items, order, last) <==> x == k
    {
      assert x in order <==> x in order[..last] || x == k;
    }
  }

  // ---------------------------------------------------------------------------------------
  // The store between two calls
  // ---------------------------------------------------------------------------------------

  /** Removing entries of positive size cannot break a limit. */
  lemma {:induction false} SubMapFits(items: map<string, Entry>, less: map<string, Entry>, lim: Limits)
    requires SubMap(less, items) && Fits(items, lim)
    requires forall k :: k in items ==> items[k].sizeBytes > 0
    ensures Fits(less, lim)
    decreases |items|
  {
    if k :| k in items && k !in less {
      SumWithout(items, k);
      assert (items - {k}).Keys == items.Keys - {k};
      SubMapFits(items - {k}, less, lim);
    } else {
      assert less.Keys == items.Keys;
      assert less == items;
    }
  }

  /** The store between two calls: consistent, within its limits, no entry out of proportion. */
  ghost predicate ValidStore(st: Store, lim: Limits)
  {
    Consistent(st) && Fits(Content(st), lim) && Bounded(Content(st), lim)
  }

  ghost predicate Bounded(items: map<string, Entry>, lim: Limits)
  {
    forall k :: k in items ==> 0 < items[k].sizeBytes <= lim.maxSize / 10 && items[k].ttl > 0
  }

  lemma ValidDrop(st: Store, k: string, lim: Limits)
    requires ValidStore(st, lim) && k in Content(st)
    ensures |st.shards| == SHARDS && k in st.shards[ShardOf(k)]
    ensures ValidStore(Drop(st, k), lim) && Content(Drop(st, k)) == Content(st) - {k}
  {
    hide IndexExact, SumSizes, Items;
    InItems(st.shards, k);
    DropConsistent(st, k);
    SubMapFits(Content(st), Content(Drop(st, k)), lim);
  }

  lemma ValidTouch(st: Store, k: string, at: int, lim: Limits)
    requires ValidStore(st, lim) && k in Content(st)
    ensures |st.shards| == SHARDS && k in st.shards[ShardOf(k)]
    ensures ValidStore(Touch(st, k, at), lim)
    ensures Content(Touch(st, k, at)) == Content(st)[k := Content(st)[k].(lastAccess := at)]
  {
    hide IndexExact, Items;
    InItems(st.shards, k);
    TouchConsistent(st, k, at);
    SameSum(Content(st), k, Content(st)[k].(lastAccess := at));
    assert Content(Touch(st, k, at)).Keys == Content(st).Keys;
  }

  lemma ValidFind(st: Store, k: string)
    requires Consistent(st)
    ensures |st.shards| == SHARDS
    ensures k in Content(st) <==> k in st.shards[ShardOf(k)]
    ensures k in Content(st) ==> Content(st)[k] == st.shards[ShardOf(k)][k]
  {
    InItems(st.shards, k);
  }

  lemma ValidEmpty(lim: Limits)
    requires lim.maxSize >= 0 && lim.maxEntries >= 0
    ensures ValidStore(EmptyStore(), lim) && Content(EmptyStore()) == map[]
  {
    EmptyIsConsistent();
  }

  lemma ValidPut(st: Store, k: string, e: Entry, lim: Limits)
    requires ValidStore(st, lim) && 0 < e.sizeBytes <= lim.maxSize / 10 && e.ttl > 0
    ensures |st.shards| == SHARDS && Consistent(Put(st, k, e))
    ensures Content(Put(st, k, e)) == Content(st)[k := e] && Bounded(Content(Put(st, k, e)), lim)
  {
    hide IndexExact, SumSizes, Items;
    PutConsistent(st, k, e);
  }

  lemma ValidEvicted(st: Store, after: Store, now: int, lim: Limits)
    requires Consistent(st) && Bounded(Content(st), lim)
    requires Consistent(after) && Evicted(Content(st), Content(after), now, lim)
    ensures ValidStore(after, lim)
  {
    hide IndexExact, SumSizes, Items, Evicted;
    EvictionRestoresLimits(Content(st), Content(after), now, lim);
  }

  lemma ValidRemoved(st: Store, after: Store, lim: Limits)
    requires ValidStore(st, lim) && Consistent(after) && SubMap(Content(after), Content(st))
    ensures ValidStore(after, lim)
  {
    hide IndexExact, SumSizes, Items;
    SubMapFits(Content(st), Content(after), lim);
  }

  lemma Bucket(st: Store, ik: string)
    requires Consistent(st)
    ensures if ik in st.index then st.index[ik] == Indexed(Content(st), ik) != {} else Indexed(Content(st), ik) == {}
  {
  }

  /** The entries a full scan for this site and path would keep: all but those of the site whose
      target is the path, with or without a query. */
  ghost function Purged(items: map<string, Entry>, siteID: nat, path: string): map<string, Entry>
  {
    map k | k in items && !(siteID != 0 && items[k].siteID == siteID && OfPath(path, items[k].targetURI)) :: items[k]
  }

  /** What the index holds under the purged path is what the full scan finds: the index key
      cannot confuse two (site, path) pairs. */
  lemma IndexedIsPurged(items: map<string, Entry>, siteID: nat, path: string)
    requires siteID != 0 && '?' !in path
    ensures Purged(items, siteID, path) == items - Indexed(items, IndexKey(siteID, path))
  {
    forall k | k in items
      ensures k in Indexed(items, IndexKey(siteID, path)) <==>
              items[k].siteID == siteID && OfPath(path, items[k].targetURI)
    {
      PathIsCut(path, items[k].targetURI);
      IndexKeyInjective(siteID, path, items[k].siteID, TargetPath(items[k].targetURI));
    }
  }

  // ---------------------------------------------------------------------------------------
  // Removals, as sequences of single deletions
  // ---------------------------------------------------------------------------------------

  function DropIfThere(st: Store, k: string): (r: Store)
    requires |st.shards| == SHARDS
    ensures |r.shards| == SHARDS
  {
    if k in st.shards[ShardOf(k)] then Drop(st, k) else st
  }

  function DropAll(st: Store, victims: seq<string>): (r: Store)
    requires |st.shards| == SHARDS
    ensures |r.shards| == SHARDS
  {
    if victims == [] then st
    else DropIfThere(DropAll(st, victims[..|victims| - 1]), victims[|victims| - 1])
  }

  ghost predicate Removes(st: Store, after: Store)
    requires |st.shards| == SHARDS
  {
    exists victims :: after == DropAll(st, victims)
  }

  /** Deletions keep counters, shards and index exact. */
  lemma {:induction false} DropAllConsistent(st: Store, victims: seq<string>)
    requires Consistent(st)
    ensures Consistent(DropAll(st, victims))
    ensures Content(DropAll(st, victims)) == map k | k in Content(st) && k !in victims :: Content(st)[k]
  {
    hide IndexExact, SumSizes, Items;
    if victims != [] {
      var n := |victims| - 1;
      var before := DropAll(st, victims[..n]);
      DropAllConsistent(st, victims[..n]);
      assert victims == victims[..n] + [victims[n]];
      ValidFind(before, victims[n]);
      if victims[n] in Content(before) {
        DropConsistent(before, victims[n]);
      }
    }
  }

  /** The whole store is determined by the entries in it: shards, index and both counters. */
  lemma StoreIsDetermined(a: Store, b: Store)
    requires Consistent(a) && Consistent(b) && Content(a) == Content(b)
    ensures a == b
  {
    forall i | 0 <= i < SHARDS
      ensures a.shards[i] == b.shards[i]
    {
      SameShard(a, b, i);
    }
    forall ik
      ensures ik in a.index <==> ik in b.index
      ensures ik in a.index ==> a.index[ik] == b.index[ik]
    {
      Bucket(a, ik);
      Bucket(b, ik);
    }
    assert a.index == b.index;
    assert a.shards == b.shards;
  }

  lemma SameShard(a: Store, b: Store, i: nat)
    requires Consistent(a) && Consistent(b) && Content(a) == Content(b) && i < SHARDS
    ensures a.shards[i] == b.shards[i]
  {
    hide IndexExact, SumSizes, Items;
    forall k
      ensures k in a.shards[i] <==> k in b.shards[i]
      ensures k in a.shards[i] ==> a.shards[i][k] == b.shards[i][k]
    {
      ValidFind(a, k);
      ValidFind(b, k);
    }
  }

  /** A consistent store with fewer entries is reached by deletions alone. */
  lemma SmallerIsReached(st: Store, after: Store)
    requires Consistent(st) && Consistent(after) && SubMap(Content(after), Content(st))
    ensures Removes(st, after)
  {
    hide IndexExact, SumSizes, Items;
    var victims := AsSequence(Content(st).Keys - Content(after).Keys);
    DropAllConsistent(st, victims);
    assert Content(DropAll(st, victims)) == Content(after);
    StoreIsDetermined(DropAll(st, victims), after);
  }

  ghost function AsSequence(s: set<string>): (r: seq<string>)
    ensures forall k :: k in r <==> k in s
  {
    if s == {} then []
    else
      var k :| k in s;
      [k] + AsSequence(s - {k})
  }
}
