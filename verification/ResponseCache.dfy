/** The in-memory response cache of internal/cache/response_cache.go as an object: what each
    call does to the stored entries, with the counters and the reverse index exact after every
    call. The clock is a parameter: `now` in seconds, `nano` for access times. */
module ResponseCache {
  import opened Common
  import opened CacheStore
  import opened CacheEviction

  const DEFAULT_RESPONSE_CACHE_MB: int := 64
  const DEFAULT_RESPONSE_CACHE_TTL_SEC: int := 60
  const FIXED_OVERHEAD: int := 256

  function HeaderSize(header: seq<(string, seq<string>)>): (n: nat)
  {
    if header == [] then 0 else |header[0].0| + ValuesSize(header[0].1) + HeaderSize(header[1..])
  }

  function ValuesSize(values: seq<string>): (n: nat)
  {
    if values == [] then 0 else |values[0]| + ValuesSize(values[1..])
  }

  function EstimateSize(key: string, targetURI: string, r: Response): (n: int)
    ensures n >= FIXED_OVERHEAD
  {
    FIXED_OVERHEAD + |key| + |targetURI| + |r.contentType| + |r.body| + HeaderSize(r.header)
  }

  /** The fixed overhead and the bytes of everything that varies in length. */
  lemma SizeIsBytes(key: string, targetURI: string, r: Response, more: seq<(string, seq<string>)>, name: string,
                    value: string, values: seq<string>)
    ensures EstimateSize(key, targetURI, r.(header := [])) == 256 + |key| + |targetURI| + |r.contentType| + |r.body|
    ensures EstimateSize(key, targetURI, r.(header := [(name, [])] + more)) ==
            EstimateSize(key, targetURI, r.(header := more)) + |name|
    ensures EstimateSize(key, targetURI, r.(header := [(name, [value] + values)] + more)) ==
            EstimateSize(key, targetURI, r.(header := [(name, values)] + more)) + |value|
  {
    assert ([(name, [])] + more)[1..] == more;
    assert ([(name, [value] + values)] + more)[1..] == more && ([(name, values)] + more)[1..] == more;
    assert ([value] + values)[1..] == values;
  }

  /** `todo` are the keys of shard i that the scan has yet to look at. */
  ghost function SweptSoFar(items: map<string, Entry>, i: int, todo: set<string>, now: int): map<string, Entry>
  {
    map k | k in items && !(ShardOf(k) == i && k !in todo && Expired(items[k], now)) :: items[k]
  }

  lemma SweepNext(items: map<string, Entry>, i: int, now: int)
    ensures SweptSoFar(Sweep(items, i, now), i, {}, now) == Sweep(items, i + 1, now)
  {
  }

  /** The scan of shard i, as a state of the store: `before` is the content it started from. */
  ghost predicate Sweeping(st: Store, before: map<string, Entry>, i: nat, todo: set<string>, now: int)
  {
    && Consistent(st) && i < SHARDS
    && (forall k :: k in todo ==> k in st.shards[i])
    && Content(st) == SweptSoFar(before, i, todo, now)
  }

  lemma SweepStart(st: Store, i: nat, now: int)
    requires Consistent(st) && i < SHARDS
    ensures Sweeping(st, Content(st), i, st.shards[i].Keys, now)
  {
    forall k | k in Content(st) && ShardOf(k) == i
      ensures k in st.shards[i].Keys
    {
      InItems(st.shards, k);
    }
  }

  lemma SweepStep(st: Store, before: map<string, Entry>, i: nat, todo: set<string>, now: int, k: string)
    requires Sweeping(st, before, i, todo, now) && k in todo
    ensures ShardOf(k) == i
    ensures Sweeping(if Expired(st.shards[i][k], now) then Drop(st, k) else st, before, i, todo - {k}, now)
  {
    hide IndexExact, SumSizes, Items;
    InItems(st.shards, k);
    DropConsistent(st, k);
    var next := if Expired(st.shards[i][k], now) then Drop(st, k) else st;
    forall x
      ensures x in Content(next) <==> x in SweptSoFar(before, i, todo - {k}, now)
    {
    }
  }

  /** The second round: the first j keys of `order` are gone and the limits never held. */
  ghost predicate Evicting(st: Store, swept: map<string, Entry>, order: seq<string>, j: int, lim: Limits)
  {
    && Consistent(st) && OldestFirst(order, swept) && 0 <= j <= |order|
    && Content(st) == Without(swept, order, j)
    && forall i :: 0 <= i < j ==> !Fits(Without(swept, order, i), lim)
  }

  /** The first round: the expired entries of the first i shards are gone and the limits have
      not held at any earlier check. */
  ghost predicate SweepRound(st: Store, before: map<string, Entry>, i: int, now: int, lim: Limits)
  {
    && Consistent(st) && 0 <= i <= SHARDS
    && Content(st) == Sweep(before, i, now)
    && forall m :: 0 <= m < i ==> !Fits(Sweep(before, m, now), lim)
  }

  lemma SweepRoundStart(st: Store, now: int, lim: Limits)
    requires Consistent(st)
    ensures SweepRound(st, Content(st), 0, now, lim)
  {
    hide IndexExact, SumSizes, Items;
    assert Sweep(Content(st), 0, now) == Content(st);
  }

  lemma SweepRoundNext(st: Store, next: Store, before: map<string, Entry>, i: int, now: int, lim: Limits)
    requires SweepRound(st, before, i, now, lim) && i < SHARDS && !Fits(Content(st), lim)
    requires Consistent(next) && Content(next) == SweptSoFar(Content(st), i, {}, now)
    ensures SweepRound(next, before, i + 1, now, lim)
  {
    hide IndexExact, SumSizes, Items;
    SweepNext(before, i, now);
  }

  lemma SweepRoundStops(st: Store, before: map<string, Entry>, i: int, now: int, lim: Limits)
    requires SweepRound(st, before, i, now, lim) && Fits(Content(st), lim)
    ensures Evicted(before, Content(st), now, lim)
  {
    hide IndexExact, SumSizes, Items;
    assert StopsAt(before, i, now, lim);
  }

  lemma SecondRoundDone(st: Store, after: Store, before: map<string, Entry>, now: int, lim: Limits)
    requires SweepRound(st, before, SHARDS, now, lim) && !Fits(Content(st), lim)
    requires Consistent(after) && SecondRound(Content(st), Content(after), lim)
    ensures Evicted(before, Content(after), now, lim)
  {
  }

  lemma EvictStep(st: Store, swept: map<string, Entry>, order: seq<string>, j: int, lim: Limits)
    requires Evicting(st, swept, order, j, lim) && j < |order| && !Fits(Content(st), lim)
    ensures order[j] in st.shards[ShardOf(order[j])]
    ensures Evicting(Drop(st, order[j]), swept, order, j + 1, lim)
  {
    hide IndexExact, SumSizes, Items;
    WithoutNext(swept, order, j);
    InItems(st.shards, order[j]);
    hide Without, Fits;
    DropConsistent(st, order[j]);
  }

  lemma WithoutNext(items: map<string, Entry>, order: seq<string>, j: int)
    requires OldestFirst(order, items) && 0 <= j < |order|
    ensures order[j] in Without(items, order, j)
    ensures Without(items, order, j + 1) == Without(items, order, j) - {order[j]}
  {
    assert order[j] in order;
    assert order[j] !in order[..j];
    assert order[..j + 1] == order[..j] + [order[j]];
  }

  lemma EvictDone(st: Store, swept: map<string, Entry>, order: seq<string>, j: int, lim: Limits)
    requires Evicting(st, swept, order, j, lim) && (j == |order| || Fits(Content(st), lim))
    requires 0 <= lim.maxSize && 0 <= lim.maxEntries
    ensures SecondRound(swept, Content(st), lim)
  {
    if j == |order| {
      assert order[..j] == order;
      assert Content(st) == map[];
    }
    assert ShortestPrefix(swept, order, j, lim);
  }

  /** What `setIfGenerationLocked` stores. */
  function NewEntry(id: nat, key: string, siteID: nat, targetURI: string, r: Response, ttl: int, now: int,
                    nano: int): Entry
  {
    Entry(id, r, now, ttl, siteID, targetURI, EstimateSize(key, targetURI, r), nano)
  }

  lemma StoredAsIs(items: map<string, Entry>, key: string, e: Entry, after: map<string, Entry>, now: int, lim: Limits)
    requires Evicted(items[key := e], after, now, lim)
    ensures key in after ==> after[key] == e
  {
    EvictionRestoresLimits(items[key := e], after, now, lim);
  }

  /** The purge loop: `todo` of the indexed keys are still there. */
  ghost predicate Purging(st: Store, before: map<string, Entry>, keys: set<string>, todo: set<string>)
  {
    Consistent(st) && todo <= keys <= before.Keys && Content(st) == before - (keys - todo)
  }

  lemma PurgeStep(st: Store, before: map<string, Entry>, keys: set<string>, todo: set<string>, k: string)
    requires Purging(st, before, keys, todo) && k in todo
    ensures |st.shards| == SHARDS && k in st.shards[ShardOf(k)] && st.shards[ShardOf(k)][k] == before[k]
    ensures Purging(Drop(st, k), before, keys, todo - {k})
  {
    hide IndexExact, SumSizes, Items;
    InItems(st.shards, k);
    DropConsistent(st, k);
    assert keys - (todo - {k}) == (keys - todo) + {k};
  }

  class ResponseCache {
    var shards: seq<map<string, Entry>>
    var targetIndex: map<string, set<string>>
    var curSize: int
    var entryCount: int
    var enabled: bool
    var generation: nat
    var hits: int
    var misses: int
    var nextId: nat // stands for the identity of the next entry object
    const maxSize: int
    const maxEntries: int
    const defaultTTL: int

    function Snapshot(): Store
      reads this
    {
      Store(shards, targetIndex, curSize, entryCount)
    }

    /** The stored entries, by key. */
    ghost function Content(): map<string, Entry>
      requires Consistent(Snapshot())
      reads this
    {
      Items(shards)
    }

    function Lim(): Limits
    {
      Limits(maxSize, maxEntries)
    }

    ghost predicate Valid()
      reads this
    {
      && ValidStore(Snapshot(), Lim())
      && generation < TWO_TO_THE_64
      && maxSize > 0 && maxEntries >= 1 && defaultTTL > 0
    }

    constructor (maxSizeMB: int, defaultTTLSec: int)
      ensures Valid() && Content() == map[] && enabled && generation == 0
      ensures maxSize == (if maxSizeMB <= 0 then DEFAULT_RESPONSE_CACHE_MB else maxSizeMB) * 1024 * 1024
      ensures maxEntries == maxSize / 1024
    {
      var mb := if maxSizeMB <= 0 then DEFAULT_RESPONSE_CACHE_MB else maxSizeMB;
      maxSize := mb * 1024 * 1024;
      maxEntries := if mb * 1024 * 1024 / 1024 < 1 then 1 else mb * 1024 * 1024 / 1024;
      defaultTTL := if defaultTTLSec <= 0 then DEFAULT_RESPONSE_CACHE_TTL_SEC else defaultTTLSec;
      shards := seq(SHARDS, _ => map[]);
      targetIndex, curSize, entryCount := map[], 0, 0;
      enabled, generation, hits, misses, nextId := true, 0, 0, 0, 0;
      new;
      ValidEmpty(Lim());
      assert Snapshot() == EmptyStore();
    }

    predicate WithinLimits()
      reads this
    {
      curSize <= maxSize && entryCount <= maxEntries
    }

    /** Deleting one entry with its accounting, as every removal does it. */
    method DeleteLocked(k: string)
      requires |shards| == SHARDS && k in shards[ShardOf(k)]
      modifies this`shards, this`targetIndex, this`curSize, this`entryCount
      ensures Snapshot() == Drop(old(Snapshot()), k)
    {
      var s := shards[ShardOf(k)];
      shards := shards[ShardOf(k) := s - {k}];
      curSize := curSize - s[k].sizeBytes;
      entryCount := entryCount - 1;
      targetIndex := RemoveFromIndex(targetIndex, k, s[k]);
    }

    /** Removes the expired entries of shard i, in whatever order the map yields them. */
    method SweepShard(i: nat, now: int)
      requires Consistent(Snapshot()) && i < SHARDS
      modifies this`shards, this`targetIndex, this`curSize, this`entryCount
      ensures Consistent(Snapshot()) && Content() == SweptSoFar(old(Content()), i, {}, now)
    {
      ghost var before := Content();
      var todo := shards[i].Keys;
      SweepStart(Snapshot(), i, now);
      while todo != {}
        invariant Sweeping(Snapshot(), before, i, todo, now)
        decreases todo
      {
        var k :| k in todo;
        SweepStep(Snapshot(), before, i, todo, now, k);
        if Expired(shards[i][k], now) {
          DeleteLocked(k);
        }
        todo := todo - {k};
      }
    }

    method CleanExpiredEntries(now: int)
      requires Valid()
      modifies this`shards, this`targetIndex, this`curSize, this`entryCount
      ensures Valid() && Content() == Sweep(old(Content()), SHARDS, now)
      ensures Content() == map k | k in old(Content()) && now - old(Content())[k].cachedAt <= old(Content())[k].ttl
                             :: old(Content())[k]
    {
      hide IndexExact, SumSizes, Items, Fits, Bounded;
      ghost var st, before := Snapshot(), Content();
      assert Sweep(before, 0, now) == before;
      for i := 0 to SHARDS
        invariant Consistent(Snapshot())
        invariant Content() == Sweep(before, i, now)
      {
        SweepShard(i, now);
        SweepNext(before, i, now);
      }
      ValidRemoved(st, Snapshot(), Lim());
    }

    /** The second round: candidates in order of access time, removed until the limits hold. */
    method EvictOldestLocked()
      requires Consistent(Snapshot()) && maxSize >= 0 && maxEntries >= 0
      modifies this`shards, this`targetIndex, this`curSize, this`entryCount
      ensures Consistent(Snapshot()) && SecondRound(old(Content()), Content(), Lim())
    {
      hide IndexExact, SumSizes, Items;
      ghost var swept := Content();
      var candidates := SortedByAccess(shards);
      var j := 0;
      assert Without(swept, candidates, 0) == swept;
      while j < |candidates|
        invariant Evicting(Snapshot(), swept, candidates, j, Lim())
      {
        if WithinLimits() {
          break;
        }
        EvictStep(Snapshot(), swept, candidates, j, Lim());
        DeleteLocked(candidates[j]);
        j := j + 1;
      }
      EvictDone(Snapshot(), swept, candidates, j, Lim());
    }

    /** Brings the cache back under its limits. */
    method EvictToMaxSizeLocked(now: int)
      requires Consistent(Snapshot()) && maxSize > 0 && maxEntries >= 0
      modifies this`shards, this`targetIndex, this`curSize, this`entryCount
      ensures Consistent(Snapshot()) && Evicted(old(Content()), Content(), now, Lim())
    {
      hide IndexExact, SumSizes, Items, Evicted, StopsAt, Sweep;
      ghost var before := Content();
      SweepRoundStart(Snapshot(), now, Lim());
      if maxSize <= 0 || WithinLimits() {
        SweepRoundStops(Snapshot(), before, 0, now, Lim());
        return;
      }
      for i := 0 to SHARDS
        invariant SweepRound(Snapshot(), before, i, now, Lim())
      {
        if WithinLimits() {
          SweepRoundStops(Snapshot(), before, i, now, Lim());
          return;
        }
        ghost var st := Snapshot();
        SweepShard(i, now);
        SweepRoundNext(st, Snapshot(), before, i, now, Lim());
      }
      if WithinLimits() {
        SweepRoundStops(Snapshot(), before, SHARDS, now, Lim());
        return;
      }
      ghost var st := Snapshot();
      EvictOldestLocked();
      SecondRoundDone(st, Snapshot(), before, now, Lim());
    }

    /** Stores a response unless the cache is off, the response is empty or too large, or the
        generation has moved on since `gen` was read. */
    method SetIfGenerationLocked(gen: nat, siteID: nat, targetURI: string, key: string, r: Response, ttl: int,
                                 now: int, nano: int) returns (stored: bool)
      requires Valid()
      modifies this
      ensures Valid() && enabled == old(enabled) && generation == old(generation)
      ensures hits == old(hits) && misses == old(misses)
      ensures stored <==> old(enabled) && old(generation) == gen
                          && 0 < |r.body| <= maxSize / 10 && EstimateSize(key, targetURI, r) <= maxSize / 10
      ensures stored ==>
        var e := NewEntry(old(nextId), key, siteID, targetURI, r, if ttl <= 0 then defaultTTL else ttl, now, nano);
        Evicted(old(Content())[key := e], Content(), now, Lim())
      ensures stored && key in Content() ==>
        var life, size := if ttl <= 0 then defaultTTL else ttl, EstimateSize(key, targetURI, r);
        Content()[key] == Entry(old(nextId), r, now, life, siteID, targetURI, size, nano)
      ensures !stored ==> Snapshot() == old(Snapshot())
      ensures nextId == old(nextId) + if stored then 1 else 0
    {
      hide Consistent, Items, Evicted, EstimateSize, Fits, Bounded;
      stored := false;
      if !enabled {
        return;
      }
      var life := if ttl <= 0 then defaultTTL else ttl;
      if |r.body| == 0 || |r.body| > MaxEntryBodySize() || maxEntries <= 0 {
        return;
      }
      var entrySize := EstimateSize(key, targetURI, r);
      if entrySize <= 0 || entrySize > maxSize / 10 {
        return;
      }
      var entry := NewEntry(nextId, key, siteID, targetURI, r, life, now, nano);
      if generation != gen {
        return;
      }
      ghost var st := Snapshot();
      ValidPut(st, key, entry, Lim());
      nextId := nextId + 1;
      var s := shards[ShardOf(key)];
      if key in s {
        curSize := curSize - s[key].sizeBytes;
        targetIndex := RemoveFromIndex(targetIndex, key, s[key]);
      } else {
        entryCount := entryCount + 1;
      }
      shards := shards[ShardOf(key) := s[key := entry]];
      targetIndex := AddToIndex(targetIndex, key, entry);
      curSize := curSize + entrySize;
      assert Snapshot() == Put(st, key, entry);
      EvictToMaxSizeLocked(now);
      ValidEvicted(Put(st, key, entry), Snapshot(), now, Lim());
      StoredAsIs(old(Content()), key, entry, Content(), now, Lim());
      stored := true;
    }

    function MaxEntryBodySize(): int
    {
      if maxSize <= 0 then 0 else maxSize / 10
    }

    /** Refreshes the access time of a stored entry. */
    method TouchEntry(k: string, nano: int)
      requires Valid() && k in Content()
      modifies this`shards
      ensures Valid()
      ensures Content() == old(Content())[k := old(Content())[k].(lastAccess := nano)]
    {
      hide Consistent, Items, Fits, Bounded;
      ValidTouch(Snapshot(), k, nano, Lim());
      var s := shards[ShardOf(k)];
      shards := shards[ShardOf(k) := s[k := s[k].(lastAccess := nano)]];
    }

    /** The entry, expired or not, if it is stored; expired entries are left in place. */
    method Lookup(key: string, nano: int) returns (r: Option<Entry>)
      requires Valid()
      modifies this`shards
      ensures Valid()
      ensures r.Some? <==> enabled && key in old(Content())
      ensures r.Some? ==>
          r.value == old(Content())[key]
          && Content() == old(Content())[key := r.value.(lastAccess := nano)]
      ensures r.None? ==> Snapshot() == old(Snapshot())
    {
      hide Consistent, Items, Fits, Bounded;
      ValidFind(Snapshot(), key);
      if !enabled || key !in shards[ShardOf(key)] {
        return None;
      }
      r := Some(shards[ShardOf(key)][key]);
      TouchEntry(key, nano);
    }

    /** Nothing unless the generation is still the caller's. */
    method LookupIfGeneration(gen: nat, key: string, nano: int) returns (r: Option<Entry>)
      requires Valid()
      modifies this`shards
      ensures Valid()
      ensures r.Some? <==> enabled && generation == gen && key in old(Content())
      ensures r.Some? ==>
          r.value == old(Content())[key]
          && Content() == old(Content())[key := r.value.(lastAccess := nano)]
      ensures r.None? ==> Snapshot() == old(Snapshot())
    {
      if !enabled || generation != gen {
        return None;
      }
      r := Lookup(key, nano);
    }

    /** A live entry of the caller's generation; an expired one stays for stale use. */
    method LookupFreshIfGeneration(gen: nat, key: string, now: int, nano: int) returns (r: Option<Entry>)
      requires Valid()
      modifies this`shards, this`hits, this`misses
      ensures Valid()
      ensures r.Some? <==> enabled && generation == gen && key in old(Content())
                           && now - old(Content())[key].cachedAt <= old(Content())[key].ttl
      ensures r.Some? ==> r.value == old(Content())[key]
      ensures Content() == if enabled && generation == gen && key in old(Content())
                           then old(Content())[key := old(Content())[key].(lastAccess := nano)] else old(Content())
      ensures if r.Some? then hits == old(hits) + 1 && misses == old(misses)
              else hits == old(hits) && misses == old(misses) + 1
    {
      hide Consistent, Items, Fits, Bounded;
      r := LookupIfGeneration(gen, key, nano);
      if r.None? || Expired(r.value, now) {
        misses := misses + 1;
        return None;
      }
      hits := hits + 1;
    }

    /** An expired entry of the caller's generation inside the stale-if-error window. */
    method LookupStaleIfGeneration(gen: nat, key: string, maxStale: int, now: int, nano: int) returns (r: Option<Entry>)
      requires Valid()
      modifies this`shards
      ensures Valid()
      ensures r.Some? <==>
              enabled && generation == gen && key in old(Content()) && maxStale > 0
              && 0 < now - old(Content())[key].cachedAt - old(Content())[key].ttl <= maxStale
      ensures r.Some? ==> r.value == old(Content())[key]
      ensures Content() == if enabled && generation == gen && key in old(Content())
                           then old(Content())[key := old(Content())[key].(lastAccess := nano)] else old(Content())
    {
      hide Consistent, Items, Fits, Bounded;
      r := LookupIfGeneration(gen, key, nano);
      if r.None? || !StaleWithin(r.value, now, maxStale) {
        return None;
      }
    }

    /** The live entry under the key. An expired entry is removed; a disabled cache answers nothing. */
    method Get(key: string, now: int, nano: int) returns (r: Option<Entry>)
      requires Valid()
      modifies this`shards, this`targetIndex, this`curSize, this`entryCount, this`hits, this`misses
      ensures Valid()
      ensures r.Some? <==> enabled && key in old(Content())
                           && now - old(Content())[key].cachedAt <= old(Content())[key].ttl
      ensures r.Some? ==>
          r.value == old(Content())[key]
          && Content() == old(Content())[key := r.value.(lastAccess := nano)]
      ensures r.None? ==> Content() == if enabled then old(Content()) - {key} else old(Content())
      ensures hits == old(hits) + (if r.Some? then 1 else 0)
      ensures misses == old(misses) + (if enabled && r.None? then 1 else 0)
    {
      hide Consistent, Items, Fits, Bounded;
      ValidFind(Snapshot(), key);
      if !enabled {
        return None;
      }
      var s := shards[ShardOf(key)];
      if key !in s {
        misses := misses + 1;
        return None;
      }
      if Expired(s[key], now) {
        ValidDrop(Snapshot(), key, Lim());
        DeleteLocked(key);
        misses := misses + 1;
        return None;
      }
      r := Some(s[key]);
      TouchEntry(key, nano);
      hits := hits + 1;
    }

    /** Forgets everything and starts a new generation. */
    method Clear()
      requires Valid()
      modifies this`shards, this`targetIndex, this`curSize, this`entryCount, this`generation
      ensures Valid() && Content() == map[] && generation == (old(generation) + 1) % TWO_TO_THE_64
    {
      hide Consistent, Items, Fits, Bounded;
      ValidFind(Snapshot(), "");
      generation := (generation + 1) % TWO_TO_THE_64;
      for i := 0 to SHARDS
        invariant |shards| == SHARDS && forall j :: 0 <= j < i ==> shards[j] == map[]
        invariant generation == (old(generation) + 1) % TWO_TO_THE_64
      {
        shards := shards[i := map[]];
      }
      targetIndex := map[];
      curSize := 0;
      entryCount := 0;
      ValidEmpty(Lim());
      assert Snapshot() == EmptyStore();
    }

    /** Switching off also clears. */
    method SetEnabled(v: bool)
      requires Valid()
      modifies this`enabled, this`shards, this`targetIndex, this`curSize, this`entryCount, this`generation
      ensures Valid() && enabled == v
      ensures if old(enabled) && !v
              then Content() == map[] && generation == (old(generation) + 1) % TWO_TO_THE_64
              else Snapshot() == old(Snapshot()) && generation == old(generation)
    {
      hide Consistent, Items, Fits, Bounded;
      var wasEnabled := enabled;
      enabled := v;
      if wasEnabled && !v {
        Clear();
      }
    }

    /** Removes exactly what a full scan for this site and path would remove: every entry of the site
        for the path, whatever the query. It starts a new generation, and consults only the index. */
    method PurgeSiteTarget(siteID: nat, targetURI: string)
      requires Valid()
      modifies this`shards, this`targetIndex, this`curSize, this`entryCount, this`generation
      ensures Valid()
      ensures forall p :: IsPath(p, targetURI) ==> Content() == Purged(old(Content()), siteID, p)
      ensures exists p :: IsPath(p, targetURI)
      ensures generation == if siteID == 0 then old(generation) else (old(generation) + 1) % TWO_TO_THE_64
    {
      hide Consistent, Items, Fits, Bounded;
      ghost var st, before := Snapshot(), Content();
      forall p
        ensures IsPath(p, targetURI) <==> p == TargetPath(targetURI)
      {
        PathIsCut(p, targetURI);
      }
      assert IsPath(TargetPath(targetURI), targetURI);
      if siteID == 0 {
        assert Purged(before, siteID, TargetPath(targetURI)) == before;
        return;
      }
      var targetPath := TargetPath(targetURI);
      generation := (generation + 1) % TWO_TO_THE_64;
      var indexKey := IndexKey(siteID, targetPath);
      IndexedIsPurged(before, siteID, targetPath);
      Bucket(st, indexKey);
      if indexKey !in targetIndex || targetIndex[indexKey] == {} {
        return;
      }
      PurgeLoop(targetIndex[indexKey], siteID, targetPath);
      ValidRemoved(st, Snapshot(), Lim());
    }

    /** The loop of PurgeSiteTarget over the keys it read from the index. */
    method PurgeLoop(keys: set<string>, siteID: nat, targetPath: string)
      requires Consistent(Snapshot()) && siteID != 0 && keys == Indexed(Content(), IndexKey(siteID, targetPath))
      modifies this`shards, this`targetIndex, this`curSize, this`entryCount
      ensures Consistent(Snapshot()) && Content() == old(Content()) - keys
    {
      hide Consistent, Items;
      ghost var before := Content();
      var todo := keys;
      assert before - (keys - todo) == before;
      while todo != {}
        invariant Purging(Snapshot(), before, keys, todo)
        decreases todo
      {
        var key :| key in todo;
        PurgeStep(Snapshot(), before, keys, todo, key);
        IndexKeyInjective(siteID, targetPath, before[key].siteID, TargetPath(before[key].targetURI));
        var s := shards[ShardOf(key)];
        if key in s && s[key].siteID == siteID && TargetPath(s[key].targetURI) == targetPath {
          DeleteLocked(key);
        }
        todo := todo - {key};
      }
      assert keys - todo == keys;
    }

    method Stats() returns (entries: int, sizeBytes: int)
      requires Valid()
      ensures entries == |Content()| && sizeBytes == SumSizes(Content())
    {
      entries, sizeBytes := entryCount, curSize;
    }
  }

  /** All keys with their access times, least recently used first; ties in any order. */
  method SortedByAccess(shards: seq<map<string, Entry>>) returns (order: seq<string>)
    requires OwnShards(shards)
    ensures OldestFirst(order, Items(shards))
  {
    hide Items;
    var access := CollectAccess(shards);
    var rest := access.Keys;
    order := [];
    while rest != {}
      invariant rest <= access.Keys
      invariant forall k :: k in access <==> k in rest || k in order
      invariant forall k :: k in order ==> k !in rest
      invariant forall i, j :: 0 <= i < j < |order| ==> order[i] != order[j] && access[order[i]] <= access[order[j]]
      invariant forall i, x :: 0 <= i < |order| && x in rest ==> access[order[i]] <= access[x]
      decreases rest
    {
      var k := Oldest(access, rest);
      order := order + [k];
      rest := rest - {k};
    }
  }

  method Oldest(access: map<string, int>, rest: set<string>) returns (k: string)
    requires rest != {} && rest <= access.Keys
    ensures k in rest && forall x :: x in rest ==> access[k] <= access[x]
  {
    k :| k in rest;
    var todo := rest - {k};
    while todo != {}
      invariant todo <= rest && k in rest
      invariant forall x :: x in rest - todo ==> access[k] <= access[x]
      decreases todo
    {
      var x :| x in todo;
      if access[x] < access[k] {
        k := x;
      }
      todo := todo - {x};
    }
  }

  method CollectAccess(shards: seq<map<string, Entry>>) returns (access: map<string, int>)
    requires OwnShards(shards)
    ensures access == map k | k in Items(shards) :: Items(shards)[k].lastAccess
  {
    hide Items;
    access := map[];
    for i := 0 to SHARDS
      invariant access == AccessBelow(Items(shards), i)
    {
      forall k
        ensures k in Items(shards) && ShardOf(k) == i <==> k in shards[i]
        ensures k in shards[i] ==> Items(shards)[k] == shards[i][k]
      {
        InItems(shards, k);
      }
      access := access + map k | k in shards[i] :: shards[i][k].lastAccess;
    }
    assert forall k :: ShardOf(k) < SHARDS;
  }

  ghost function AccessBelow(items: map<string, Entry>, i: int): map<string, int>
  {
    map k | k in items && ShardOf(k) < i :: items[k].lastAccess
  }
}
