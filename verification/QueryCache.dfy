/** The query-result cache of internal/cache/query_cache.go: a bounded TTL map with an index from
    key namespace to keys. The clock is a parameter; `stamp` is the identity of an entry object. */
module QueryCache {
  import opened Common

  const DEFAULT_TTL: int := 5
  const MAX_ENTRIES: nat := 8192
  const MAX_KEY_BYTES: nat := 0x1_0000

  datatype Entry<V> = Entry(stamp: nat, value: V, expiresAt: int)

  predicate IsSeparator(c: char)
  {
    c == ':' || c == '|'
  }

  /** The position of the first separator, or the length. */
  function FirstSeparator(key: string): (i: nat)
    ensures i <= |key| && (forall j :: 0 <= j < i ==> !IsSeparator(key[j])) && (i < |key| ==> IsSeparator(key[i]))
  {
    if key == "" || IsSeparator(key[0]) then 0 else 1 + FirstSeparator(key[1..])
  }

  /** What stands before the first separator; a key without one, or one that begins with one, is
      its own namespace. */
  function Namespace(key: string): (ns: string)
    ensures ns <= key
  {
    var i := FirstSeparator(key);
    if 0 < i < |key| then key[..i] else key
  }

  /** A colon or a bar ends the namespace; nothing else does, and not at the very front. */
  lemma NamespaceIs(p: string, c: char, t: string)
    requires ':' !in p && '|' !in p
    ensures Namespace(p) == p
    ensures p != "" && (c == ':' || c == '|') ==> Namespace(p + [c] + t) == p
    ensures c == ':' || c == '|' ==> Namespace([c] + t) == [c] + t
  {
    assert forall i :: 0 <= i < |p| ==> p[i] in p;
    var key := p + [c] + t;
    assert key[|p|] == c && key[..|p|] == p;
    assert forall i :: 0 <= i < |p| ==> key[i] == p[i];
  }

  /** A namespace holds a separator only if it begins with one. */
  lemma NamespaceShape(key: string)
    ensures var ns := Namespace(key);
      ns == "" || IsSeparator(ns[0]) || forall j :: 0 <= j < |ns| ==> !IsSeparator(ns[j])
  {
  }

  /** A key that begins with a namespace but belongs to another one belongs to a longer one. */
  lemma ForeignNamespaceExtends(p: string, key: string)
    requires p != "" && p <= key && Namespace(key) != p
    requires IsSeparator(p[0]) || forall j :: 0 <= j < |p| ==> !IsSeparator(p[j])
    ensures p <= Namespace(key)
  {
    var i := FirstSeparator(key);
    if 0 < i < |key| {
      assert p[0] == key[0] && !IsSeparator(p[0]);
      assert forall j :: 0 <= j < |p| ==> p[j] == key[j];
      assert |p| <= i;
    }
  }

  /** The index is the partition of the keys by namespace, without empty classes. */
  ghost predicate Partitioned(keys: set<string>, index: map<string, set<string>>)
  {
    && (forall ns :: ns in index ==> index[ns] != {})
    && (forall ns, k :: ns in index && k in index[ns] ==> k in keys && Namespace(k) == ns)
    && (forall k :: k in keys ==> Namespace(k) in index && k in index[Namespace(k)])
  }

  function AddKey(index: map<string, set<string>>, key: string): map<string, set<string>>
  {
    var ns := Namespace(key);
    index[ns := (if ns in index then index[ns] else {}) + {key}]
  }

  function RemoveKey(index: map<string, set<string>>, key: string): map<string, set<string>>
  {
    var ns := Namespace(key);
    if ns !in index then index
    else if index[ns] - {key} == {} then index - {ns}
    else index[ns := index[ns] - {key}]
  }

  lemma AddKeyPartitions(keys: set<string>, index: map<string, set<string>>, key: string)
    requires Partitioned(keys, index)
    ensures Partitioned(keys + {key}, AddKey(index, key))
  {
    hide Namespace;
  }

  lemma RemoveKeyPartitions(keys: set<string>, index: map<string, set<string>>, key: string)
    requires Partitioned(keys, index)
    ensures Partitioned(keys - {key}, RemoveKey(index, key))
  {
    hide Namespace;
  }

  lemma RemoveClassPartitions(keys: set<string>, index: map<string, set<string>>, ns: string)
    requires Partitioned(keys, index) && ns in index
    ensures Partitioned(keys - index[ns], index - {ns})
  {
    hide Namespace;
    var less, rest := keys - index[ns], index - {ns};
    forall k | k in less
      ensures Namespace(k) in rest && k in rest[Namespace(k)]
    {
      assert k in keys;
      assert Namespace(k) in index && k in index[Namespace(k)];
    }
    forall m, k | m in rest && k in rest[m]
      ensures k in less && Namespace(k) == m
    {
      assert m in index && k in index[m];
      assert k in index[ns] ==> Namespace(k) == ns;
    }
    assert forall m :: m in rest ==> m in index && rest[m] == index[m];
  }

  /** The keys a scan for the prefix finds. */
  ghost function StartsWith(keys: set<string>, prefix: string): set<string>
  {
    set k | k in keys && prefix <= k
  }

  /** Taking a live namespace by the index is the scan for its name exactly when no other live
      namespace begins with that name. */
  lemma IndexEqualsScanIff(keys: set<string>, index: map<string, set<string>>, prefix: string)
    requires Partitioned(keys, index) && prefix in index && prefix != ""
    ensures index[prefix] == StartsWith(keys, prefix) <==> forall ns :: ns in index && ns != prefix ==> !(prefix <= ns)
  {
    var witness_ :| witness_ in index[prefix];
    NamespaceShape(witness_);
    forall k | k in index[prefix]
      ensures k in StartsWith(keys, prefix)
    {
      assert Namespace(k) == prefix;
    }
    if ns :| ns in index && ns != prefix && prefix <= ns {
      var k :| k in index[ns];
      assert Namespace(k) == ns && ns == k[..|ns|];
      assert prefix == ns[..|prefix|] == k[..|prefix|];
      assert k in StartsWith(keys, prefix) && k !in index[prefix];
    } else {
      forall k | k in StartsWith(keys, prefix)
        ensures k in index[prefix]
      {
        if Namespace(k) != prefix {
          ForeignNamespaceExtends(prefix, k);
        }
      }
    }
  }

  // ---------------------------------------------------------------------------------------
  // Identity of entries
  // ---------------------------------------------------------------------------------------

  /** Every entry has been given its stamp already. */
  ghost predicate Stamped<V>(entries: map<string, Entry<V>>, next: nat)
  {
    forall k :: k in entries ==> entries[k].stamp < next
  }

  /** What any calls may do between two moments: an entry is still the same object, or it was stored
      in between, under a stamp given in between. */
  ghost predicate Evolves<V>(a: map<string, Entry<V>>, na: nat, b: map<string, Entry<V>>, nb: nat)
  {
    na <= nb && forall k :: k in b ==> (k in a && b[k] == a[k]) || na <= b[k].stamp
  }

  lemma EvolvesOn<V>(a: map<string, Entry<V>>, na: nat, b: map<string, Entry<V>>, nb: nat, c: map<string, Entry<V>>,
                     nc: nat)
    requires Evolves(a, na, b, nb) && Evolves(b, nb, c, nc)
    ensures Evolves(a, na, c, nc)
  {
    forall k | k in c
      ensures (k in a && c[k] == a[k]) || na <= c[k].stamp
    {
      if k in b && c[k] == b[k] {
        assert (k in a && b[k] == a[k]) || na <= b[k].stamp;
      }
    }
  }

  /** Equal stamps mean the same entry, whatever happened since it was read: the comparison in the
      second lock of Get never takes a replacement for the entry. */
  lemma StampIsIdentity<V>(a: map<string, Entry<V>>, na: nat, b: map<string, Entry<V>>, nb: nat, key: string)
    requires Stamped(a, na) && Evolves(a, na, b, nb) && key in a && key in b
    ensures b[key].stamp == a[key].stamp <==> b[key] == a[key]
  {
  }

  class QueryCache<V> {
    var entries: map<string, Entry<V>>
    var namespaces: map<string, set<string>>
    var hits: int
    var misses: int
    var nextStamp: nat
    const ttl: int
    const maxEntries: nat

    ghost predicate Valid()
      reads this
    {
      Partitioned(entries.Keys, namespaces) && |entries| <= maxEntries && ttl > 0 && Stamped(entries, nextStamp)
    }

    constructor (ttl: int)
      ensures Valid() && entries == map[] && maxEntries == MAX_ENTRIES
      ensures this.ttl == if ttl <= 0 then DEFAULT_TTL else ttl
    {
      this.ttl := if ttl <= 0 then DEFAULT_TTL else ttl;
      maxEntries := MAX_ENTRIES;
      entries, namespaces, hits, misses, nextStamp := map[], map[], 0, 0, 0;
    }

    method IndexKeyLocked(key: string)
      modifies this`namespaces
      ensures namespaces == AddKey(old(namespaces), key)
    {
      var ns := Namespace(key);
      var keys := if ns in namespaces then namespaces[ns] else {};
      namespaces := namespaces[ns := keys + {key}];
    }

    method RemoveKeyLocked(key: string)
      modifies this`entries, this`namespaces
      ensures entries == old(entries) - {key}
      ensures namespaces == RemoveKey(old(namespaces), key)
    {
      entries := entries - {key};
      var ns := Namespace(key);
      if ns !in namespaces {
        return;
      }
      var keys := namespaces[ns] - {key};
      namespaces := if keys == {} then namespaces - {ns} else namespaces[ns := keys];
    }

    /** Removes the expired entries, in whatever order the map yields them. */
    method SweepLocked(now: int)
      requires Partitioned(entries.Keys, namespaces)
      modifies this`entries, this`namespaces
      ensures Partitioned(entries.Keys, namespaces)
      ensures entries == Live(old(entries), now)
    {
      hide Partitioned, RemoveKey;
      ghost var before := entries;
      var todo := entries.Keys;
      while todo != {}
        invariant Partitioned(entries.Keys, namespaces)
        invariant todo <= entries.Keys
        invariant entries == LiveSoFar(before, todo, now)
        decreases todo
      {
        var k :| k in todo;
        LiveStep(before, todo, now, k);
        todo := todo - {k};
        if now > entries[k].expiresAt {
          RemoveKeyPartitions(entries.Keys, namespaces, k);
          assert (entries - {k}).Keys == entries.Keys - {k};
          RemoveKeyLocked(k);
        }
      }
    }

    /** An existing key is replaced; a new one is stored if there is room after removing expired
        entries, and dropped otherwise. */
    method StoreLocked(key: string, e: Entry<V>, now: int)
      requires Valid() && e.stamp < nextStamp
      modifies this`entries, this`namespaces
      ensures Valid()
      ensures entries == Stored(old(entries), key, e, now, maxEntries)
    {
      hide Partitioned, AddKey, Live, Stamped;
      StoredIsStamped(entries, key, e, now, maxEntries, nextStamp);
      if key !in entries && |entries| >= maxEntries {
        LiveIsSmaller(entries, now);
        SweepLocked(now);
        if |entries| >= maxEntries {
          return;
        }
      }
      PutSize(entries, key, e);
      AddKeyPartitions(entries.Keys, namespaces, key);
      entries := entries[key := e];
      IndexKeyLocked(key);
    }

    /** The latest live value. An expired entry is removed on the way. */
    method Get(key: string, now: int) returns (r: Option<V>)
      requires Valid()
      modifies this`entries, this`namespaces, this`hits, this`misses
      ensures Valid()
      ensures r.Some? <==> |key| <= MAX_KEY_BYTES && key in old(entries) && now <= old(entries)[key].expiresAt
      ensures r.Some? ==> r.value == old(entries)[key].value && entries == old(entries)
      ensures r.None? ==> entries == (if |key| <= MAX_KEY_BYTES then old(entries) - {key} else old(entries))
      ensures if r.Some? then hits == old(hits) + 1 && misses == old(misses)
              else hits == old(hits) && misses == old(misses) + 1
      ensures Evolves(old(entries), nextStamp, entries, nextStamp)
    {
      hide Partitioned;
      if |key| > MAX_KEY_BYTES {
        misses := misses + 1;
        return None;
      }
      if key !in entries {
        misses := misses + 1;
        return None;
      }
      var e := entries[key];
      if now > e.expiresAt {
        ExpireIfCurrent(key, e.stamp, entries, nextStamp);
        misses := misses + 1;
        return None;
      }
      hits := hits + 1;
      r := Some(e.value);
    }

    /** The second lock of Get. `read` and `readStamp` are the content and the next stamp at the
        first lock, and anything may have been called in between: the entry that was read is removed
        if it is still there, and nothing else, in particular not a replacement of it. */
    method ExpireIfCurrent(key: string, stamp: nat, ghost read: map<string, Entry<V>>, ghost readStamp: nat)
      requires Valid() && Stamped(read, readStamp) && Evolves(read, readStamp, entries, nextStamp)
      requires key in read && stamp == read[key].stamp
      modifies this`entries, this`namespaces
      ensures Valid()
      ensures entries ==
        if key in old(entries) && old(entries)[key] == read[key] then old(entries) - {key} else old(entries)
      ensures Evolves(old(entries), nextStamp, entries, nextStamp)
    {
      hide Partitioned;
      if key in entries {
        StampIsIdentity(read, readStamp, entries, nextStamp, key);
        if entries[key].stamp == stamp {
          Invalidate(key);
        }
      }
    }

    method SetWithTTL(key: string, value: V, ttl: int, now: int)
      requires Valid()
      modifies this`entries, this`namespaces, this`nextStamp
      ensures Valid()
      ensures entries ==
        if |key| > MAX_KEY_BYTES then old(entries)
        else
          var e := Entry(old(nextStamp), value, now + if ttl <= 0 then DEFAULT_TTL else ttl);
          Stored(old(entries), key, e, now, maxEntries)
      ensures nextStamp == old(nextStamp) + if |key| > MAX_KEY_BYTES then 0 else 1
      ensures Evolves(old(entries), old(nextStamp), entries, nextStamp)
    {
      hide Partitioned, Stamped, Stored, Evolves;
      EvolvesInPlace(entries, {}, nextStamp);
      assert entries - {} == entries;
      if |key| > MAX_KEY_BYTES {
        return;
      }
      StampedLater(entries, nextStamp);
      StoredEvolves(entries, key, value, ttl, now, maxEntries, nextStamp);
      var life := if ttl <= 0 then DEFAULT_TTL else ttl;
      var e := Entry(nextStamp, value, now + life);
      nextStamp := nextStamp + 1;
      StoreLocked(key, e, now);
    }

    method Set(key: string, value: V, now: int)
      requires Valid()
      modifies this`entries, this`namespaces, this`nextStamp
      ensures Valid()
      ensures entries ==
        if |key| > MAX_KEY_BYTES then old(entries)
        else Stored(old(entries), key, Entry(old(nextStamp), value, now + ttl), now, maxEntries)
      ensures nextStamp == old(nextStamp) + if |key| > MAX_KEY_BYTES then 0 else 1
      ensures Evolves(old(entries), old(nextStamp), entries, nextStamp)
    {
      hide Partitioned, Stamped, Stored, Evolves;
      SetWithTTL(key, value, ttl, now);
    }

    method Invalidate(key: string)
      requires Valid()
      modifies this`entries, this`namespaces
      ensures Valid() && entries == old(entries) - {key}
      ensures Evolves(old(entries), nextStamp, entries, nextStamp)
    {
      hide Partitioned, RemoveKey;
      RemoveKeyPartitions(entries.Keys, namespaces, key);
      assert (entries - {key}).Keys == entries.Keys - {key};
      Smaller(entries.Keys - {key}, entries.Keys);
      RemoveKeyLocked(key);
    }

    /** A live namespace is removed as a class; any other prefix by a scan. */
    method InvalidatePrefix(prefix: string)
      requires Valid()
      modifies this`entries, this`namespaces
      ensures Valid()
      ensures entries ==
        if prefix == "" then old(entries)
        else if prefix in old(namespaces) then old(entries) - old(namespaces)[prefix]
        else old(entries) - StartsWith(old(entries).Keys, prefix)
      ensures Evolves(old(entries), nextStamp, entries, nextStamp)
    {
      if prefix == "" {
        return;
      }
      if prefix in namespaces {
        RemoveClass(prefix);
      } else {
        ScanAndRemove(prefix);
      }
    }

    /** The branch for a live namespace. */
    method RemoveClass(prefix: string)
      requires Valid() && prefix in namespaces
      modifies this`entries, this`namespaces
      ensures Valid() && entries == old(entries) - old(namespaces)[prefix]
    {
      hide Partitioned, Stamped, TakenSoFar;
      ghost var before, index, all := entries, namespaces, namespaces[prefix];
      var todo := namespaces[prefix];
      TakenBounds(before, all);
      while todo != {}
        invariant todo <= all && namespaces == index
        invariant entries == TakenSoFar(before, all, todo)
        decreases todo
      {
        var key :| key in todo;
        TakenNext(before, all, todo, key);
        todo := todo - {key};
        entries := entries - {key};
      }
      ClassRemoved(before, namespaces, prefix);
      FewerStamped(before, all, nextStamp);
      namespaces := namespaces - {prefix};
    }

    /** The branch for any other prefix. */
    method ScanAndRemove(prefix: string)
      requires Valid()
      modifies this`entries, this`namespaces
      ensures Valid() && entries == old(entries) - StartsWith(old(entries).Keys, prefix)
    {
      hide Partitioned, RemoveKey;
      ghost var before := entries;
      var todo := entries.Keys;
      while todo != {}
        invariant Partitioned(entries.Keys, namespaces) && todo <= entries.Keys
        invariant entries == ScannedSoFar(before, todo, prefix)
        decreases todo
      {
        var key :| key in todo;
        todo := todo - {key};
        if prefix <= key {
          RemoveKeyPartitions(entries.Keys, namespaces, key);
          assert (entries - {key}).Keys == entries.Keys - {key};
          RemoveKeyLocked(key);
        }
        assert entries == ScannedSoFar(before, todo, prefix);
      }
      Smaller(entries.Keys, before.Keys);
    }

    method InvalidateAll()
      requires Valid()
      modifies this`entries, this`namespaces
      ensures Valid() && entries == map[]
      ensures Evolves(old(entries), nextStamp, entries, nextStamp)
    {
      entries := map[];
      namespaces := map[];
    }
  }

  ghost function Live<V>(entries: map<string, Entry<V>>, now: int): map<string, Entry<V>>
  {
    map k | k in entries && now <= entries[k].expiresAt :: entries[k]
  }

  /** What a store leaves. */
  ghost function Stored<V>(entries: map<string, Entry<V>>, key: string, e: Entry<V>, now: int,
                           maxEntries: nat): map<string, Entry<V>>
  {
    if key in entries || |entries| < maxEntries then entries[key := e]
    else if |Live(entries, now)| < maxEntries then Live(entries, now)[key := e]
    else Live(entries, now)
  }

  lemma ClassRemoved<V>(entries: map<string, Entry<V>>, index: map<string, set<string>>, ns: string)
    requires Partitioned(entries.Keys, index) && ns in index
    ensures Partitioned((entries - index[ns]).Keys, index - {ns}) && |entries - index[ns]| <= |entries|
  {
    hide Partitioned;
    RemoveClassPartitions(entries.Keys, index, ns);
    assert (entries - index[ns]).Keys == entries.Keys - index[ns];
    Smaller(entries.Keys - index[ns], entries.Keys);
  }

  lemma EvolvesInPlace<V>(entries: map<string, Entry<V>>, keys: set<string>, next: nat)
    ensures Evolves(entries, next, entries - keys, next)
  {
  }

  lemma FewerStamped<V>(entries: map<string, Entry<V>>, keys: set<string>, next: nat)
    ensures Stamped(entries, next) ==> Stamped(entries - keys, next)
  {
  }

  lemma StampedLater<V>(entries: map<string, Entry<V>>, next: nat)
    ensures Stamped(entries, next) ==> Stamped(entries, next + 1)
  {
  }

  lemma StoredIsStamped<V>(entries: map<string, Entry<V>>, key: string, e: Entry<V>, now: int, maxEntries: nat,
                           next: nat)
    requires Stamped(entries, next) && e.stamp < next
    ensures Stamped(Stored(entries, key, e, now, maxEntries), next)
  {
  }

  lemma StoredEvolves<V>(entries: map<string, Entry<V>>, key: string, value: V, ttl: int, now: int, maxEntries: nat,
                         next: nat)
    ensures var e := Entry(next, value, now + if ttl <= 0 then DEFAULT_TTL else ttl);
      Evolves(entries, next, Stored(entries, key, e, now, maxEntries), next + 1)
  {
  }

  /** A value that is set is there afterwards exactly when its key was there, or there was room, or an
      expired entry makes room. Every other entry stays as it is, but for expired ones. */
  lemma SetThenGet<V>(entries: map<string, Entry<V>>, key: string, e: Entry<V>, now: int, maxEntries: nat)
    requires |entries| <= maxEntries
    ensures var after := Stored(entries, key, e, now, maxEntries);
      && (key in after <==>
            key in entries || |entries| < maxEntries || exists k :: k in entries && now > entries[k].expiresAt)
      && (key in after ==> after[key] == e)
      && (forall k :: k in entries && k != key && now <= entries[k].expiresAt ==> k in after && after[k] == entries[k])
      && (forall k :: k in after && k != key ==> k in entries && after[k] == entries[k])
  {
    LiveIsSmaller(entries, now);
    var live := Live(entries, now);
    if k :| k in entries && now > entries[k].expiresAt {
      assert live.Keys <= entries.Keys - {k};
      Smaller(live.Keys, entries.Keys - {k});
    } else {
      assert live == entries;
    }
  }

  ghost function LiveSoFar<V>(entries: map<string, Entry<V>>, todo: set<string>, now: int): map<string, Entry<V>>
  {
    map k | k in entries && (k in todo || now <= entries[k].expiresAt) :: entries[k]
  }

  lemma LiveStep<V>(entries: map<string, Entry<V>>, todo: set<string>, now: int, k: string)
    requires k in todo && k in entries
    ensures k in LiveSoFar(entries, todo, now) && LiveSoFar(entries, todo, now)[k] == entries[k]
    ensures LiveSoFar(entries, todo - {k}, now) ==
            if now > entries[k].expiresAt then LiveSoFar(entries, todo, now) - {k} else LiveSoFar(entries, todo, now)
  {
  }

  ghost function TakenSoFar<V>(entries: map<string, Entry<V>>, all: set<string>,
                               todo: set<string>): map<string, Entry<V>>
  {
    map k | k in entries && (k in todo || k !in all) :: entries[k]
  }

  lemma TakenBounds<V>(entries: map<string, Entry<V>>, all: set<string>)
    ensures TakenSoFar(entries, all, all) == entries && TakenSoFar(entries, all, {}) == entries - all
  {
  }

  lemma TakenNext<V>(entries: map<string, Entry<V>>, all: set<string>, todo: set<string>, key: string)
    requires key in todo && todo <= all
    ensures TakenSoFar(entries, all, todo - {key}) == TakenSoFar(entries, all, todo) - {key}
  {
  }

  ghost function ScannedSoFar<V>(entries: map<string, Entry<V>>, todo: set<string>,
                                 prefix: string): map<string, Entry<V>>
  {
    map k | k in entries && (k in todo || !(prefix <= k)) :: entries[k]
  }

  lemma LiveIsSmaller<V>(entries: map<string, Entry<V>>, now: int)
    ensures |Live(entries, now)| <= |entries|
  {
    Smaller(Live(entries, now).Keys, entries.Keys);
  }

  lemma PutSize<V>(entries: map<string, Entry<V>>, key: string, e: Entry<V>)
    ensures entries[key := e].Keys == entries.Keys + {key}
    ensures |entries[key := e]| == if key in entries then |entries| else |entries| + 1
  {
    assert key in entries ==> entries[key := e].Keys == entries.Keys;
  }

  lemma Smaller(a: set<string>, b: set<string>)
    requires a <= b
    ensures |a| <= |b|
  {
    assert b == a + (b - a);
  }
}
