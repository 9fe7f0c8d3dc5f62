/** The state that the response cache (internal/cache/response_cache.go) guards with its
    accounting lock, as a value: 64 shards, the reverse index from (site, path) to keys, and the
    byte and entry counters. The single-entry updates are functions; the eviction, whose victims
    depend on map order and sorting ties, is a relation. */
module CacheStore {
  import opened Common

  const SHARDS: nat := 64

  /** What a hit returns. */
  datatype Response = Response(status: int, contentType: string, body: seq<int>, header: seq<(string, seq<string>)>)

  /** `id` is the identity of the entry object: the source compares entry pointers. */
  datatype Entry = Entry(id: nat, response: Response, cachedAt: int, ttl: int, siteID: nat,
                         targetURI: string, sizeBytes: int, lastAccess: int)

  predicate Expired(e: Entry, now: int)
  {
    now - e.cachedAt > e.ttl
  }

  predicate StaleWithin(e: Entry, now: int, maxStale: int)
  {
    maxStale > 0 && now - e.cachedAt > e.ttl && now - e.cachedAt - e.ttl <= maxStale
  }

  datatype Store = Store(shards: seq<map<string, Entry>>, index: map<string, set<string>>,
                         curSize: int, entryCount: int)

  // ---------------------------------------------------------------------------------------
  // Shards
  // ---------------------------------------------------------------------------------------

  function Hash(key: string): (h: nat)
    ensures h < TWO_TO_THE_64
  {
    if key == "" then 0
    else (Hash(key[..|key| - 1]) * 31 + key[|key| - 1] as nat) % TWO_TO_THE_64
  }

  function ShardOf(key: string): (i: nat)
    ensures i < SHARDS
  {
    Hash(key) % SHARDS
  }

  /** Each key lies only in its own shard. */
  ghost predicate OwnShards(shards: seq<map<string, Entry>>)
  {
    |shards| == SHARDS && forall i, k :: 0 <= i < SHARDS && k in shards[i] ==> ShardOf(k) == i
  }

  /** All entries of all shards. */
  ghost function Items(shards: seq<map<string, Entry>>): map<string, Entry>
    requires |shards| == SHARDS
  {
    map k | k in AllKeys(shards) && k in shards[ShardOf(k)] :: shards[ShardOf(k)][k]
  }

  ghost function AllKeys(shards: seq<map<string, Entry>>): set<string>
  {
    if shards == [] then {} else shards[0].Keys + AllKeys(shards[1..])
  }

  lemma {:induction false} InAllKeys(shards: seq<map<string, Entry>>, i: nat, k: string)
    requires i < |shards| && k in shards[i]
    ensures k in AllKeys(shards)
  {
    if i != 0 {
      InAllKeys(shards[1..], i - 1, k);
    }
  }

  /** An entry is found by looking in its own shard. */
  lemma InItems(shards: seq<map<string, Entry>>, k: string)
    requires |shards| == SHARDS
    ensures k in Items(shards) <==> k in shards[ShardOf(k)]
    ensures k in Items(shards) ==> Items(shards)[k] == shards[ShardOf(k)][k]
  {
    if k in shards[ShardOf(k)] {
      InAllKeys(shards, ShardOf(k), k);
    }
  }

  lemma ReplaceShard(shards: seq<map<string, Entry>>, k: string, shard: map<string, Entry>)
    requires OwnShards(shards) && shard - {k} == shards[ShardOf(k)] - {k}
    ensures OwnShards(shards[ShardOf(k) := shard])
    ensures Items(shards[ShardOf(k) := shard]) - {k} == Items(shards) - {k}
    ensures k in Items(shards[ShardOf(k) := shard]) <==> k in shard
    ensures k in shard ==> Items(shards[ShardOf(k) := shard])[k] == shard[k]
  {
    var i := ShardOf(k);
    var was := shards[i];
    var after := shards[i := shard];
    forall x | x in shard
      ensures ShardOf(x) == i
    {
      if x != k {
        assert x in shard - {k};
        assert x in was;
      }
    }
    forall x | x != k
      ensures x in Items(after) <==> x in Items(shards)
      ensures x in Items(after) ==> Items(after)[x] == Items(shards)[x]
    {
      InItems(shards, x);
      InItems(after, x);
      assert x in shard <==> x in shard - {k};
      assert x in was <==> x in was - {k};
    }
    InItems(after, k);
  }

  lemma PutItem(shards: seq<map<string, Entry>>, k: string, e: Entry)
    requires OwnShards(shards)
    ensures OwnShards(shards[ShardOf(k) := shards[ShardOf(k)][k := e]])
    ensures Items(shards[ShardOf(k) := shards[ShardOf(k)][k := e]]) == Items(shards)[k := e]
  {
    var shard := shards[ShardOf(k)][k := e];
    ReplaceShard(shards, k, shard);
    var after := Items(shards[ShardOf(k) := shard]);
    assert after == (after - {k})[k := e];
    assert Items(shards)[k := e] == (Items(shards) - {k})[k := e];
  }

  lemma DropItem(shards: seq<map<string, Entry>>, k: string)
    requires OwnShards(shards)
    ensures OwnShards(shards[ShardOf(k) := shards[ShardOf(k)] - {k}])
    ensures Items(shards[ShardOf(k) := shards[ShardOf(k)] - {k}]) == Items(shards) - {k}
  {
    var shard := shards[ShardOf(k)] - {k};
    ReplaceShard(shards, k, shard);
    var after := Items(shards[ShardOf(k) := shard]);
    assert after == after - {k};
  }

  // ---------------------------------------------------------------------------------------
  // Counters
  // ---------------------------------------------------------------------------------------

  ghost function SumSizes(items: map<string, Entry>): int
  {
    if items == map[] then 0
    else
      var k :| k in items;
      items[k].sizeBytes + SumSizes(items - {k})
  }

  lemma {:induction false} SumWithout(items: map<string, Entry>, k: string)
    requires k in items
    ensures SumSizes(items) == items[k].sizeBytes + SumSizes(items - {k})
    decreases |items|
  {
    var j :| j in items && SumSizes(items) == items[j].sizeBytes + SumSizes(items - {j});
    if j != k {
      SumWithout(items - {j}, k);
      SumWithout(items - {k}, j);
      assert items - {j} - {k} == items - {k} - {j};
    }
  }

  lemma SumPut(items: map<string, Entry>, k: string, e: Entry)
    requires k !in items
    ensures SumSizes(items[k := e]) == SumSizes(items) + e.sizeBytes
  {
    SumWithout(items[k := e], k);
    assert items[k := e] - {k} == items;
  }

  // ---------------------------------------------------------------------------------------
  // Reverse index
  // ---------------------------------------------------------------------------------------

  function Digit(d: nat): char
    requires d < 10
  {
    '0' + d as char
  }

  /** Decimal form of an unsigned number. */
  function Decimal(n: nat): (s: string)
    ensures s != "" && forall i :: 0 <= i < |s| ==> '0' <= s[i] <= '9'
  {
    (if n < 10 then "" else Decimal(n / 10)) + [Digit(n % 10)]
  }

  /** The part of the target before the query. */
  function TargetPath(uri: string): string
  {
    if uri == "" || uri[0] == '?' then "" else [uri[0]] + TargetPath(uri[1..])
  }

  /** p is what stands in the target before its first question mark. */
  predicate IsPath(p: string, uri: string)
  {
    '?' !in p && OfPath(p, uri)
  }

  /** The target is the path, with or without a query. */
  predicate OfPath(p: string, uri: string)
  {
    uri == p || p + "?" <= uri
  }

  /** Cutting at the first question mark finds the one path of a target. */
  lemma {:induction false} PathIsCut(p: string, uri: string)
    ensures IsPath(p, uri) <==> p == TargetPath(uri)
  {
    if uri != "" && uri[0] != '?' {
      var c, rest := uri[0], uri[1..];
      if p != "" && p[0] == c {
        PathIsCut(p[1..], rest);
        assert p == [c] + p[1..] && uri == [c] + rest;
        assert p + "?" == [c] + (p[1..] + "?");
        assert '?' in p <==> '?' in p[1..];
      } else {
        assert p == "" ==> !(p + "?" <= uri);
        assert p != "" ==> !(p <= uri);
      }
    } else if uri != "" {
      assert p != "" && p <= uri ==> p[0] == '?';
    }
  }

  function IndexKey(siteID: nat, path: string): string
  {
    Decimal(siteID) + "\0" + path
  }

  lemma {:induction false} DecimalInjective(m: nat, n: nat)
    requires Decimal(m) == Decimal(n)
    ensures m == n
  {
    var s, t := Decimal(m), Decimal(n);
    assert s[|s| - 1] == Digit(m % 10) && t[|t| - 1] == Digit(n % 10);
    assert s[..|s| - 1] == t[..|t| - 1];
    assert s[..|s| - 1] == if m < 10 then "" else Decimal(m / 10);
    assert t[..|t| - 1] == if n < 10 then "" else Decimal(n / 10);
    if m >= 10 && n >= 10 {
      DecimalInjective(m / 10, n / 10);
    }
  }

  /** The digits cannot run into the path because of the separator between them. */
  lemma IndexKeyInjective(m: nat, p: string, n: nat, q: string)
    ensures IndexKey(m, p) == IndexKey(n, q) <==> m == n && p == q
  {
    if IndexKey(m, p) == IndexKey(n, q) {
      var k := IndexKey(m, p);
      var a, b := |Decimal(m)|, |Decimal(n)|;
      assert k[a] == '\0' && k[b] == '\0';
      assert k[..a] == Decimal(m) && k[..b] == Decimal(n);
      assert forall i :: 0 <= i < a ==> k[i] == Decimal(m)[i] != '\0';
      assert forall i :: 0 <= i < b ==> k[i] == Decimal(n)[i] != '\0';
      assert a == b;
      assert k[a + 1..] == p && k[b + 1..] == q;
      DecimalInjective(m, n);
    }
  }

  function EntryIndexKey(e: Entry): string
  {
    IndexKey(e.siteID, TargetPath(e.targetURI))
  }

  /** The keys that the index has to hold under ik. */
  ghost function Indexed(items: map<string, Entry>, ik: string): set<string>
  {
    set k | k in items && items[k].siteID != 0 && EntryIndexKey(items[k]) == ik
  }

  /** The index is exact and has no empty bucket. */
  ghost predicate IndexExact(index: map<string, set<string>>, items: map<string, Entry>)
  {
    forall ik :: if ik in index then index[ik] == Indexed(items, ik) != {} else Indexed(items, ik) == {}
  }

  function AddToIndex(index: map<string, set<string>>, k: string, e: Entry): map<string, set<string>>
  {
    if e.siteID == 0 then index
    else
      var ik := EntryIndexKey(e);
      index[ik := (if ik in index then index[ik] else {}) + {k}]
  }

  function RemoveFromIndex(index: map<string, set<string>>, k: string, e: Entry): map<string, set<string>>
  {
    if e.siteID == 0 then index
    else
      var ik := EntryIndexKey(e);
      if ik !in index then index
      else if index[ik] - {k} == {} then index - {ik}
      else index[ik := index[ik] - {k}]
  }

  lemma AddKeepsExact(index: map<string, set<string>>, items: map<string, Entry>, k: string, e: Entry)
    requires IndexExact(index, items) && k !in items
    ensures IndexExact(AddToIndex(index, k, e), items[k := e])
  {
    var after, more := AddToIndex(index, k, e), items[k := e];
    forall ik
      ensures if ik in after then after[ik] == Indexed(more, ik) != {} else Indexed(more, ik) == {}
    {
      if e.siteID != 0 && EntryIndexKey(e) == ik {
        assert Indexed(more, ik) == Indexed(items, ik) + {k};
      } else {
        assert Indexed(more, ik) == Indexed(items, ik);
      }
    }
  }

  lemma RemoveKeepsExact(index: map<string, set<string>>, items: map<string, Entry>, k: string)
    requires IndexExact(index, items) && k in items
    ensures IndexExact(RemoveFromIndex(index, k, items[k]), items - {k})
  {
    var e := items[k];
    var after, less := RemoveFromIndex(index, k, e), items - {k};
    forall ik
      ensures if ik in after then after[ik] == Indexed(less, ik) != {} else Indexed(less, ik) == {}
    {
      if e.siteID != 0 && EntryIndexKey(e) == ik {
        assert Indexed(less, ik) == Indexed(items, ik) - {k};
        assert k in Indexed(items, ik);
      } else {
        assert Indexed(less, ik) == Indexed(items, ik);
      }
    }
  }

  // ---------------------------------------------------------------------------------------
  // The store
  // ---------------------------------------------------------------------------------------

  /** What holds whenever the accounting lock is free. */
  ghost predicate Consistent(st: Store)
  {
    && OwnShards(st.shards)
    && st.curSize == SumSizes(Items(st.shards))
    && st.entryCount == |Items(st.shards)|
    && IndexExact(st.index, Items(st.shards))
  }

  ghost function Content(st: Store): map<string, Entry>
    requires Consistent(st)
  {
    Items(st.shards)
  }

  /** Replacing or inserting one entry. */
  function Put(st: Store, k: string, e: Entry): Store
    requires |st.shards| == SHARDS
  {
    var s := st.shards[ShardOf(k)];
    var cleared := if k in s
        then Store(st.shards, RemoveFromIndex(st.index, k, s[k]), st.curSize - s[k].sizeBytes, st.entryCount)
                   else st.(entryCount := st.entryCount + 1);
    Store(st.shards[ShardOf(k) := s[k := e]], AddToIndex(cleared.index, k, e),
          cleared.curSize + e.sizeBytes, cleared.entryCount)
  }

  /** Deleting one entry. */
  function Drop(st: Store, k: string): Store
    requires |st.shards| == SHARDS && k in st.shards[ShardOf(k)]
  {
    var s := st.shards[ShardOf(k)];
    Store(st.shards[ShardOf(k) := s - {k}], RemoveFromIndex(st.index, k, s[k]),
          st.curSize - s[k].sizeBytes, st.entryCount - 1)
  }

  /** A hit refreshes the access time of the entry it returns. */
  function Touch(st: Store, k: string, at: int): Store
    requires |st.shards| == SHARDS && k in st.shards[ShardOf(k)]
  {
    var s := st.shards[ShardOf(k)];
    st.(shards := st.shards[ShardOf(k) := s[k := s[k].(lastAccess := at)]])
  }

  function EmptyStore(): Store
  {
    Store(seq(SHARDS, _ => map[]), map[], 0, 0)
  }

  lemma EmptyIsConsistent()
    ensures Consistent(EmptyStore()) && Content(EmptyStore()) == map[]
  {
    forall k
      ensures k !in Items(EmptyStore().shards)
    {
      InItems(EmptyStore().shards, k);
    }
    assert Items(EmptyStore().shards) == map[];
  }

  lemma DropConsistent(st: Store, k: string)
    requires Consistent(st) && k in st.shards[ShardOf(k)]
    ensures k in Content(st) && Consistent(Drop(st, k)) && Content(Drop(st, k)) == Content(st) - {k}
  {
    InItems(st.shards, k);
    DropItem(st.shards, k);
    SumWithout(Content(st), k);
    RemoveKeepsExact(st.index, Content(st), k);
    assert |Content(st) - {k}| == |Content(st)| - 1 by {
      assert (Content(st) - {k}).Keys == Content(st).Keys - {k};
    }
  }

  /** Inserting a key that is not there. */
  function Insert(st: Store, k: string, e: Entry): Store
    requires |st.shards| == SHARDS
  {
    Store(st.shards[ShardOf(k) := st.shards[ShardOf(k)][k := e]], AddToIndex(st.index, k, e),
          st.curSize + e.sizeBytes, st.entryCount + 1)
  }

  lemma InsertConsistent(st: Store, k: string, e: Entry)
    requires Consistent(st) && k !in Content(st)
    ensures Consistent(Insert(st, k, e)) && Content(Insert(st, k, e)) == Content(st)[k := e]
  {
    hide SumSizes, IndexExact, AddToIndex, Items;
    var items := Content(st);
    PutItem(st.shards, k, e);
    SumPut(items, k, e);
    AddKeepsExact(st.index, items, k, e);
    assert items[k := e].Keys == items.Keys + {k};
  }

  lemma PutIsDropInsert(st: Store, k: string, e: Entry)
    requires |st.shards| == SHARDS && k in st.shards[ShardOf(k)]
    ensures Put(st, k, e) == Insert(Drop(st, k), k, e)
  {
    var s := st.shards[ShardOf(k)];
    assert (s - {k})[k := e] == s[k := e];
  }

  lemma PutConsistent(st: Store, k: string, e: Entry)
    requires Consistent(st)
    ensures Consistent(Put(st, k, e)) && Content(Put(st, k, e)) == Content(st)[k := e]
  {
    InItems(st.shards, k);
    if k in st.shards[ShardOf(k)] {
      PutIsDropInsert(st, k, e);
      DropConsistent(st, k);
      InsertConsistent(Drop(st, k), k, e);
      ReplaceIsDropInsert(Content(st), k, e);
    } else {
      InsertConsistent(st, k, e);
    }
  }

  lemma ReplaceIsDropInsert(items: map<string, Entry>, k: string, e: Entry)
    ensures (items - {k})[k := e] == items[k := e]
  {
  }

  lemma TouchConsistent(st: Store, k: string, at: int)
    requires Consistent(st) && k in st.shards[ShardOf(k)]
    ensures k in Content(st) && Consistent(Touch(st, k, at))
    ensures Content(Touch(st, k, at)) == Content(st)[k := Content(st)[k].(lastAccess := at)]
  {
    var items := Content(st);
    InItems(st.shards, k);
    var e := items[k].(lastAccess := at);
    PutItem(st.shards, k, e);
    var after := items[k := e];
    SameSum(items, k, e);
    assert after.Keys == items.Keys;
    SameIndex(st.index, items, k, e);
  }

  lemma SameIndex(index: map<string, set<string>>, items: map<string, Entry>, k: string, e: Entry)
    requires k in items && e.siteID == items[k].siteID && e.targetURI == items[k].targetURI
    requires IndexExact(index, items)
    ensures IndexExact(index, items[k := e])
  {
    forall ik
      ensures Indexed(items[k := e], ik) == Indexed(items, ik)
    {
    }
  }

  lemma SameSum(items: map<string, Entry>, k: string, e: Entry)
    requires k in items && e.sizeBytes == items[k].sizeBytes
    ensures SumSizes(items[k := e]) == SumSizes(items)
  {
    SumWithout(items, k);
    SumWithout(items[k := e], k);
    assert items - {k} == items[k := e] - {k};
  }
}
