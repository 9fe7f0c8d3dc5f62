/** What a lookup answers, over whole runs of CacheProtocol: the value stored last under the key.
    (internal/cache/response_cache.go) */
module CacheHistory {
  import opened CacheStore
  import opened CacheEviction
  import opened CacheProtocol

  /** Step m is a store under k that passed every check. */
  ghost predicate Stores(trace: seq<Sys>, steps: seq<Step>, m: nat, k: string)
    requires |trace| == |steps| + 1
  {
    && m < |steps| && steps[m].StoreEntry?
    && At(trace[m], steps[m].t).SetReady? && At(trace[m], steps[m].t).gen == trace[m].gen
    && At(trace[m], steps[m].t).key == k
  }

  /** Step m stored e under k, under an identity of its own, and no later step before i stored
      anything under k. */
  ghost predicate Latest(trace: seq<Sys>, steps: seq<Step>, i: nat, k: string, e: Entry, m: nat)
    requires |trace| == |steps| + 1
  {
    && m < i && Stores(trace, steps, m, k)
    && SameButAccess(e, At(trace[m], steps[m].t).entry.(id := trace[m].nextId))
    && forall j :: m < j < i ==> !Stores(trace, steps, j, k)
  }

  /** Whatever is stored is what was stored last under its key. */
  lemma {:induction false} StoredIsLatest(lim: Limits, trace: seq<Sys>, steps: seq<Step>, i: nat, k: string)
    requires Run(lim, trace, steps) && i < |trace|
    requires |trace| == |steps| + 1 && |trace[i].store.shards| == SHARDS && k in Stored(trace[i])
    ensures exists m :: Latest(trace, steps, i, k, Stored(trace[i])[k], m)
  {
    hide *;
    if i == 0 {
      StartsEmpty(lim, trace, steps, k);
    } else {
      StepKeepsLatest(lim, trace, steps, i - 1, k);
      if k in Stored(trace[i - 1]) && SameButAccess(Stored(trace[i])[k], Stored(trace[i - 1])[k])
         && !Stores(trace, steps, i - 1, k) {
        StoredIsLatest(lim, trace, steps, i - 1, k);
        var m :| Latest(trace, steps, i - 1, k, Stored(trace[i - 1])[k], m);
        LatestStays(trace, steps, i - 1, k, Stored(trace[i - 1])[k], Stored(trace[i])[k], m);
      }
    }
  }

  lemma StartsEmpty(lim: Limits, trace: seq<Sys>, steps: seq<Step>, k: string)
    requires Run(lim, trace, steps) && |trace[0].store.shards| == SHARDS
    ensures k !in Stored(trace[0])
  {
    EmptyIsConsistent();
  }

  /** An entry found after a step was there before and was not stored over, or was just stored. */
  lemma StepKeepsLatest(lim: Limits, trace: seq<Sys>, steps: seq<Step>, i: nat, k: string)
    requires Run(lim, trace, steps) && i < |steps| && |trace| == |steps| + 1
    requires |trace[i + 1].store.shards| == SHARDS && k in Stored(trace[i + 1])
    ensures |trace[i].store.shards| == SHARDS
    ensures || (k in Stored(trace[i]) && SameButAccess(Stored(trace[i + 1])[k], Stored(trace[i])[k])
                && !Stores(trace, steps, i, k))
            || Latest(trace, steps, i + 1, k, Stored(trace[i + 1])[k], i)
  {
    EveryStateIsSafe(lim, trace, steps, i);
    RunStep(lim, trace, steps, i);
    hide Run, Can, ValidStore, Items, LockInv, HeldInv, FenceInv, FreshInv, OffInv, SizedInv;
    var s, a, n := trace[i], steps[i], trace[i + 1];
    StoreMove(lim, s, a);
    if Shrinks(s, n) {
      NoSuccess(s, a);
    } else {
      assert Grows(s, n, a.t);
    }
  }

  /** A step that gives no identity is no successful store. */
  lemma NoSuccess(s: Sys, a: Step)
    requires |s.store.shards| == SHARDS && Do(s, a).nextId == s.nextId
    ensures a.StoreEntry? && At(s, a.t).SetReady? ==> At(s, a.t).gen != s.gen
  {
    hide Items, Drop, Touch, Put;
  }

  lemma LatestStays(trace: seq<Sys>, steps: seq<Step>, i: nat, k: string, e: Entry, f: Entry, m: nat)
    requires |trace| == |steps| + 1 && Latest(trace, steps, i, k, e, m)
    requires SameButAccess(f, e) && !Stores(trace, steps, i, k)
    ensures Latest(trace, steps, i + 1, k, f, m)
  {
    hide Stores;
  }

  ghost predicate NoneFor(items: map<string, Entry>, siteID: nat, path: string)
  {
    forall k :: k in items && items[k].siteID == siteID ==>
      items[k].targetURI != path && !(path + "?" <= items[k].targetURI)
  }

  /** A purge that begins for a target goes for its path, and its removal leaves no entry of the site
      for that path, whatever the query. */
  lemma PurgeTakesThePath(lim: Limits, trace: seq<Sys>, steps: seq<Step>, i: nat)
    requires Run(lim, trace, steps) && i < |steps| && |trace| == |steps| + 1
    ensures steps[i].BeginPurge? ==>
      var p := At(trace[i + 1], steps[i].t);
      p.PurgeWant? && p.siteID == steps[i].siteID && IsPath(p.path, steps[i].targetURI)
    ensures steps[i].Purge? ==>
      var p := At(trace[i], steps[i].t);
      p.PurgeBumped? && |trace[i + 1].store.shards| == SHARDS
      && NoneFor(Stored(trace[i + 1]), p.siteID, p.path)
  {
    RunStep(lim, trace, steps, i);
    EveryStateIsSafe(lim, trace, steps, i + 1);
    hide Run, Items, LockInv, HeldInv, FenceInv, FreshInv, OffInv, SizedInv;
    if steps[i].BeginPurge? {
      PathIsCut(TargetPath(steps[i].targetURI), steps[i].targetURI);
    }
  }

  /** In every interleaving a Get answers with an entry exactly when one is stored under the key and
      has not expired; and that entry is the one stored last under the key. */
  lemma GetIsLatest(lim: Limits, trace: seq<Sys>, steps: seq<Step>, i: nat)
    requires Run(lim, trace, steps) && i < |steps| && |trace| == |steps| + 1 && steps[i].LookGet?
    ensures |trace[i].store.shards| == SHARDS && At(trace[i], steps[i].t).GetRead?
    ensures var k, p := At(trace[i], steps[i].t).key, At(trace[i + 1], steps[i].t);
      && (p.Touching? <==> k in Stored(trace[i]) && !Expired(Stored(trace[i])[k], steps[i].now))
      && (p.Touching? ==> p.key == k && !Expired(p.entry, steps[i].now)
                          && exists m :: Latest(trace, steps, i, k, p.entry, m))
  {
    EveryStateIsSafe(lim, trace, steps, i);
    RunStep(lim, trace, steps, i);
    hide Run, ValidStore, Items, LockInv, HeldInv, FenceInv, FreshInv, OffInv, SizedInv, Latest;
    var k := At(trace[i], steps[i].t).key;
    FoundIsStored(lim, trace[i], k);
    if k in Stored(trace[i]) {
      StoredIsLatest(lim, trace, steps, i, k);
    }
  }

  /** So does a lookup of the current generation. */
  lemma LookupIsLatest(lim: Limits, trace: seq<Sys>, steps: seq<Step>, i: nat)
    requires Run(lim, trace, steps) && i < |steps| && |trace| == |steps| + 1 && steps[i].AnswerLook?
    ensures |trace[i].store.shards| == SHARDS && At(trace[i], steps[i].t).LookRead?
    ensures var q, p := At(trace[i], steps[i].t), At(trace[i + 1], steps[i].t);
      && (p.Touching? <==> q.gen == trace[i].gen && q.key in Stored(trace[i]))
      && (p.Touching? ==> p.key == q.key && exists m :: Latest(trace, steps, i, q.key, p.entry, m))
  {
    EveryStateIsSafe(lim, trace, steps, i);
    RunStep(lim, trace, steps, i);
    hide Run, ValidStore, Items, LockInv, HeldInv, FenceInv, FreshInv, OffInv, SizedInv, Latest;
    var k := At(trace[i], steps[i].t).key;
    FoundIsStored(lim, trace[i], k);
    if k in Stored(trace[i]) {
      StoredIsLatest(lim, trace, steps, i, k);
    }
  }
}
