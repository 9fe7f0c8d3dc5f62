/** The per-key leader election for cache fills, `BeginFill` of
    internal/cache/response_cache.go: the first caller for a key leads, later ones wait on the
    leader's channel. The table and the channels are guarded by one lock, so a run is any
    interleaving of whole critical sections, of followers waking up and of followers giving up. */
module FillElection {

  /** `grants` maps the channel of every leadership ever given to its key; `fired` are those whose
      release has run its once-body; `closed` are the closed channels. */
  datatype Table = Table(fills: map<string, nat>, grants: map<nat, string>, fired: set<nat>, closed: set<nat>)

  datatype Caller = Idle | Waiting(chan: nat)

  datatype State = State(table: Table, callers: map<nat, Caller>)

  datatype Step =
    | Begin(t: nat, key: string, chan: nat) // `chan` is the channel made if t leads
    | Release(chan: nat)                    // whoever holds the release function, any number of times
    | Wake(t: nat)                          // a follower returns without error
    | GiveUp(t: nat)                        // a follower's context ends

  function At(s: State, t: nat): Caller
  {
    if t in s.callers then s.callers[t] else Idle
  }

  predicate Leads(table: Table, key: string)
  {
    key !in table.fills
  }

  function Begun(table: Table, key: string, chan: nat): Table
  {
    if key in table.fills then table
    else table.(fills := table.fills[key := chan], grants := table.grants[chan := key])
  }

  function Released(table: Table, chan: nat): Table
  {
    if chan in table.fired || chan !in table.grants then table
    else
      var once := table.(fired := table.fired + {chan});
      var key := table.grants[chan];
      if key in once.fills && once.fills[key] == chan
      then once.(fills := once.fills - {key}, closed := once.closed + {chan})
      else once
  }

  predicate Can(s: State, a: Step)
  {
    match a
    case Begin(t, key, chan) => At(s, t).Idle? && chan !in s.table.grants
    case Release(chan) => chan in s.table.grants
    case Wake(t) => At(s, t).Waiting? && At(s, t).chan in s.table.closed
    case GiveUp(t) => At(s, t).Waiting?
  }

  function Do(s: State, a: Step): State
  {
    match a
    case Begin(t, key, chan) =>
      if key in s.table.fills then s.(callers := s.callers[t := Waiting(s.table.fills[key])])
      else s.(table := Begun(s.table, key, chan))
    case Release(chan) => s.(table := Released(s.table, chan))
    case Wake(t) => s.(callers := s.callers[t := Idle])
    case GiveUp(t) => s.(callers := s.callers[t := Idle])
  }

  /** A leadership that has not been released. */
  predicate Unreleased(table: Table, chan: nat)
  {
    chan in table.grants && chan !in table.fired
  }

  ghost predicate TableInv(table: Table)
  {
    && (forall k :: k in table.fills ==> Unreleased(table, table.fills[k]) && table.grants[table.fills[k]] == k)
    && (forall c :: Unreleased(table, c) ==> table.grants[c] in table.fills && table.fills[table.grants[c]] == c)
    && table.closed == table.fired
    && (forall c :: c in table.fired ==> c in table.grants)
  }

  ghost predicate Inv(s: State)
  {
    TableInv(s.table) && forall t :: At(s, t).Waiting? ==> At(s, t).chan in s.table.grants
  }

  lemma InvStep(s: State, a: Step)
    requires Inv(s) && Can(s, a)
    ensures Inv(Do(s, a))
  {
    var n := Do(s, a);
    forall t | At(n, t).Waiting?
      ensures At(n, t).chan in n.table.grants
    {
      assert At(s, t).Waiting? ==> At(s, t).chan in s.table.grants;
    }
  }

  ghost predicate Run(trace: seq<State>, steps: seq<Step>)
  {
    && |trace| == |steps| + 1
    && trace[0] == State(Table(map[], map[], {}, {}), map[])
    && forall i :: 0 <= i < |steps| ==> Next(trace, steps, i)
  }

  ghost predicate Next(trace: seq<State>, steps: seq<Step>, i: nat)
    requires i < |steps| && |trace| == |steps| + 1
  {
    Can(trace[i], steps[i]) && trace[i + 1] == Do(trace[i], steps[i])
  }

  lemma {:induction false} RunInv(trace: seq<State>, steps: seq<Step>, i: nat)
    requires Run(trace, steps) && i < |trace|
    ensures Inv(trace[i])
  {
    if i > 0 {
      RunInv(trace, steps, i - 1);
      assert Next(trace, steps, i - 1);
      InvStep(trace[i - 1], steps[i - 1]);
    }
  }

  /** At every moment of every run a key has at most one unreleased leader. */
  lemma OneLeaderPerKey(trace: seq<State>, steps: seq<Step>, i: nat, c: nat, d: nat)
    requires Run(trace, steps) && i < |trace|
    requires Unreleased(trace[i].table, c) && Unreleased(trace[i].table, d)
    requires trace[i].table.grants[c] == trace[i].table.grants[d]
    ensures c == d
  {
    RunInv(trace, steps, i);
  }

  /** Whoever begins a fill leads it under a fresh channel exactly when nobody else does, and otherwise
      waits for the unreleased leader of that very key. */
  lemma FollowerWaitsForItsKey(trace: seq<State>, steps: seq<Step>, i: nat)
    requires Run(trace, steps) && i < |steps| && |trace| == |steps| + 1 && steps[i].Begin?
    ensures var before, after, t, c := trace[i].table, trace[i + 1].table, steps[i].t, steps[i].chan;
      if exists d :: Unreleased(before, d) && before.grants[d] == steps[i].key
      then after == before && At(trace[i + 1], t).Waiting? && Unreleased(before, At(trace[i + 1], t).chan)
           && before.grants[At(trace[i + 1], t).chan] == steps[i].key
      else At(trace[i + 1], t).Idle? && !(c in before.grants) && Unreleased(after, c) && after.grants[c] == steps[i].key
  {
    RunInv(trace, steps, i);
    RunInv(trace, steps, i + 1);
    assert Next(trace, steps, i);
    var key := steps[i].key;
    if key in trace[i].table.fills {
      assert Unreleased(trace[i].table, trace[i].table.fills[key]);
    }
  }

  /** A follower returns without error only after its leader's release; and it is never stranded:
      its channel is closed or its leader has yet to release. */
  lemma FollowerWaitsForRelease(trace: seq<State>, steps: seq<Step>, i: nat, t: nat)
    requires Run(trace, steps) && i < |steps| && |trace| == |steps| + 1 && At(trace[i], t).Waiting?
    ensures steps[i] == Wake(t) ==> At(trace[i], t).chan in trace[i].table.fired
    ensures At(trace[i], t).chan in trace[i].table.closed || Unreleased(trace[i].table, At(trace[i], t).chan)
  {
    RunInv(trace, steps, i);
    assert Next(trace, steps, i);
  }

  /** The first release removes the leader's own registration and wakes its followers; a second
      one changes nothing; and no release ever removes another leader's registration. */
  lemma ReleaseIsExact(trace: seq<State>, steps: seq<Step>, i: nat, key: string)
    requires Run(trace, steps) && i < |steps| && |trace| == |steps| + 1 && steps[i].Release?
    ensures var c, before, after := steps[i].chan, trace[i].table, trace[i + 1].table;
      && (c in before.fired ==> after == before)
      && c in after.fired && c in after.closed
      && (key in after.fills <==> key in before.fills && before.fills[key] != c)
      && (key in after.fills ==> after.fills[key] == before.fills[key])
  {
    RunInv(trace, steps, i);
    assert Next(trace, steps, i);
  }

  /** The table as an object. */
  class FillTable {
    var fills: map<string, nat>
    var grants: map<nat, string>
    var fired: set<nat>
    var closed: set<nat>
    var nextChan: nat

    function Snapshot(): Table
      reads this
    {
      Table(fills, grants, fired, closed)
    }

    ghost predicate Valid()
      reads this
    {
      TableInv(Snapshot()) && forall c :: c in grants ==> c < nextChan
    }

    constructor ()
      ensures Valid() && Snapshot() == Table(map[], map[], {}, {})
    {
      fills, grants, fired, closed, nextChan := map[], map[], {}, {}, 0;
    }

    /** The critical section of BeginFill: leader with a fresh channel, or follower of `chan`. */
    method BeginFill(key: string) returns (leader: bool, chan: nat)
      requires Valid()
      modifies this
      ensures Valid() && leader == Leads(old(Snapshot()), key)
      ensures leader ==> chan !in old(grants) && Unreleased(Snapshot(), chan)
      ensures !leader ==> Unreleased(old(Snapshot()), chan) && old(grants)[chan] == key
      ensures Snapshot() == Begun(old(Snapshot()), key, chan)
    {
      if key in fills {
        return false, fills[key];
      }
      chan := nextChan;
      nextChan := nextChan + 1;
      fills := fills[key := chan];
      grants := grants[chan := key];
      leader := true;
      TableBegun(old(Snapshot()), key, chan);
    }

    /** The release function of one leadership. */
    method Release(chan: nat)
      requires Valid() && chan in grants
      modifies this
      ensures Valid() && Snapshot() == Released(old(Snapshot()), chan)
    {
      TableReleased(Snapshot(), chan);
      if chan in fired {
        return;
      }
      fired := fired + {chan};
      var key := grants[chan];
      if key in fills && fills[key] == chan {
        fills := fills - {key};
        closed := closed + {chan};
      }
    }
  }

  lemma TableBegun(table: Table, key: string, chan: nat)
    requires TableInv(table) && chan !in table.grants
    ensures TableInv(Begun(table, key, chan))
  {
  }

  lemma TableReleased(table: Table, chan: nat)
    requires TableInv(table)
    ensures TableInv(Released(table, chan))
  {
  }
}
