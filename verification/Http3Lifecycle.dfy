/** Two race-sensitive protocols of internal/app/http3.go, as step systems over any number of
    threads. One step is one critical section or one unguarded action. */
module Http3Bodies {

  /** A response body of the loopback proxy. `known`: the variable through which the cleanup finds
      the body has been assigned; a cancelled request can close the body before that. */
  datatype Body = Body(closed: bool, known: bool, cleanups: nat, closes: nat)

  datatype Pc =
    | Idle
    | Registering(body: nat) // holds the body's lock, has seen it open
    | Closing(body: nat)     // has marked it closed
    | Cleaned(body: nat)     // has run the cleanup

  datatype Sys = Sys(bodies: map<nat, Body>, active: set<nat>, pcs: map<nat, Pc>)

  datatype Step =
    | Create(b: nat)
    | Assign(b: nat)
    | BeginRegister(t: nat, b: nat)
    | FinishRegister(t: nat)
    | BeginClose(t: nat, b: nat) // Close, Cancel, the request's context or Shutdown
    | Cleanup(t: nat)
    | CloseUpstream(t: nat)

  function At(s: Sys, t: nat): Pc
  {
    if t in s.pcs then s.pcs[t] else Idle
  }

  ghost predicate Unlocked(s: Sys, b: nat)
  {
    forall t :: At(s, t) != Registering(b)
  }

  ghost predicate Can(s: Sys, a: Step)
  {
    match a
    case Create(b) => b !in s.bodies
    case Assign(b) => b in s.bodies
    case BeginRegister(t, b) => At(s, t).Idle? && b in s.bodies && s.bodies[b].known && Unlocked(s, b)
    case FinishRegister(t) => At(s, t).Registering?
    case BeginClose(t, b) => At(s, t).Idle? && b in s.bodies && Unlocked(s, b)
    case Cleanup(t) => At(s, t).Closing? && At(s, t).body in s.bodies
    case CloseUpstream(t) => At(s, t).Cleaned? && At(s, t).body in s.bodies
  }

  function Do(s: Sys, a: Step): Sys
    requires a.Assign? || a.BeginRegister? || a.BeginClose? ==> a.b in s.bodies
    requires a.Cleanup? ==> At(s, a.t).Closing? && At(s, a.t).body in s.bodies
    requires a.CloseUpstream? ==> At(s, a.t).Cleaned? && At(s, a.t).body in s.bodies
    requires a.FinishRegister? ==> At(s, a.t).Registering?
  {
    match a
    case Create(b) => s.(bodies := s.bodies[b := Body(false, false, 0, 0)])
    case Assign(b) => s.(bodies := s.bodies[b := s.bodies[b].(known := true)])
    case BeginRegister(t, b) => if s.bodies[b].closed then s else s.(pcs := s.pcs[t := Registering(b)])
    case FinishRegister(t) => s.(active := s.active + {At(s, t).body}, pcs := s.pcs[t := Idle])
    case BeginClose(t, b) =>
      if s.bodies[b].closed then s
      else s.(bodies := s.bodies[b := s.bodies[b].(closed := true)], pcs := s.pcs[t := Closing(b)])
    case Cleanup(t) =>
      var b := At(s, t).body;
      s.(bodies := s.bodies[b := s.bodies[b].(cleanups := s.bodies[b].cleanups + 1)],
         active := if s.bodies[b].known then s.active - {b} else s.active,
         pcs := s.pcs[t := Cleaned(b)])
    case CloseUpstream(t) =>
      var b := At(s, t).body;
      s.(bodies := s.bodies[b := s.bodies[b].(closes := s.bodies[b].closes + 1)], pcs := s.pcs[t := Idle])
  }

  predicate ClosesBody(p: Pc, b: nat)
  {
    p == Closing(b) || p == Cleaned(b)
  }

  /** How far the close of a body has come. */
  ghost predicate BodyInv(s: Sys, b: nat)
    requires b in s.bodies
  {
    var d := s.bodies[b];
    && d.cleanups <= 1 && d.closes <= d.cleanups
    && (!d.closed ==> d.cleanups == 0)
    && (d.closes == 1 || !d.closed ==> forall t :: !ClosesBody(At(s, t), b))
    && (b in s.active ==> d.known && d.cleanups == 0)
  }

  ghost predicate PcInv(s: Sys, t: nat)
  {
    var p := At(s, t);
    && (p.Registering? ==> p.body in s.bodies && s.bodies[p.body].known && !s.bodies[p.body].closed)
    && (p.Closing? ==> p.body in s.bodies && s.bodies[p.body].closed && s.bodies[p.body].cleanups == 0)
    && (p.Cleaned? ==>
        p.body in s.bodies && s.bodies[p.body].closed && s.bodies[p.body].cleanups == 1
        && s.bodies[p.body].closes == 0)
  }

  /** A body is closed by one thread. */
  ghost predicate OneCloser(s: Sys)
  {
    forall t, u, b :: ClosesBody(At(s, t), b) && ClosesBody(At(s, u), b) ==> t == u
  }

  ghost predicate Inv(s: Sys)
  {
    && (forall b :: b in s.bodies ==> BodyInv(s, b))
    && (forall t :: PcInv(s, t))
    && OneCloser(s)
    && s.active <= s.bodies.Keys
  }

  /** The thread that moves, and the body it works on. */
  function Mover(a: Step): nat
  {
    if a.Create? || a.Assign? then 0 else a.t
  }

  function Target(s: Sys, a: Step): nat
  {
    match a
    case Create(b) => b
    case Assign(b) => b
    case BeginRegister(t, b) => b
    case BeginClose(t, b) => b
    case FinishRegister(t) => if At(s, t).Registering? then At(s, t).body else 0
    case Cleanup(t) => if At(s, t).Closing? then At(s, t).body else 0
    case CloseUpstream(t) => if At(s, t).Cleaned? then At(s, t).body else 0
  }

  lemma InvStep(s: Sys, a: Step)
    requires Inv(s) && Can(s, a)
    ensures Inv(Do(s, a))
  {
    hide PcInv, BodyInv, OneCloser;
    var n := Do(s, a);
    forall t
      ensures PcInv(n, t)
    {
      PcStep(s, a, t);
    }
    forall b | b in n.bodies
      ensures BodyInv(n, b)
    {
      BodyStep(s, a, b);
    }
    CloserStep(s, a);
    ActiveStep(s, a);
  }

  lemma ActiveStep(s: Sys, a: Step)
    requires Inv(s) && Can(s, a)
    ensures Do(s, a).active <= Do(s, a).bodies.Keys
  {
    hide BodyInv, OneCloser;
    assert PcInv(s, Mover(a));
  }

  lemma PcStep(s: Sys, a: Step, t: nat)
    requires Inv(s) && Can(s, a)
    ensures PcInv(Do(s, a), t)
  {
    var v, d := Mover(a), Target(s, a);
    assert PcInv(s, v) && PcInv(s, t);
    assert d in s.bodies ==> BodyInv(s, d);
    if t != v && (a.Cleanup? || a.CloseUpstream?) {
      assert ClosesBody(At(s, v), d);
      assert !ClosesBody(At(s, t), d);
    }
  }

  lemma BodyStep(s: Sys, a: Step, b: nat)
    requires Inv(s) && Can(s, a) && b in Do(s, a).bodies
    ensures BodyInv(Do(s, a), b)
  {
    assert PcInv(s, Mover(a));
    assert b in s.bodies ==> BodyInv(s, b);
    NoOtherCloser(s, a, b);
  }

  lemma CloserStep(s: Sys, a: Step)
    requires Inv(s) && Can(s, a)
    ensures OneCloser(Do(s, a))
  {
    var n, v, d := Do(s, a), Mover(a), Target(s, a);
    assert PcInv(s, v);
    forall t, u, b | ClosesBody(At(n, t), b) && ClosesBody(At(n, u), b)
      ensures t == u
    {
      assert b in s.bodies ==> BodyInv(s, b);
      assert PcInv(s, t) && PcInv(s, u);
      assert t == v || ClosesBody(At(s, t), b);
      assert u == v || ClosesBody(At(s, u), b);
    }
  }

  lemma NoOtherCloser(s: Sys, a: Step, b: nat)
    requires Inv(s) && Can(s, a) && b in Do(s, a).bodies
    ensures var n := Do(s, a);
      n.bodies[b].closes == 1 || !n.bodies[b].closed ==> forall t :: !ClosesBody(At(n, t), b)
  {
    var n, v := Do(s, a), Mover(a);
    assert b in s.bodies ==> BodyInv(s, b);
    assert PcInv(s, v);
    if n.bodies[b].closes == 1 || !n.bodies[b].closed {
      forall t
        ensures !ClosesBody(At(n, t), b)
      {
        assert PcInv(s, t);
        assert a.CloseUpstream? && b == Target(s, a) ==> ClosesBody(At(s, v), b);
        assert t == v || At(n, t) == At(s, t);
      }
    }
  }

  ghost predicate Run(trace: seq<Sys>, steps: seq<Step>)
  {
    && |trace| == |steps| + 1 && trace[0] == Sys(map[], {}, map[])
    && forall i :: 0 <= i < |steps| ==> Next(trace, steps, i)
  }

  ghost predicate Next(trace: seq<Sys>, steps: seq<Step>, i: nat)
    requires i < |steps| && |trace| == |steps| + 1
  {
    Can(trace[i], steps[i]) && trace[i + 1] == Do(trace[i], steps[i])
  }

  lemma {:induction false} RunInv(trace: seq<Sys>, steps: seq<Step>, i: nat)
    requires Run(trace, steps) && i < |trace|
    ensures Inv(trace[i])
  {
    hide Inv;
    if i == 0 {
      StartInv();
    } else {
      RunInv(trace, steps, i - 1);
      assert Next(trace, steps, i - 1);
      InvStep(trace[i - 1], steps[i - 1]);
    }
  }

  lemma StartInv()
    ensures Inv(Sys(map[], {}, map[]))
  {
  }

  /** Whatever the interleaving, a body is cleaned up and its upstream closed at most once, and once
      its upstream has been closed it is not registered, then or ever after. */
  lemma {:induction false} ClosedBodyStaysOut(trace: seq<Sys>, steps: seq<Step>, i: nat, j: nat, b: nat)
    requires Run(trace, steps) && i <= j < |trace| && b in trace[i].bodies
    ensures b in trace[j].bodies && trace[j].bodies[b].cleanups <= 1 && trace[j].bodies[b].closes <= 1
    ensures trace[i].bodies[b].closes == 1 ==> trace[j].bodies[b].closes == 1 && b !in trace[j].active
  {
    RunInv(trace, steps, j);
    if i < j {
      ClosedBodyStaysOut(trace, steps, i, j - 1, b);
      RunInv(trace, steps, j - 1);
      assert Next(trace, steps, j - 1);
      assert BodyInv(trace[j - 1], b);
    }
    assert BodyInv(trace[j], b);
  }

  // ---------------------------------------------------------------------------------------
  // Who is registered
  // ---------------------------------------------------------------------------------------

  /** Step i puts body b into the set. */
  ghost predicate Registers(trace: seq<Sys>, steps: seq<Step>, i: nat, b: nat)
    requires |trace| == |steps| + 1
  {
    i < |steps| && steps[i].FinishRegister? && At(trace[i], steps[i].t) == Registering(b)
  }

  /** Step i runs the cleanup of body b. */
  ghost predicate CleansUp(trace: seq<Sys>, steps: seq<Step>, i: nat, b: nat)
    requires |trace| == |steps| + 1
  {
    i < |steps| && steps[i].Cleanup? && At(trace[i], steps[i].t) == Closing(b)
  }

  /** A registration completed before moment j, and no cleanup of the body since. */
  ghost predicate RegisteredSince(trace: seq<Sys>, steps: seq<Step>, i: nat, j: nat, b: nat)
    requires |trace| == |steps| + 1
  {
    i < j && Registers(trace, steps, i, b) && forall m :: i < m < j ==> !CleansUp(trace, steps, m, b)
  }

  /** What one step does to the membership of one body. */
  lemma ActiveMoves(trace: seq<Sys>, steps: seq<Step>, i: nat, b: nat)
    requires Run(trace, steps) && |trace| == |steps| + 1 && i < |steps|
    ensures Registers(trace, steps, i, b) ==> b in trace[i + 1].active
    ensures CleansUp(trace, steps, i, b) ==> b !in trace[i + 1].active
    ensures !Registers(trace, steps, i, b) && !CleansUp(trace, steps, i, b) ==>
              (b in trace[i + 1].active <==> b in trace[i].active)
  {
    RunInv(trace, steps, i);
    assert Next(trace, steps, i);
    assert PcInv(trace[i], Mover(steps[i]));
    assert b in trace[i].bodies ==> BodyInv(trace[i], b);
  }

  lemma CleanedUp(trace: seq<Sys>, steps: seq<Step>, i: nat, h: nat, b: nat)
    requires |trace| == |steps| + 1 && CleansUp(trace, steps, h, b)
    ensures !RegisteredSince(trace, steps, i, h + 1, b)
  {
  }

  /** At every moment of every run, whatever the interleaving, a body is registered exactly when some
      registration of it has completed and no cleanup of it has run since. */
  lemma {:induction false} RegisteredIff(trace: seq<Sys>, steps: seq<Step>, j: nat, b: nat)
    requires Run(trace, steps) && |trace| == |steps| + 1 && j < |trace|
    ensures b in trace[j].active <==> exists i :: RegisteredSince(trace, steps, i, j, b)
  {
    hide Can, Do, Registers, CleansUp;
    if j > 0 {
      var h: nat := j - 1;
      RegisteredIff(trace, steps, h, b);
      ActiveMoves(trace, steps, h, b);
      if Registers(trace, steps, h, b) {
        assert RegisteredSince(trace, steps, h, j, b);
      } else if CleansUp(trace, steps, h, b) {
        forall i: nat
          ensures !RegisteredSince(trace, steps, i, j, b)
        {
          CleanedUp(trace, steps, i, h, b);
        }
      } else {
        if i: nat :| RegisteredSince(trace, steps, i, j, b) {
          assert RegisteredSince(trace, steps, i, h, b);
        }
        if i: nat :| RegisteredSince(trace, steps, i, h, b) {
          assert RegisteredSince(trace, steps, i, j, b);
        }
      }
    }
  }

  /** A registration goes through unless the body is already closed. */
  lemma RegistrationCompletes(trace: seq<Sys>, steps: seq<Step>, i: nat)
    requires Run(trace, steps) && |trace| == |steps| + 1 && i < |steps| && steps[i].BeginRegister?
    ensures steps[i].b in trace[i].bodies
    ensures At(trace[i + 1], steps[i].t) ==
            if trace[i].bodies[steps[i].b].closed then Idle else Registering(steps[i].b)
  {
    assert Next(trace, steps, i);
  }

  /** A cleanup counts once for its body, and so does closing its upstream after it. */
  lemma CloseCompletes(trace: seq<Sys>, steps: seq<Step>, i: nat)
    requires Run(trace, steps) && |trace| == |steps| + 1 && i < |steps|
    ensures At(trace[i], Mover(steps[i])).Closing? || !steps[i].Cleanup?
    ensures At(trace[i], Mover(steps[i])).Cleaned? || !steps[i].CloseUpstream?
    ensures steps[i].Cleanup? ==>
      var b := At(trace[i], steps[i].t).body;
      b in trace[i + 1].bodies && trace[i + 1].bodies[b].cleanups == 1 && At(trace[i + 1], steps[i].t) == Cleaned(b)
    ensures steps[i].CloseUpstream? ==>
      var b := At(trace[i], steps[i].t).body;
      b in trace[i + 1].bodies && trace[i + 1].bodies[b].cleanups == 1 && trace[i + 1].bodies[b].closes == 1
  {
    RunInv(trace, steps, i);
    assert Next(trace, steps, i);
    assert PcInv(trace[i], Mover(steps[i]));
  }

  /** The first close of a body is the one that cleans up; any later one does nothing. */
  lemma FirstCloseCleansUp(trace: seq<Sys>, steps: seq<Step>, i: nat)
    requires Run(trace, steps) && |trace| == |steps| + 1 && i < |steps| && steps[i].BeginClose?
    ensures steps[i].b in trace[i].bodies && steps[i].b in trace[i + 1].bodies && trace[i + 1].bodies[steps[i].b].closed
    ensures if trace[i].bodies[steps[i].b].closed then trace[i + 1] == trace[i]
            else At(trace[i + 1], steps[i].t) == Closing(steps[i].b)
  {
    assert Next(trace, steps, i);
  }
}

module Http3Listener {
  import opened Common

  /** Where the one call of Spin is. `Setting` holds the listener lock, having seen the server not
      stopped. */
  datatype Spin =
    | NotStarted | Started | Binding | Bound(sock: nat) | Setting(sock: nat) | Rejected(sock: nat)
    | Serving(sock: nat) | Clearing(sock: nat) | Releasing(sock: nat) | Finishing | Returned

  /** Where a call of Shutdown is. The first one runs the once-body, the others wait for it. */
  datatype Shut =
    | Outside | Entering | Stopping | Draining | Taking | Shutting(conn: Option<nat>) | Waiting | Left(waited: bool)

  /** `bodyDone`: the once-body has finished. */
  datatype Sys = Sys(stopped: bool, packetConn: Option<nat>, open: set<nat>, made: set<nat>,
                     spin: Spin, spinStarted: bool, spinDone: bool,
                     onceTaken: bool, bodyDone: bool, shuts: map<nat, Shut>)

  datatype Step =
    | SpinStart | SpinCheck | SpinBind(sock: nat) | SpinBindFails | SpinLock | SpinSet | SpinReject
    | SpinServeEnds | SpinClear | SpinRelease | SpinFinish
    | ShutBegin(t: nat) | ShutEnter(t: nat) | ShutStop(t: nat) | ShutDrain(t: nat) | ShutTake(t: nat)
    | ShutCloseConn(t: nat) | ShutLook(t: nat) | ShutSpinDone(t: nat) | ShutExpire(t: nat)

  function At(s: Sys, t: nat): Shut
  {
    if t in s.shuts then s.shuts[t] else Outside
  }

  function To(s: Sys, t: nat, p: Shut): Sys
  {
    s.(shuts := s.shuts[t := p])
  }

  predicate LockFree(s: Sys)
  {
    !s.spin.Setting?
  }

  predicate Can(s: Sys, a: Step)
  {
    match a
    case SpinStart => s.spin.NotStarted? && LockFree(s)
    case SpinCheck => s.spin.Started?
    case SpinBind(sock) => s.spin.Binding? && sock !in s.made
    case SpinBindFails => s.spin.Binding?
    case SpinLock => s.spin.Bound?
    case SpinSet => s.spin.Setting?
    case SpinReject => s.spin.Rejected?
    case SpinServeEnds => s.spin.Serving?
    case SpinClear => s.spin.Clearing?
    case SpinRelease => s.spin.Releasing?
    case SpinFinish => s.spin.Finishing?
    case ShutBegin(t) => At(s, t).Outside?
    case ShutEnter(t) => At(s, t).Entering? && (!s.onceTaken || s.bodyDone)
    case ShutStop(t) => At(s, t).Stopping?
    case ShutDrain(t) => At(s, t).Draining?
    case ShutTake(t) => At(s, t).Taking? && LockFree(s)
    case ShutCloseConn(t) => At(s, t).Shutting?
    case ShutLook(t) => At(s, t).Waiting? && !s.spinStarted && LockFree(s)
    case ShutSpinDone(t) => At(s, t).Waiting? && s.spinStarted && s.spinDone && LockFree(s)
    case ShutExpire(t) => At(s, t).Waiting? && s.spinStarted
  }

  function Do(s: Sys, a: Step): Sys
    requires Can(s, a)
  {
    match a
    case SpinStart => s.(spin := Started, spinStarted := true)
    case SpinCheck => s.(spin := if s.stopped then Finishing else Binding)
    case SpinBind(sock) => s.(spin := Bound(sock), open := s.open + {sock}, made := s.made + {sock})
    case SpinBindFails => s.(spin := Finishing)
    case SpinLock => s.(spin := if s.stopped then Rejected(s.spin.sock) else Setting(s.spin.sock))
    case SpinSet => s.(spin := Serving(s.spin.sock), packetConn := Some(s.spin.sock))
    case SpinReject => s.(spin := Finishing, open := s.open - {s.spin.sock})
    case SpinServeEnds => s.(spin := Clearing(s.spin.sock))
    case SpinClear =>
      s.(spin := Releasing(s.spin.sock), packetConn := if s.packetConn == Some(s.spin.sock) then None else s.packetConn)
    case SpinRelease => s.(spin := Finishing, open := s.open - {s.spin.sock})
    case SpinFinish => s.(spin := Returned, spinDone := true)
    case ShutBegin(t) => To(s, t, Entering)
    case ShutEnter(t) => if s.onceTaken then To(s, t, Waiting) else To(s, t, Stopping).(onceTaken := true)
    case ShutStop(t) => To(s, t, Draining).(stopped := true)
    case ShutDrain(t) => To(s, t, Taking)
    case ShutTake(t) => To(s, t, Shutting(s.packetConn)).(packetConn := None)
    case ShutCloseConn(t) =>
      var conn := At(s, t).conn;
      To(s, t, Waiting).(bodyDone := true, open := if conn.Some? then s.open - {conn.value} else s.open)
    case ShutLook(t) => To(s, t, Left(true))
    case ShutSpinDone(t) => To(s, t, Left(true))
    case ShutExpire(t) => To(s, t, Left(false))
  }

  predicate InBody(p: Shut)
  {
    p.Stopping? || p.Draining? || p.Taking? || p.Shutting?
  }

  predicate OwnsSocket(p: Spin)
  {
    p.Bound? || p.Setting? || p.Rejected? || p.Serving? || p.Clearing? || p.Releasing?
  }

  /** The once-body has one runner, and is over when nobody is in it. */
  ghost predicate OnceInv(s: Sys)
  {
    && (forall t, u :: InBody(At(s, t)) && InBody(At(s, u)) ==> t == u)
    && (forall t :: InBody(At(s, t)) ==> s.onceTaken && !s.bodyDone)
    && (s.bodyDone ==> s.onceTaken && s.stopped)
    && (forall t :: At(s, t).Draining? || At(s, t).Taking? || At(s, t).Shutting? ==> s.stopped)
    && (forall t :: At(s, t).Waiting? || At(s, t).Left? ==> s.bodyDone)
  }

  /** The connection has been taken away. */
  ghost predicate Taken(s: Sys)
  {
    s.bodyDone || exists t :: At(s, t).Shutting?
  }

  /** No connection once it has been taken, and none can come back. */
  ghost predicate ConnectionInv(s: Sys)
  {
    Taken(s) ==> s.packetConn.None? && !s.spin.Setting?
  }

  /** An open socket is the running Spin's. */
  ghost predicate SocketInv(s: Sys)
  {
    && (forall k :: k in s.open ==> OwnsSocket(s.spin) && s.spin.sock == k)
    && (s.spin.NotStarted? <==> !s.spinStarted)
    && (s.spinDone <==> s.spin.Returned?)
  }

  ghost predicate Waited(s: Sys)
  {
    exists t :: At(s, t) == Left(true)
  }

  /** A Shutdown that waited is followed by no socket. */
  ghost predicate WaitedInv(s: Sys)
  {
    Waited(s) ==> s.stopped && (s.spin.NotStarted? || s.spin.Started? || s.spin.Finishing? || s.spin.Returned?)
  }

  ghost predicate Inv(s: Sys)
  {
    OnceInv(s) && ConnectionInv(s) && SocketInv(s) && WaitedInv(s)
  }

  /** Where a Shutdown may come from. */
  lemma BodyEntered(s: Sys, a: Step, t: nat)
    requires Can(s, a)
    ensures InBody(At(Do(s, a), t)) ==> InBody(At(s, t)) || (a == ShutEnter(t) && !s.onceTaken)
  {
  }

  lemma StopPassed(s: Sys, a: Step, t: nat)
    requires Can(s, a)
    ensures var p, q := At(s, t), At(Do(s, a), t);
      q.Draining? || q.Taking? || q.Shutting? ==> p.Draining? || p.Taking? || p.Shutting? || a == ShutStop(t)
  {
  }

  lemma BodyLeft(s: Sys, a: Step, t: nat)
    requires Can(s, a)
    ensures var p, q := At(s, t), At(Do(s, a), t);
      q.Waiting? || q.Left? ==>
        p.Waiting? || p.Left? || (a == ShutEnter(t) && s.onceTaken) || a == ShutCloseConn(t)
  {
  }

  lemma StoppedMoves(s: Sys, a: Step)
    requires Can(s, a)
    ensures Do(s, a).stopped == (s.stopped || a.ShutStop?)
  {
    hide At, Can;
  }

  lemma OnceMoves(s: Sys, a: Step)
    requires Can(s, a)
    ensures Do(s, a).onceTaken == (s.onceTaken || a.ShutEnter?)
  {
    hide At, Can;
  }

  lemma DoneMoves(s: Sys, a: Step)
    requires Can(s, a)
    ensures Do(s, a).bodyDone == (s.bodyDone || a.ShutCloseConn?)
  {
    hide At, Can;
  }

  lemma BodyMoves(s: Sys, a: Step)
    requires Can(s, a)
    ensures a.ShutCloseConn? ==> At(s, a.t).Shutting? && At(Do(s, a), a.t).Waiting?
    ensures a.ShutEnter? ==> !s.onceTaken || s.bodyDone
    ensures a.ShutStop? ==> InBody(At(s, a.t))
  {
  }

  lemma OnceStep(s: Sys, a: Step)
    requires OnceInv(s) && Can(s, a)
    ensures OnceInv(Do(s, a))
  {
    hide Do, Can;
    var n := Do(s, a);
    StoppedMoves(s, a);
    OnceMoves(s, a);
    DoneMoves(s, a);
    BodyMoves(s, a);
    forall t
      ensures InBody(At(n, t)) ==> InBody(At(s, t)) || (a == ShutEnter(t) && !s.onceTaken)
      ensures At(n, t).Draining? || At(n, t).Taking? || At(n, t).Shutting? ==> n.stopped
      ensures At(n, t).Waiting? || At(n, t).Left? ==> n.bodyDone
    {
      BodyEntered(s, a, t);
      StopPassed(s, a, t);
      BodyLeft(s, a, t);
    }
    if a.ShutCloseConn? {
      assert InBody(At(s, a.t)) && !InBody(At(n, a.t));
    }
  }

  lemma ConnectionStep(s: Sys, a: Step)
    requires OnceInv(s) && ConnectionInv(s) && Can(s, a)
    ensures ConnectionInv(Do(s, a))
  {
    var n := Do(s, a);
    if Taken(n) {
      assert Taken(s) || a.ShutTake? by {
        if a.ShutCloseConn? {
          assert At(s, a.t).Shutting?;
        }
        if t :| At(n, t).Shutting? {
          assert At(s, t).Shutting? || a == ShutTake(t);
        }
      }
      assert Taken(s) ==> s.stopped;
    }
  }

  lemma SocketStep(s: Sys, a: Step)
    requires SocketInv(s) && Can(s, a)
    ensures SocketInv(Do(s, a))
  {
  }

  lemma WaitedStep(s: Sys, a: Step)
    requires OnceInv(s) && SocketInv(s) && WaitedInv(s) && Can(s, a)
    ensures WaitedInv(Do(s, a))
  {
    var n := Do(s, a);
    if t :| At(n, t) == Left(true) {
      assert At(s, t) == Left(true) || a == ShutLook(t) || a == ShutSpinDone(t);
      assert s.stopped;
    }
  }

  lemma InvStep(s: Sys, a: Step)
    requires Inv(s) && Can(s, a)
    ensures Inv(Do(s, a))
  {
    OnceStep(s, a);
    ConnectionStep(s, a);
    SocketStep(s, a);
    WaitedStep(s, a);
  }

  ghost predicate Run(trace: seq<Sys>, steps: seq<Step>)
  {
    && |trace| == |steps| + 1
    && trace[0] == Sys(false, None, {}, {}, NotStarted, false, false, false, false, map[])
    && forall i :: 0 <= i < |steps| ==> Next(trace, steps, i)
  }

  ghost predicate Next(trace: seq<Sys>, steps: seq<Step>, i: nat)
    requires i < |steps| && |trace| == |steps| + 1
  {
    Can(trace[i], steps[i]) && trace[i + 1] == Do(trace[i], steps[i])
  }

  lemma {:induction false} RunInv(trace: seq<Sys>, steps: seq<Step>, i: nat)
    requires Run(trace, steps) && i < |trace|
    ensures Inv(trace[i])
  {
    if i > 0 {
      hide Inv;
      RunInv(trace, steps, i - 1);
      assert Next(trace, steps, i - 1);
      InvStep(trace[i - 1], steps[i - 1]);
    }
  }

  lemma {:induction false} BodyStaysDone(trace: seq<Sys>, steps: seq<Step>, i: nat, j: nat)
    requires Run(trace, steps) && i <= j < |trace|
    ensures trace[i].bodyDone ==> trace[j].bodyDone
    ensures forall t :: At(trace[i], t) == Left(true) ==> At(trace[j], t) == Left(true)
    ensures trace[i].spin.Returned? ==> trace[j].spin.Returned?
  {
    hide Can, Do;
    if i < j {
      BodyStaysDone(trace, steps, i, j - 1);
      assert Next(trace, steps, j - 1);
      StepStaysDone(trace[j - 1], steps[j - 1]);
      StepKeepsLeft(trace[j - 1], steps[j - 1]);
    }
  }

  lemma StepStaysDone(s: Sys, a: Step)
    requires Can(s, a)
    ensures s.bodyDone ==> Do(s, a).bodyDone
    ensures s.spin.Returned? ==> Do(s, a).spin.Returned?
  {
  }

  lemma StepKeepsLeft(s: Sys, a: Step)
    requires Can(s, a)
    ensures forall t :: At(s, t) == Left(true) ==> At(Do(s, a), t) == Left(true)
  {
  }

  /** Once the body of the first Shutdown has finished, no connection is set, then or ever after,
      however Spin races with it. */
  lemma NoConnectionAfterShutdown(trace: seq<Sys>, steps: seq<Step>, i: nat, j: nat)
    requires Run(trace, steps) && i <= j < |trace| && trace[i].bodyDone
    ensures trace[j].packetConn == None
  {
    BodyStaysDone(trace, steps, i, j);
    RunInv(trace, steps, j);
  }

  /** Every socket that Spin opened is closed when it has returned, and stays closed. */
  lemma SpinLeavesNoSocket(trace: seq<Sys>, steps: seq<Step>, i: nat, j: nat)
    requires Run(trace, steps) && i <= j < |trace| && trace[i].spin.Returned?
    ensures trace[j].open == {}
  {
    BodyStaysDone(trace, steps, i, j);
    RunInv(trace, steps, j);
  }

  /** After a Shutdown call that returned without its context expiring, no socket is open, then or
      ever after, even if Spin is only started later. */
  lemma ShutdownLeavesNoSocket(trace: seq<Sys>, steps: seq<Step>, i: nat, j: nat, t: nat)
    requires Run(trace, steps) && i <= j < |trace| && At(trace[i], t) == Left(true)
    ensures trace[j].open == {}
  {
    BodyStaysDone(trace, steps, i, j);
    RunInv(trace, steps, j);
    assert At(trace[j], t) == Left(true);
  }

  // ---------------------------------------------------------------------------------------
  // The connection while it is served
  // ---------------------------------------------------------------------------------------

  predicate BeforeServing(p: Spin)
  {
    p.NotStarted? || p.Started? || p.Binding? || p.Bound? || p.Setting? || p.Rejected?
  }

  predicate HasConnection(p: Spin)
  {
    p.Serving? || p.Clearing?
  }

  /** Every Shutdown that is about to close holds this connection. */
  ghost predicate AllHold(s: Sys, conn: Option<nat>)
  {
    forall t :: At(s, t).Shutting? ==> At(s, t).conn == conn
  }

  /** The connection of a serving Spin is set and open until Shutdown takes it; then Shutdown holds it,
      still open; and when the body of Shutdown is done it is closed. */
  ghost predicate ServeInv(s: Sys)
  {
    && (s.packetConn.Some? ==> HasConnection(s.spin) && s.packetConn == Some(s.spin.sock))
    && (BeforeServing(s.spin) ==> AllHold(s, None))
    && (s.spin.Bound? || s.spin.Setting? || s.spin.Rejected? ==> s.spin.sock in s.open)
    && (HasConnection(s.spin) ==> AllHold(s, Some(s.spin.sock)) && (s.spin.sock in s.open <==> !s.bodyDone))
    && (HasConnection(s.spin) && !Taken(s) ==> s.packetConn == Some(s.spin.sock))
  }

  lemma ServeStep(s: Sys, a: Step)
    requires Inv(s) && ServeInv(s) && Can(s, a)
    ensures ServeInv(Do(s, a))
  {
    hide SocketInv, WaitedInv;
    var n := Do(s, a);
    if a.ShutTake? {
      assert At(n, a.t).Shutting? && InBody(At(s, a.t));
      assert forall t :: t != a.t ==> At(n, t) == At(s, t);
      assert forall t :: At(s, t).Shutting? ==> InBody(At(s, t));
    } else if a.ShutCloseConn? {
      assert InBody(At(s, a.t)) && At(s, a.t).Shutting?;
      assert forall t :: t != a.t ==> At(n, t) == At(s, t);
      assert forall t :: At(s, t).Shutting? ==> InBody(At(s, t));
    } else {
      assert forall t :: At(n, t).Shutting? <==> At(s, t).Shutting?;
      assert forall t :: At(n, t).Shutting? ==> At(n, t) == At(s, t);
    }
  }

  /** In every state of every run: before the body of Shutdown takes it, the connection of a serving
      Spin is the one that is set, and its socket is open; when the body is done it is closed. */
  lemma {:induction false} ServedConnection(trace: seq<Sys>, steps: seq<Step>, i: nat)
    requires Run(trace, steps) && i < |trace|
    ensures ServeInv(trace[i])
  {
    hide Inv, ServeInv, Can, Do;
    if i == 0 {
      NothingServed();
    } else {
      ServedConnection(trace, steps, i - 1);
      RunInv(trace, steps, i - 1);
      assert Next(trace, steps, i - 1);
      ServeStep(trace[i - 1], steps[i - 1]);
    }
  }

  lemma NothingServed()
    ensures ServeInv(Sys(false, None, {}, {}, NotStarted, false, false, false, false, map[]))
  {
  }
}
