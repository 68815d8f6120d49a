/** The proxy as an object: the fields its goroutines share, and the stretches of code that change
    them.  Each method, left undisturbed, takes steps of module Shutdown; that module interleaves
    the steps. */
module ProxyObject {
  import opened Shutdown

  lemma RejectSteps(s: State, c: nat)
    requires s.accept == InHand(c) && MutexFree(s) && s.stopping
    ensures Run(s, [Register, RejectClose]) == s.(accept := Waiting, closed := s.closed + {c})
  {
    RunOne(s, Register);
    RunThen(s, [Register], RejectClose);
    assert [Register] + [RejectClose] == [Register, RejectClose];
    assert Next(s, Register) == s.(accept := Rejecting(c));
  }

  lemma AdmitSteps(s: State, c: nat)
    requires s.accept == InHand(c) && MutexFree(s) && !s.stopping
    ensures Run(s, [Register, WgAdd, Spawn])
         == s.(accept := Waiting, conns := s.conns + {c}, registered := s.registered + {c}, wg := s.wg + 1,
               handlers := s.handlers[c := Spawned])
  {
    var a := s.(accept := Registered(c), conns := s.conns + {c}, registered := s.registered + {c});
    var b := a.(accept := Counted(c), wg := s.wg + 1);
    Registers(s, c);
    AddsToGroup(a, c);
    Spawns(b, c);
    RunThree(s, Register, WgAdd, Spawn);
  }

  lemma Registers(s: State, c: nat)
    requires s.accept == InHand(c) && MutexFree(s) && !s.stopping
    ensures Next(s, Register) == s.(accept := Registered(c), conns := s.conns + {c}, registered := s.registered + {c})
  {
  }

  lemma AddsToGroup(s: State, c: nat)
    requires s.accept == Registered(c)
    ensures Next(s, WgAdd) == s.(accept := Counted(c), wg := s.wg + 1)
  {
  }

  lemma Spawns(s: State, c: nat)
    requires s.accept == Counted(c)
    ensures Next(s, Spawn) == s.(accept := Waiting, handlers := s.handlers[c := Spawned])
  {
  }

  lemma LeaveSteps(s: State, c: nat)
    requires c in s.handlers && s.handlers[c].SessionGone? && MutexFree(s)
    ensures Run(s, [CloseSocket(c), Unlist(c), HandlerDone(c)])
         == s.(handlers := s.handlers - {c}, closed := s.closed + {c}, conns := s.conns - {c}, wg := s.wg - 1)
  {
    var a := At(s, c, SocketClosed).(closed := s.closed + {c});
    var b := At(a, c, Unlisted).(conns := s.conns - {c});
    SocketCloses(s, c);
    Unlists(a, c);
    Ends(b, c);
    assert b.handlers - {c} == s.handlers - {c};
    RunThree(s, CloseSocket(c), Unlist(c), HandlerDone(c));
  }

  lemma SocketCloses(s: State, c: nat)
    requires c in s.handlers && s.handlers[c].SessionGone?
    ensures Next(s, CloseSocket(c)) == At(s, c, SocketClosed).(closed := s.closed + {c})
  {
  }

  lemma Unlists(s: State, c: nat)
    requires c in s.handlers && s.handlers[c].SocketClosed? && MutexFree(s)
    ensures Next(s, Unlist(c)) == At(s, c, Unlisted).(conns := s.conns - {c})
  {
  }

  lemma Ends(s: State, c: nat)
    requires c in s.handlers && s.handlers[c].Unlisted?
    ensures Next(s, HandlerDone(c)) == s.(handlers := s.handlers - {c}, wg := s.wg - 1)
  {
  }

  lemma RefuseSteps(s: State)
    requires s.stop.NotCalled?
    ensures Run(s, [SetStopping, Cancel, CloseListener])
         == s.(stop := ListenerClosed, stopping := true, cancelled := true, listening := false)
  {
    var a := s.(stop := Flagged, stopping := true);
    var b := a.(stop := Cancelled, cancelled := true);
    FlagSet(s);
    ContextCancelled(a);
    ListenerCloses(b);
    RunThree(s, SetStopping, Cancel, CloseListener);
  }

  lemma FlagSet(s: State)
    requires s.stop.NotCalled?
    ensures Next(s, SetStopping) == s.(stop := Flagged, stopping := true)
  {
  }

  lemma ContextCancelled(s: State)
    requires s.stop.Flagged?
    ensures Next(s, Cancel) == s.(stop := Cancelled, cancelled := true)
  {
  }

  lemma ListenerCloses(s: State)
    requires s.stop.Cancelled?
    ensures Next(s, CloseListener) == s.(stop := ListenerClosed, listening := false)
  {
  }

  /** The sweep with the connections of `left` still to close. */
  ghost function WithLeft(s: State, left: set<nat>): State {
    s.(stop := Sweeping(left), closed := s.closed + (s.conns - left))
  }

  lemma SweepOneMore(s: State, left: set<nat>, c: nat)
    requires c in left && left <= s.conns
    ensures Next(WithLeft(s, left), SweepOne(c)) == WithLeft(s, left - {c})
  {
  }

  lemma SweepStarts(s: State)
    requires s.stop.HttpDown?
    ensures Run(s, [SweepStart]) == WithLeft(s, s.conns)
  {
  }

  lemma SweepEnds(s: State)
    ensures Next(WithLeft(s, {}), SweepEnd) == s.(stop := Draining, closed := s.closed + s.conns)
  {
  }

  class Proxy {
    var listening: bool
    var cancelled: bool
    var stopping: bool
    var conns: set<nat>
    var wg: int
    /** the connections that were closed */
    var closed: set<nat>

    /** The fields are those of the state. */
    ghost predicate Shows(s: State)
      reads this
    {
      && listening == s.listening && cancelled == s.cancelled && stopping == s.stopping
      && conns == s.conns && wg == s.wg && closed == s.closed
    }

    /** Start: two goroutines are counted before they run. */
    constructor ()
      ensures forall init :: Shows(Started(init))
    {
      listening, cancelled, stopping := true, false, false;
      conns, wg, closed := {}, 2, {};
    }

    /** What the accept loop does with a connection: refused when stopping, else registered,
        counted and handed to its own goroutine. */
    method Admit(c: nat, ghost s: State) returns (admitted: bool, ghost script: seq<Event>)
      requires Shows(s) && s.accept == InHand(c) && MutexFree(s)
      modifies this`conns, this`wg, this`closed
      ensures Shows(Run(s, script)) && Run(s, script).accept == Waiting
      ensures forall e | e in script :: OfAcceptLoop(e)
      ensures admitted <==> !stopping
      ensures admitted ==> c in conns && c in Run(s, script).handlers && wg == old(wg) + 1 && closed == old(closed)
      ensures !admitted ==> c in closed && conns == old(conns) && wg == old(wg)
    {
      if stopping {
        closed := closed + {c};
        script := [Register, RejectClose];
        RejectSteps(s, c);
        return false, script;
      }
      conns := conns + {c};
      wg := wg + 1;
      script := [Register, WgAdd, Spawn];
      AdmitSteps(s, c);
      admitted := true;
    }

    /** The end of a connection goroutine, once its session is removed. */
    method Leave(c: nat, ghost s: State) returns (ghost script: seq<Event>)
      requires Shows(s) && c in s.handlers && s.handlers[c].SessionGone? && MutexFree(s)
      modifies this`conns, this`wg, this`closed
      ensures Shows(Run(s, script)) && Run(s, script).handlers == s.handlers - {c}
      ensures forall e | e in script :: OfHandler(e)
      ensures conns == old(conns) - {c} && wg == old(wg) - 1 && closed == old(closed) + {c}
    {
      closed := closed + {c};
      conns := conns - {c};
      wg := wg - 1;
      script := [CloseSocket(c), Unlist(c), HandlerDone(c)];
      LeaveSteps(s, c);
    }

    /** Stop, up to the closing of the listener. */
    method RefuseConnections(ghost s: State) returns (ghost script: seq<Event>)
      requires Shows(s) && s.stop.NotCalled?
      modifies this`listening, this`cancelled, this`stopping
      ensures Shows(Run(s, script)) && Run(s, script).stop == ListenerClosed
      ensures stopping && cancelled && !listening
    {
      stopping := true;
      cancelled := true;
      listening := false;
      script := [SetStopping, Cancel, CloseListener];
      RefuseSteps(s);
    }

    /** The sweep, under the mutex from its first step to its last: every listed connection is
        closed, none is taken off the list. */
    method Sweep(ghost s: State) returns (ghost script: seq<Event>)
      requires Shows(s) && s.stop.HttpDown?
      modifies this`closed
      ensures Shows(Run(s, script)) && Run(s, script).stop == Draining
      ensures closed == old(closed) + conns
      ensures forall e | e in script :: e == SweepStart || e == SweepEnd || (e.SweepOne? && e.c in conns)
    {
      var left := conns;
      script := [SweepStart];
      SweepStarts(s);
      while left != {}
        invariant left <= conns && closed == old(closed) + (conns - left)
        invariant Run(s, script) == WithLeft(s, left)
        invariant forall e | e in script :: e == SweepStart || (e.SweepOne? && e.c in conns)
        decreases left
      {
        var c :| c in left;
        closed := closed + {c};
        SweepOneMore(s, left, c);
        left := left - {c};
        RunThen(s, script, SweepOne(c));
        script := script + [SweepOne(c)];
      }
      RunThen(s, script, SweepEnd);
      SweepEnds(s);
      script := script + [SweepEnd];
    }
  }
}
