/** What every interleaving of accepting, serving and stopping guarantees. */
module ShutdownProperties {
  import opened Options
  import opened Shutdown
  import T = Transactions
  import SP = SessionProperties

  // ---------------------------------------------------------------------------------------
  // The wait group
  // ---------------------------------------------------------------------------------------

  /** In every reachable state the wait group counts the live accept loop, the management
      goroutine and the goroutines between Add and Done, and the mutex-guarded set holds the
      connections between registration and removal, whatever session ids were drawn. */
  lemma WaitGroupCounts(init: map<string, T.Contents>, es: seq<Event>)
    ensures var s := Run(Started(init), es); Counts(s) && s.wg >= 0 && ConnectionsOk(s)
  {
    StartedOk(init);
    ConnRunKeeps(Started(init), es);
  }

  /** With unused ids the registered sessions are those of the running goroutines, one each. */
  lemma SessionsOfGoroutines(init: map<string, T.Contents>, es: seq<Event>)
    requires AllFresh(Started(init), es)
    ensures var s := Run(Started(init), es);
            s.world.sessions.Keys == Owned(s.handlers) && Distinct(s.handlers) && T.Inv(s.world, init)
  {
    StartedOk(init);
    RunKeeps(Started(init), init, es);
  }

  lemma OnlyAcceptAdds(s: State, e: Event)
    ensures Next(s, e).wg > s.wg ==> e.WgAdd? && s.accept.Registered?
  {
    if OfHandler(e) {
      HandlerShape(s, e);
    }
  }

  /** The wait group is never incremented from zero. */
  lemma AddWhilePositive(init: map<string, T.Contents>, es: seq<Event>, e: Event)
    ensures var s := Run(Started(init), es); Next(s, e).wg > s.wg ==> e.WgAdd? && s.wg > 0
  {
    StartedOk(init);
    ConnRunKeeps(Started(init), es);
    OnlyAcceptAdds(Run(Started(init), es), e);
  }

  /** Once zero it stays zero, and nothing it guards comes back. */
  lemma ZeroForGood(s: State, e: Event)
    requires ConnInv(s) && s.wg == 0
    ensures var v := Next(s, e); v.wg == 0 && v.handlers == map[] && v.conns == {} && v.world == s.world
  {
    NoneLive(s);
    StillZero(s, e);
  }

  lemma StillZero(s: State, e: Event)
    requires s.accept.Gone? && s.http.HttpGone? && s.handlers == map[] && s.conns == {} && s.wg == 0
    ensures var v := Next(s, e); v.wg == 0 && v.handlers == map[] && v.conns == {} && v.world == s.world
  {
    if OfAcceptLoop(e) {
      GoneStays(s, e);
    } else if !OfHttp(e) && !OfHandler(e) {
      StopRegistersNothing(s, e);
    }
  }

  lemma GoneStays(s: State, e: Event)
    requires s.accept.Gone?
    ensures AcceptStep(s, e) == s
  {
  }

  lemma NoneLive(s: State)
    requires ConnInv(s) && s.wg == 0
    ensures s.accept.Gone? && s.http.HttpGone? && s.handlers == map[] && s.conns == {}
  {
  }

  /** When the wait group is zero no connection is listed, no session is registered, every
      session's connection is back in its tenant's pool and no transaction holds a lock. */
  lemma ZeroMeansReleased(s: State, init: map<string, T.Contents>)
    requires Inv(s, init) && s.wg == 0
    ensures s.conns == {} && s.world.sessions == map[]
    ensures forall name | name in s.world.tenants ::
              s.world.tenants[name].inUse == 0 && s.world.tenants[name].writer.None?
  {
  }

  /** Unless the drain timed out, the store closes only after all of that. */
  lemma StoreClosesLast(init: map<string, T.Contents>, es: seq<Event>)
    requires AllFresh(Started(init), es) && Run(Started(init), es).stop == StoreClosed(false)
    ensures var s := Run(Started(init), es);
            && s.conns == {} && s.world.sessions == map[] && s.accepted <= s.closed
            && forall name | name in s.world.tenants ::
                 s.world.tenants[name].inUse == 0 && s.world.tenants[name].writer.None?
  {
    StartedOk(init);
    RunKeeps(Started(init), init, es);
    ZeroMeansReleased(Run(Started(init), es), init);
    NoneLive(Run(Started(init), es));
  }

  /** One more step of a run; it draws fresh ids if run and step do. */
  lemma {:induction false} FreshThen(s: State, es: seq<Event>, e: Event)
    ensures Run(s, es + [e]) == Next(Run(s, es), e)
    ensures AllFresh(s, es) && Fresh(Run(s, es), e) ==> AllFresh(s, es + [e])
    decreases |es|
  {
    var all := es + [e];
    if es == [] {
      assert all[1..] == [];
    } else {
      assert all[1..] == es[1..] + [e];
      FreshThen(Next(s, es[0]), es[1..], e);
    }
  }

  /** The sweep from where it stands. */
  lemma {:induction false} SweepOn(s: State, es: seq<Event>) returns (all: seq<Event>)
    requires Run(s, es).stop.Sweeping?
    ensures (AllFresh(s, es) ==> AllFresh(s, all)) && Run(s, all).stop.Draining? && SameGoroutines(Run(s, es), Run(s, all))
    decreases Run(s, es).stop.left
  {
    var left := Run(s, es).stop.left;
    if left == {} {
      FreshThen(s, es, SweepEnd);
      all := es + [SweepEnd];
    } else {
      var c :| c in left;
      FreshThen(s, es, SweepOne(c));
      all := SweepOn(s, es + [SweepOne(c)]);
    }
  }

  /** Only Stop has moved: no goroutine has, and neither sessions nor connections are given up. */
  ghost predicate SameGoroutines(s: State, v: State) {
    v.accept == s.accept && v.handlers == s.handlers && v.http == s.http && v.wg == s.wg && v.world == s.world
  }

  /** With the timeout branch Stop does not wait: whatever has run before it, it can go on alone
      until the store is closed, with every session, pooled connection and goroutine still there. */
  lemma TimeoutClosesEarly(init: map<string, T.Contents>, es: seq<Event>) returns (all: seq<Event>)
    requires Run(Started(init), es).stop.NotCalled?
    ensures AllFresh(Started(init), es) ==> AllFresh(Started(init), all)
    ensures Run(Started(init), all).stop == StoreClosed(true) && SameGoroutines(Run(Started(init), es), Run(Started(init), all))
  {
    all := RefusingOn(Started(init), es);
    all := SweepOn(Started(init), all);
    all := CloseOn(Started(init), all);
  }

  lemma RefusingOn(s: State, es: seq<Event>) returns (all: seq<Event>)
    requires Run(s, es).stop.NotCalled?
    ensures (AllFresh(s, es) ==> AllFresh(s, all)) && Run(s, all).stop.Sweeping? && SameGoroutines(Run(s, es), Run(s, all))
  {
    all := es;
    FreshThen(s, all, SetStopping);
    all := all + [SetStopping];
    FreshThen(s, all, Cancel);
    all := all + [Cancel];
    all := StoppingOn(s, all);
  }

  lemma StoppingOn(s: State, es: seq<Event>) returns (all: seq<Event>)
    requires Run(s, es).stop.Cancelled?
    ensures (AllFresh(s, es) ==> AllFresh(s, all)) && Run(s, all).stop.Sweeping? && SameGoroutines(Run(s, es), Run(s, all))
  {
    all := es;
    FreshThen(s, all, CloseListener);
    all := all + [CloseListener];
    FreshThen(s, all, ShutHttp);
    all := all + [ShutHttp];
    FreshThen(s, all, SweepStart);
    all := all + [SweepStart];
  }

  lemma CloseOn(s: State, es: seq<Event>) returns (all: seq<Event>)
    requires Run(s, es).stop.Draining?
    ensures (AllFresh(s, es) ==> AllFresh(s, all)) && Run(s, all).stop == StoreClosed(true) && SameGoroutines(Run(s, es), Run(s, all))
  {
    FreshThen(s, es, Timeout);
    FreshThen(s, es + [Timeout], CloseStore);
    all := es + [Timeout] + [CloseStore];
  }

  /** A client connects, binds and queries. */
  lemma ClientHolds(init: map<string, T.Contents>, sid: string, name: string) returns (es: seq<Event>)
    requires name in init
    ensures AllFresh(Started(init), es)
    ensures var s := Run(Started(init), es); s.stop.NotCalled? && Holding(s, sid, name)
  {
    var s, todo := Started(init), [T.Bind(sid, name), T.QueryStmt(sid, true, true, true)];
    es := ClientConnects(init);
    FreshThen(s, es, CreateSession(0, sid));
    es := es + [CreateSession(0, sid)];
    FreshThen(s, es, Receive(0, [todo]));
    es := es + [Receive(0, [todo])];
    FreshThen(s, es, ReadCommand(0));
    es := es + [ReadCommand(0)];
    assert Run(s, es).handlers == map[0 := Busy(sid, todo, [])] by { assert ([] + [todo])[1..] == []; }
    FreshThen(s, es, Statement(0));
    FreshThen(s, es + [Statement(0)], Statement(0));
    BothStatements(Run(s, es), init, sid, name, todo);
    es := es + [Statement(0)] + [Statement(0)];
  }

  lemma ClientConnects(init: map<string, T.Contents>) returns (es: seq<Event>)
    ensures AllFresh(Started(init), es)
    ensures Run(Started(init), es) == Started(init).(handlers := map[0 := Spawned], conns := {0}, wg := 3, accepted := {0}, registered := {0})
  {
    var s := Started(init);
    es := [];
    FreshThen(s, es, Accept(0));
    es := es + [Accept(0)];
    FreshThen(s, es, Register);
    es := es + [Register];
    FreshThen(s, es, WgAdd);
    es := es + [WgAdd];
    FreshThen(s, es, Spawn);
    es := es + [Spawn];
  }

  lemma BothStatements(s: State, init: map<string, T.Contents>, sid: string, name: string, todo: seq<T.Event>)
    requires name in init && todo == [T.Bind(sid, name), T.QueryStmt(sid, true, true, true)]
    requires s.handlers == map[0 := Busy(sid, todo, [])] && s.world == T.Next(SP.Initial(init), T.Connect(sid))
    ensures var v := Next(Next(s, Statement(0)), Statement(0)); v.stop == s.stop && Holding(v, sid, name)
  {
    var w := Next(s, Statement(0));
    assert w.handlers[0] == Busy(sid, todo[1..], []) && todo[1..][0] == todo[1];
  }

  /** The session is registered and holds the tenant's only connection that is out. */
  ghost predicate Holding(s: State, sid: string, name: string) {
    && sid in s.world.sessions && s.world.sessions[sid].conn && s.world.sessions[sid].bound == Some(name)
    && name in s.world.tenants && s.world.tenants[name].inUse == 1
  }

  /** It happens: the store is closed while a client's session is registered and its connection
      out. */
  lemma StoreClosedUnderSession(init: map<string, T.Contents>, sid: string, name: string) returns (es: seq<Event>)
    requires name in init
    ensures AllFresh(Started(init), es)
    ensures Run(Started(init), es).stop == StoreClosed(true) && Holding(Run(Started(init), es), sid, name)
  {
    es := ClientHolds(init, sid, name);
    es := TimeoutClosesEarly(init, es);
  }

  // ---------------------------------------------------------------------------------------
  // Accepting and serving
  // ---------------------------------------------------------------------------------------

  predicate LoopOver(a: Accepting) {
    a.Returned? || a.Gone?
  }

  lemma LoopEndsCancelled(s: State, e: Event)
    requires LoopOver(s.accept) ==> s.cancelled
    ensures LoopOver(Next(s, e).accept) ==> Next(s, e).cancelled
  {
    if OfHandler(e) {
      if e.c in s.handlers { GoroutineLeavesLoop(s, e.c, s.handlers[e.c], e); }
    } else if OfAcceptLoop(e) {
      AcceptLeavesFlags(s, e);
    } else if !OfHttp(e) {
      StopLeavesLoop(s, e);
    }
  }

  lemma GoroutineLeavesLoop(s: State, c: nat, h: Serving, e: Event)
    ensures HandlerStep(s, c, h, e).accept == s.accept && HandlerStep(s, c, h, e).cancelled == s.cancelled
  {
  }

  lemma StopLeavesLoop(s: State, e: Event)
    ensures StopStep(s, e).accept == s.accept && (s.cancelled ==> StopStep(s, e).cancelled)
  {
  }

  lemma AcceptLeavesFlags(s: State, e: Event)
    ensures AcceptStep(s, e).cancelled == s.cancelled
    ensures LoopOver(AcceptStep(s, e).accept) ==> LoopOver(s.accept) || s.cancelled
  {
  }

  /** The accept loop returns only once Stop has cancelled it, whatever errors Accept meets. */
  lemma {:induction false} LoopSurvivesErrors(s: State, es: seq<Event>)
    requires LoopOver(s.accept) ==> s.cancelled
    ensures LoopOver(Run(s, es).accept) ==> Run(s, es).cancelled
    decreases |es|
  {
    if es != [] {
      LoopEndsCancelled(s, es[0]);
      LoopSurvivesErrors(Next(s, es[0]), es[1..]);
    }
  }

  /** As many statement steps of one goroutine. */
  function Statements(c: nat, n: nat): seq<Event> {
    if n == 0 then [] else [Statement(c)] + Statements(c, n - 1)
  }

  /** The statements of a command take effect on the server, all of them and in their order. */
  lemma {:induction false} CommandTakesEffect(s: State, c: nat)
    requires c in s.handlers && s.handlers[c].Busy?
    ensures var h, v := s.handlers[c], Run(s, Statements(c, |s.handlers[c].todo|));
            v.world == T.Run(s.world, h.todo) && c in v.handlers && v.handlers[c] == Busy(h.sid, [], h.buffer)
    decreases |s.handlers[c].todo|
  {
    var h := s.handlers[c];
    if h.todo != [] {
      var steps := Statements(c, |h.todo|);
      assert steps[0] == Statement(c) && steps[1..] == Statements(c, |h.todo| - 1);
      var v := Next(s, Statement(c));
      assert c in v.handlers && v.handlers[c] == Busy(h.sid, h.todo[1..], h.buffer);
      assert v.world == T.Next(s.world, h.todo[0]);
      CommandTakesEffect(v, c);
    }
  }

  /** Commands are read in the order in which they arrived, none lost, none twice. */
  lemma CommandsInOrder(s: State, c: nat, commands: seq<seq<T.Event>>)
    requires c in s.handlers && s.handlers[c].Idle? && s.handlers[c].buffer + commands != []
    requires commands == [] || (c !in s.closed && CommandsOf(s.handlers[c].sid, commands))
    ensures var h := s.handlers[c];
            var all := h.buffer + commands;
            var v := Next(if commands == [] then s else Next(s, Receive(c, commands)), ReadCommand(c));
            c in v.handlers && v.handlers[c] == Busy(h.sid, all[0], all[1..]) && v.world == s.world
  {
    var h := s.handlers[c];
    if commands == [] {
      assert h.buffer + commands == h.buffer;
    } else {
      var u := Next(s, Receive(c, commands));
      assert u.handlers[c] == Idle(h.sid, h.buffer + commands) && u.world == s.world;
    }
  }

  /** The end of a command, by its last statement or by an error, keeps the commands behind it. */
  lemma CommandEnds(s: State, c: nat)
    requires c in s.handlers && s.handlers[c].Busy?
    ensures var h, v := s.handlers[c], Next(s, CommandDone(c));
            c in v.handlers && v.handlers[c] == Idle(h.sid, h.buffer) && v.world == s.world
  {
  }

  // ---------------------------------------------------------------------------------------
  // The sweep
  // ---------------------------------------------------------------------------------------

  lemma GoroutinesRegisterNothing(s: State, c: nat, h: Serving, e: Event)
    requires OfHandler(e)
    ensures var v := HandlerStep(s, c, h, e);
            v.stopping == s.stopping && v.registered == s.registered && v.conns <= s.conns
  {
  }

  lemma StopRegistersNothing(s: State, e: Event)
    ensures var v := StopStep(s, e); (s.stopping ==> v.stopping) && v.registered == s.registered && v.conns == s.conns
    ensures var v := StopStep(s, e); v.wg == s.wg && v.handlers == s.handlers && v.world == s.world
  {
  }

  /** Once stopping is set, no connection is registered any more. */
  lemma NothingRegisteredLater(s: State, e: Event)
    requires s.stopping
    ensures Next(s, e).stopping && Next(s, e).registered == s.registered && Next(s, e).conns <= s.conns
  {
    StopRegistersNothing(s, e);
    if OfHandler(e) && e.c in s.handlers {
      GoroutinesRegisterNothing(s, e.c, s.handlers[e.c], e);
    }
  }

  /** After the sweep every connection ever registered is closed, and so is every connection
      ever accepted but the one the accept loop is about to reject. */
  lemma NoneSurvivesSweep(init: map<string, T.Contents>, es: seq<Event>)
    requires Swept(Run(Started(init), es).stop)
    ensures var s := Run(Started(init), es);
            s.registered <= s.closed && s.accepted - Undecided(s.accept) <= s.closed
  {
    StartedOk(init);
    ConnRunKeeps(Started(init), es);
  }

  // ---------------------------------------------------------------------------------------
  // The drain ends
  // ---------------------------------------------------------------------------------------

  /** The steps of the goroutines, as opposed to those of Stop. */
  predicate OfGoroutine(e: Event) {
    OfAcceptLoop(e) || OfHttp(e) || OfHandler(e)
  }

  function Buffered(buffer: seq<seq<T.Event>>): nat {
    if buffer == [] then 0 else 2 + |buffer[0]| + Buffered(buffer[1..])
  }

  function Weight(h: Serving): nat {
    match h
    case Spawned => 5
    case Idle(_, buffer) => 4 + Buffered(buffer)
    case Busy(_, todo, buffer) => 5 + |todo| + Buffered(buffer)
    case SessionGone => 3
    case SocketClosed => 2
    case Unlisted => 1
  }

  function AcceptWeight(a: Accepting): nat {
    match a
    case Gone => 0
    case Returned => 1
    case Waiting => 2
    case Rejecting(_) => 3
    case InHand(_) => 4
    case Counted(_) => 8
    case Registered(_) => 9
  }

  function HttpWeight(h: Http): nat {
    match h
    case Running => 2
    case HttpReturned => 1
    case HttpGone => 0
  }

  ghost function Total(m: map<nat, Serving>): nat
    decreases |m|
  {
    if m == map[] then 0
    else
      var c :| c in m;
      assert |m - {c}| < |m| by { OneEntry(m, c, m[c]); }
      Weight(m[c]) + Total(m - {c})
  }

  lemma {:induction false} TotalWithout(m: map<nat, Serving>, c: nat)
    requires c in m
    ensures Total(m) == Weight(m[c]) + Total(m - {c})
    decreases |m|
  {
    var d :| d in m && Total(m) == Weight(m[d]) + Total(m - {d});
    if d != c {
      OneEntry(m, d, m[d]);
      TotalWithout(m - {d}, c);
      OneEntry(m, c, m[c]);
      TotalWithout(m - {c}, d);
      assert m - {d} - {c} == m - {c} - {d};
    }
  }

  lemma TotalAfter(m: map<nat, Serving>, c: nat, h: Serving)
    ensures c in m ==> Total(m[c := h]) + Weight(m[c]) == Total(m) + Weight(h)
    ensures c !in m ==> Total(m[c := h]) == Total(m) + Weight(h)
  {
    var v := m[c := h];
    TotalWithout(v, c);
    if c in m {
      TotalWithout(m, c);
      assert v - {c} == m - {c};
    } else {
      assert v - {c} == m;
    }
  }

  /** How much the goroutines still have to do. */
  ghost function Measure(s: State): nat {
    AcceptWeight(s.accept) + HttpWeight(s.http) + Total(s.handlers)
  }

  /** After the sweep every goroutine step leaves less to do. */
  lemma StepDecreases(s: State, e: Event)
    requires ConnInv(s) && Swept(s.stop) && OfGoroutine(e)
    ensures Next(s, e) != s ==> Measure(Next(s, e)) < Measure(s) && Swept(Next(s, e).stop)
  {
    var v := NetNext(s, e);
    MeasureIn(v, WorldNext(s, e));
    if v == s {
      StillWorld(s, e);
    } else if OfAcceptLoop(e) {
      AcceptDecreases(s, e);
    } else if OfHandler(e) {
      HandlerDecreases(s, e);
    }
  }

  lemma MeasureIn(v: State, w: T.World)
    ensures Measure(v.(world := w)) == Measure(v)
  {
  }

  /** A step that moves no goroutine touches no session. */
  lemma StillWorld(s: State, e: Event)
    requires NetNext(s, e) == s
    ensures Next(s, e) == s
  {
    if OfHandler(e) && e.c in s.handlers {
      StillGoroutine(s, e.c, s.handlers[e.c], e);
    }
  }

  lemma StillGoroutine(s: State, c: nat, h: Serving, e: Event)
    requires c in s.handlers && s.handlers[c] == h && HandlerStep(s, c, h, e).handlers == s.handlers
    ensures WorldStep(s.world, h, e) == s.world
  {
    assert HandlerStep(s, c, h, e).handlers[c] == h;
  }

  lemma AcceptDecreases(s: State, e: Event)
    requires Swept(s.stop) && s.stopping && OfAcceptLoop(e) && AcceptStep(s, e) != s
    requires s.accept.Counted? ==> s.accept.c !in s.handlers
    requires !s.listening
    ensures Measure(AcceptStep(s, e)) < Measure(s) && AcceptStep(s, e).stop == s.stop
  {
    if s.accept.Counted? { TotalAfter(s.handlers, s.accept.c, Spawned); }
  }

  lemma GoroutineLighter(s: State, c: nat, h: Serving, e: Event)
    requires OfHandler(e) && c in s.closed && c in s.handlers && s.handlers[c] == h && HandlerStep(s, c, h, e) != s
    ensures var v := HandlerStep(s, c, h, e);
            && v.accept == s.accept && v.http == s.http && v.stop == s.stop
            && (if e.HandlerDone? then v.handlers == s.handlers - {c}
                else c in v.handlers && v.handlers == s.handlers[c := v.handlers[c]] && Weight(v.handlers[c]) < Weight(h))
  {
  }

  lemma HandlerDecreases(s: State, e: Event)
    requires ConnInv(s) && Swept(s.stop) && OfHandler(e) && NetNext(s, e) != s
    ensures Measure(NetNext(s, e)) < Measure(s) && NetNext(s, e).stop == s.stop
  {
    assert e.c in s.registered && e.c in s.closed;
    LighterDecreases(s, e.c, e);
  }

  lemma LighterDecreases(s: State, c: nat, e: Event)
    requires OfHandler(e) && e.c == c && c in s.closed && c in s.handlers && HandlerStep(s, c, s.handlers[c], e) != s
    ensures Measure(HandlerStep(s, c, s.handlers[c], e)) < Measure(s)
    ensures HandlerStep(s, c, s.handlers[c], e).stop == s.stop
  {
    var v := HandlerStep(s, c, s.handlers[c], e);
    GoroutineLighter(s, c, s.handlers[c], e);
    if e.HandlerDone? {
      TotalWithout(s.handlers, c);
    } else {
      TotalAfter(s.handlers, c, v.handlers[c]);
    }
  }

  /** There is always an unused session id. */
  lemma {:induction false} UnusedId(ids: set<string>) returns (id: string)
    ensures forall x | x in ids :: |x| < |id|
    decreases |ids|
  {
    if ids == {} {
      id := "";
    } else {
      var x :| x in ids;
      var shorter := UnusedId(ids - {x});
      id := shorter + x + "0";
    }
  }

  /** A live goroutine can always go on once the mutex is free. */
  lemma GoroutineMoves(s: State, c: nat) returns (e: Event)
    requires c in s.handlers && MutexFree(s)
    ensures OfHandler(e) && e.c == c && Fresh(s, e) && HandlerStep(s, c, s.handlers[c], e).handlers != s.handlers
  {
    match s.handlers[c]
    case Spawned =>
      var sid := UnusedId(s.world.sessions.Keys);
      e := CreateSession(c, sid);
    case Idle(_, _) => e := RemoveSession(c);
    case Busy(_, _, _) => e := CommandDone(c);
    case SessionGone => e := CloseSocket(c);
    case SocketClosed => e := Unlist(c);
    case Unlisted => e := HandlerDone(c);
  }

  lemma LoopMoves(s: State) returns (e: Event)
    requires !s.accept.Gone? && MutexFree(s) && s.cancelled
    ensures OfAcceptLoop(e) && AcceptStep(s, e) != s
  {
    match s.accept
    case Waiting => e := AcceptError;
    case InHand(_) => e := Register;
    case Rejecting(_) => e := RejectClose;
    case Registered(_) => e := WgAdd;
    case Counted(_) => e := Spawn;
    case Returned => e := AcceptDone;
  }

  /** While the wait group is positive after the sweep, some goroutine can move. */
  lemma SomeoneMoves(s: State) returns (e: Event)
    requires ConnInv(s) && Swept(s.stop) && s.wg > 0
    ensures OfGoroutine(e) && Fresh(s, e) && Next(s, e) != s
  {
    if s.handlers != map[] {
      var c :| c in s.handlers;
      e := GoroutineMoves(s, c);
    } else if !s.http.HttpGone? {
      e := if s.http.Running? then HttpReturn else HttpDone;
    } else {
      assert |s.handlers| == 0;
      e := LoopMoves(s);
    }
  }

  /** A run of goroutine steps each of which does something. */
  ghost predicate Busywork(s: State, es: seq<Event>)
    decreases |es|
  {
    es == [] || (OfGoroutine(es[0]) && Next(s, es[0]) != s && Busywork(Next(s, es[0]), es[1..]))
  }

  /** The drain always ends: after the sweep, whatever the order in which the goroutines go on and
      the session ids they draw, they take boundedly many steps, and when none can take another
      the wait group is zero. */
  lemma {:induction false} DrainEnds(s: State, es: seq<Event>)
    requires ConnInv(s) && Swept(s.stop) && Busywork(s, es)
    ensures |es| <= Measure(s)
    ensures (forall e | OfGoroutine(e) && Fresh(Run(s, es), e) :: Next(Run(s, es), e) == Run(s, es)) ==> Run(s, es).wg == 0
    decreases |es|
  {
    if es != [] {
      StepDecreases(s, es[0]);
      ConnNextKeeps(s, es[0]);
      DrainEnds(Next(s, es[0]), es[1..]);
    } else if s.wg > 0 {
      var e := SomeoneMoves(s);
    }
  }
}
