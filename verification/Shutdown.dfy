/** Accepting, serving and stopping: one accept loop, any number of connection goroutines, the
    management goroutine and one Stop, interleaved step by step.  They share the connection
    mutex, the set of connections, the stopping flag, the wait group and the session map. */
module Shutdown {
  import opened Options
  import T = Transactions
  import SP = SessionProperties

  /** The accept loop. */
  datatype Accepting =
    | Waiting
    | InHand(c: nat)       // accepted, not yet looked at under the mutex
    | Rejecting(c: nat)    // stopping was set: to be closed
    | Registered(c: nat)   // in conns, before wg.Add
    | Counted(c: nat)      // after wg.Add, before the goroutine starts
    | Returned             // before wg.Done
    | Gone

  /** A connection goroutine; it leaves the map of goroutines with its wg.Done. */
  datatype Serving =
    | Spawned
    | Idle(sid: string, buffer: seq<seq<T.Event>>)                       // reading the next command
    | Busy(sid: string, todo: seq<T.Event>, buffer: seq<seq<T.Event>>)   // running a command's statements
    | SessionGone                                // session removed
    | SocketClosed
    | Unlisted                                   // out of conns

  datatype Http = Running | HttpReturned | HttpGone

  datatype Stopping =
    | NotCalled
    | Flagged
    | Cancelled
    | ListenerClosed
    | HttpDown
    | Sweeping(left: set<nat>)                   // holding the mutex
    | Draining
    | Drained
    | TimedOut
    | StoreClosed(timedOut: bool)

  /** `accepted`, `registered` and `closed` are the connections that ever were. */
  datatype State = State(accept: Accepting, handlers: map<nat, Serving>, http: Http, stop: Stopping,
                         stopping: bool, cancelled: bool, listening: bool, conns: set<nat>, wg: int,
                         accepted: set<nat>, registered: set<nat>, closed: set<nat>, world: T.World)

  datatype Event =
    | Accept(c: nat)
    | AcceptError
    | Register
    | RejectClose
    | WgAdd
    | Spawn
    | AcceptDone
    | HttpReturn
    | HttpDone
    | CreateSession(c: nat, sid: string)
    | Receive(c: nat, commands: seq<seq<T.Event>>)
    | ReadCommand(c: nat)
    | Statement(c: nat)
    | CommandDone(c: nat)
    | RemoveSession(c: nat)
    | CloseSocket(c: nat)
    | Unlist(c: nat)
    | HandlerDone(c: nat)
    | SetStopping
    | Cancel
    | CloseListener
    | ShutHttp
    | SweepStart
    | SweepOne(c: nat)
    | SweepEnd
    | WaitReturns
    | Timeout
    | CloseStore

  /** The proxy after Start. */
  function Started(init: map<string, T.Contents>): State {
    State(Waiting, map[], Running, NotCalled, false, false, true, {}, 2, {}, {}, {}, SP.Initial(init))
  }

  /** Statements a command may run: those of a session that exists. */
  predicate CommandOf(sid: string, todo: seq<T.Event>) {
    forall i | 0 <= i < |todo| :: todo[i].id == sid && !todo[i].Connect? && !todo[i].Disconnect?
  }

  predicate CommandsOf(sid: string, commands: seq<seq<T.Event>>) {
    forall i | 0 <= i < |commands| :: CommandOf(sid, commands[i])
  }

  /** What a goroutine runs or has buffered are statements of its own session. */
  predicate Obeys(h: Serving) {
    match h
    case Idle(sid, buffer) => CommandsOf(sid, buffer)
    case Busy(sid, todo, buffer) => CommandOf(sid, todo) && CommandsOf(sid, buffer)
    case _ => true
  }

  predicate MutexFree(s: State) {
    !s.stop.Sweeping?
  }

  function AcceptStep(s: State, e: Event): State {
    match s.accept
    case Waiting =>
      if e.Accept? && s.listening && e.c !in s.accepted then
        s.(accept := InHand(e.c), accepted := s.accepted + {e.c})
      else if e.AcceptError? && s.cancelled then s.(accept := Returned)
      else s
    case InHand(c) =>
      if !e.Register? || !MutexFree(s) then s
      else if s.stopping then s.(accept := Rejecting(c))
      else s.(accept := Registered(c), conns := s.conns + {c}, registered := s.registered + {c})
    case Rejecting(c) => if e.RejectClose? then s.(accept := Waiting, closed := s.closed + {c}) else s
    case Registered(c) => if e.WgAdd? then s.(accept := Counted(c), wg := s.wg + 1) else s
    case Counted(c) => if e.Spawn? then s.(accept := Waiting, handlers := s.handlers[c := Spawned]) else s
    case Returned => if e.AcceptDone? then s.(accept := Gone, wg := s.wg - 1) else s
    case Gone => s
  }

  function At(s: State, c: nat, h: Serving): State {
    s.(handlers := s.handlers[c := h])
  }

  function HandlerStep(s: State, c: nat, h: Serving, e: Event): State {
    match h
    case Spawned => if e.CreateSession? then At(s, c, Idle(e.sid, [])) else s
    case Idle(sid, buffer) =>
      if e.Receive? then
        // nothing arrives from a closed socket; what had arrived is still read
        if c in s.closed || !CommandsOf(sid, e.commands) then s else At(s, c, Idle(sid, buffer + e.commands))
      else if e.ReadCommand? && buffer != [] then At(s, c, Busy(sid, buffer[0], buffer[1..]))
      else if e.RemoveSession? then At(s, c, SessionGone)
      else s
    case Busy(sid, todo, buffer) =>
      if e.Statement? && todo != [] then At(s, c, Busy(sid, todo[1..], buffer))
      else if e.CommandDone? then At(s, c, Idle(sid, buffer))
      else s
    case SessionGone => if e.CloseSocket? then At(s, c, SocketClosed).(closed := s.closed + {c}) else s
    case SocketClosed => if e.Unlist? && MutexFree(s) then At(s, c, Unlisted).(conns := s.conns - {c}) else s
    case Unlisted => if e.HandlerDone? then s.(handlers := s.handlers - {c}, wg := s.wg - 1) else s
  }

  /** What the goroutine's step does to sessions and tenants. */
  function WorldStep(w: T.World, h: Serving, e: Event): T.World {
    match h
    case Spawned => if e.CreateSession? then T.Next(w, T.Connect(e.sid)) else w
    case Idle(sid, _) => if e.RemoveSession? then T.Next(w, T.Disconnect(sid)) else w
    case Busy(_, todo, _) => if e.Statement? && todo != [] then T.Next(w, todo[0]) else w
    case _ => w
  }

  function StopStep(s: State, e: Event): State {
    match s.stop
    case NotCalled => if e.SetStopping? then s.(stop := Flagged, stopping := true) else s
    case Flagged => if e.Cancel? then s.(stop := Cancelled, cancelled := true) else s
    case Cancelled => if e.CloseListener? then s.(stop := ListenerClosed, listening := false) else s
    case ListenerClosed => if e.ShutHttp? then s.(stop := HttpDown) else s
    case HttpDown => if e.SweepStart? then s.(stop := Sweeping(s.conns)) else s
    case Sweeping(left) =>
      if e.SweepOne? && e.c in left then s.(stop := Sweeping(left - {e.c}), closed := s.closed + {e.c})
      else if e.SweepEnd? && left == {} then s.(stop := Draining)
      else s
    case Draining =>
      if e.WaitReturns? && s.wg == 0 then s.(stop := Drained)
      else if e.Timeout? then s.(stop := TimedOut)
      else s
    case Drained => if e.CloseStore? then s.(stop := StoreClosed(false)) else s
    case TimedOut => if e.CloseStore? then s.(stop := StoreClosed(true)) else s
    case StoreClosed(_) => s
  }

  predicate OfAcceptLoop(e: Event) {
    e.Accept? || e.AcceptError? || e.Register? || e.RejectClose? || e.WgAdd? || e.Spawn? || e.AcceptDone?
  }

  predicate OfHttp(e: Event) {
    e.HttpReturn? || e.HttpDone?
  }

  predicate OfHandler(e: Event) {
    e.CreateSession? || e.Receive? || e.ReadCommand? || e.Statement? || e.CommandDone? || e.RemoveSession? || e.CloseSocket?
    || e.Unlist? || e.HandlerDone?
  }

  function HttpStep(s: State, e: Event): State {
    if s.http.Running? && e.HttpReturn? then s.(http := HttpReturned)
    else if s.http.HttpReturned? && e.HttpDone? then s.(http := HttpGone, wg := s.wg - 1)
    else s
  }

  /** The step, but for its effect on sessions and tenants. */
  function NetNext(s: State, e: Event): State {
    if OfAcceptLoop(e) then AcceptStep(s, e)
    else if OfHttp(e) then HttpStep(s, e)
    else if OfHandler(e) then (if e.c in s.handlers then HandlerStep(s, e.c, s.handlers[e.c], e) else s)
    else StopStep(s, e)
  }

  function WorldNext(s: State, e: Event): T.World {
    if OfHandler(e) && e.c in s.handlers then WorldStep(s.world, s.handlers[e.c], e) else s.world
  }

  function Next(s: State, e: Event): State {
    NetNext(s, e).(world := WorldNext(s, e))
  }

  function Run(s: State, es: seq<Event>): State
    decreases |es|
  {
    if es == [] then s else Run(Next(s, es[0]), es[1..])
  }

  lemma {:induction false} RunThen(s: State, es: seq<Event>, e: Event)
    ensures Run(s, es + [e]) == Next(Run(s, es), e)
    decreases |es|
  {
    if es == [] {
      assert ([] + [e])[1..] == [];
    } else {
      assert (es + [e])[1..] == es[1..] + [e];
      RunThen(Next(s, es[0]), es[1..], e);
    }
  }

  lemma RunOne(s: State, a: Event)
    ensures Run(s, [a]) == Next(s, a)
  {
  }

  lemma RunThree(s: State, a: Event, b: Event, c: Event)
    ensures Run(s, [a, b, c]) == Next(Next(Next(s, a), b), c)
  {
    RunOne(s, a);
    RunThen(s, [a], b);
    RunThen(s, [a, b], c);
    assert [a] + [b] == [a, b] && [a, b] + [c] == [a, b, c];
  }

  /** Session ids in use are not drawn again. */
  predicate Fresh(s: State, e: Event) {
    e.CreateSession? ==> e.sid !in s.world.sessions
  }

  ghost predicate AllFresh(s: State, es: seq<Event>)
    decreases |es|
  {
    es == [] || (Fresh(s, es[0]) && AllFresh(Next(s, es[0]), es[1..]))
  }

  // ---------------------------------------------------------------------------------------
  // The invariant
  // ---------------------------------------------------------------------------------------

  /** The wait group counts the accept loop, the management goroutine, the goroutine about to be
      started and the running ones. */
  ghost predicate Counts(s: State) {
    s.wg == Count(!s.accept.Gone?) + Count(!s.http.HttpGone?) + Count(s.accept.Counted?) + |s.handlers|
  }

  /** The connection the accept loop has registered but not yet handed over. */
  function HandingOver(a: Accepting): set<nat> {
    if a.Registered? || a.Counted? then {a.c} else {}
  }

  /** The connection the accept loop has not registered. */
  function Undecided(a: Accepting): set<nat> {
    if a.InHand? || a.Rejecting? then {a.c} else {}
  }

  ghost predicate ConnectionsOk(s: State) {
    && (forall c :: c in s.conns <==> c in HandingOver(s.accept) || (c in s.handlers && !s.handlers[c].Unlisted?))
    && (forall c | c in HandingOver(s.accept) :: c !in s.handlers)
    && s.conns <= s.registered && s.handlers.Keys <= s.registered && s.registered <= s.accepted
    && Undecided(s.accept) <= s.accepted - s.registered
    && s.accepted - s.registered - Undecided(s.accept) <= s.closed
    && s.registered - s.conns <= s.closed
    && (forall c | c in s.handlers && (s.handlers[c].SocketClosed? || s.handlers[c].Unlisted?) :: c in s.closed)
  }

  /** The session id a goroutine holds. */
  function Sid(h: Serving): set<string> {
    if h.Idle? || h.Busy? then {h.sid} else {}
  }

  function Owned(handlers: map<nat, Serving>): set<string> {
    set c, sid | c in handlers && sid in Sid(handlers[c]) :: sid
  }

  ghost predicate Distinct(handlers: map<nat, Serving>) {
    forall c, d | c in handlers && d in handlers && c != d :: Sid(handlers[c]) !! Sid(handlers[d])
  }

  ghost predicate CommandsOk(handlers: map<nat, Serving>) {
    forall c | c in handlers :: Obeys(handlers[c])
  }

  /** The registered sessions are exactly those of the running goroutines, one each. */
  ghost predicate SessionsOk(s: State, init: map<string, T.Contents>) {
    && T.Inv(s.world, init) && s.world.sessions.Keys == Owned(s.handlers)
    && Distinct(s.handlers) && CommandsOk(s.handlers)
  }

  predicate Swept(stop: Stopping) {
    stop.Draining? || stop.Drained? || stop.TimedOut? || stop.StoreClosed?
  }

  ghost predicate StopOk(s: State) {
    && s.stopping == !s.stop.NotCalled?
    && s.cancelled == !(s.stop.NotCalled? || s.stop.Flagged?)
    && s.listening == (s.stop.NotCalled? || s.stop.Flagged? || s.stop.Cancelled?)
    && (s.stop.Sweeping? ==> s.stop.left <= s.conns && s.conns - s.stop.left <= s.closed)
    && (Swept(s.stop) ==> s.conns <= s.closed)
    && (s.stop.Drained? || s.stop == StoreClosed(false) ==> s.wg == 0)
  }

  /** What does not depend on session ids. */
  ghost predicate ConnInv(s: State) {
    Counts(s) && ConnectionsOk(s) && StopOk(s)
  }

  ghost predicate Inv(s: State, init: map<string, T.Contents>) {
    ConnInv(s) && SessionsOk(s, init)
  }

  // The accept loop

  lemma AcceptCounts(s: State, e: Event)
    requires Counts(s) && ConnectionsOk(s) && OfAcceptLoop(e)
    ensures Counts(NetNext(s, e))
  {
    if s.accept.Counted? && e.Spawn? {
      var c := s.accept.c;
      assert s.handlers[c := Spawned].Keys == s.handlers.Keys + {c};
      assert |s.handlers[c := Spawned]| == |s.handlers| + 1;
    } else {
      AcceptLoopCounts(s, e);
    }
  }

  /** Short of starting a goroutine, the loop counts only itself and the one it has announced. */
  lemma AcceptLoopCounts(s: State, e: Event)
    requires !(s.accept.Counted? && e.Spawn?)
    ensures var v := AcceptStep(s, e);
            && v.handlers == s.handlers && v.http == s.http
            && v.wg + Count(!s.accept.Gone?) + Count(s.accept.Counted?) == s.wg + Count(!v.accept.Gone?) + Count(v.accept.Counted?)
  {
  }

  lemma AcceptConnections(s: State, e: Event)
    requires ConnectionsOk(s) && OfAcceptLoop(e)
    ensures ConnectionsOk(NetNext(s, e))
  {
  }

  lemma AcceptSessions(s: State, init: map<string, T.Contents>, e: Event)
    requires ConnectionsOk(s) && SessionsOk(s, init) && OfAcceptLoop(e)
    ensures SessionsOk(NetNext(s, e), init)
  {
    if s.accept.Counted? && e.Spawn? {
      GoroutineStarts(s.handlers, s.accept.c);
    }
  }

  lemma GoroutineStarts(m: map<nat, Serving>, c: nat)
    requires c !in m && Distinct(m) && CommandsOk(m)
    ensures var v := m[c := Spawned]; Owned(v) == Owned(m) && Distinct(v) && CommandsOk(v)
  {
    var v := m[c := Spawned];
    assert forall d | d in m :: v[d] == m[d];
    assert Owned(m) <= Owned(v);
  }

  lemma AcceptStop(s: State, e: Event)
    requires Counts(s) && ConnectionsOk(s) && StopOk(s) && OfAcceptLoop(e)
    ensures StopOk(NetNext(s, e))
  {
  }

  // The management goroutine and Stop

  lemma HttpKeeps(s: State, e: Event)
    requires ConnInv(s) && OfHttp(e)
    ensures ConnInv(NetNext(s, e))
  {
  }

  /** Stop closes connections and moves nobody else. */
  lemma StopShape(s: State, e: Event)
    ensures SameButStop(s, StopStep(s, e))
  {
    var v := StopStep(s, e);
    if s.stop.Sweeping? && e.SweepOne? && e.c in s.stop.left {
      assert v == s.(stop := v.stop, closed := s.closed + {e.c});
    } else {
      StopFlags(s, e);
    }
  }

  lemma StopFlags(s: State, e: Event)
    requires !(s.stop.Sweeping? && e.SweepOne? && e.c in s.stop.left)
    ensures var v := StopStep(s, e);
            v == s.(stop := v.stop, stopping := v.stopping, cancelled := v.cancelled, listening := v.listening)
  {
  }

  ghost predicate SameButStop(s: State, v: State) {
    && v == s.(stop := v.stop, stopping := v.stopping, cancelled := v.cancelled, listening := v.listening,
               closed := v.closed)
    && s.closed <= v.closed
  }

  lemma ConnectionsIn(s: State, v: State)
    requires ConnectionsOk(s) && SameButStop(s, v)
    ensures ConnectionsOk(v)
  {
  }

  lemma StopConnections(s: State, e: Event)
    requires ConnectionsOk(s) && Counts(s) && !OfAcceptLoop(e) && !OfHttp(e) && !OfHandler(e)
    ensures ConnectionsOk(NetNext(s, e)) && Counts(NetNext(s, e))
  {
    StopShape(s, e);
    ConnectionsIn(s, StopStep(s, e));
  }

  lemma StopStop(s: State, e: Event)
    requires StopOk(s) && !OfAcceptLoop(e) && !OfHttp(e) && !OfHandler(e)
    ensures StopOk(NetNext(s, e))
  {
  }

  // The connection goroutines

  lemma OneEntry(m: map<nat, Serving>, c: nat, h: Serving)
    requires c in m
    ensures |m[c := h]| == |m| && |m - {c}| == |m| - 1
  {
  }

  /** A goroutine's step leaves the other actors where they are; only its end leaves the map. */
  ghost predicate OneGoroutine(s: State, v: State, c: nat) {
    && v.accept == s.accept && v.http == s.http
    && ((v.handlers == s.handlers && v.wg == s.wg)
        || (c in s.handlers && c in v.handlers && v.handlers == s.handlers[c := v.handlers[c]] && v.wg == s.wg)
        || (c in s.handlers && v.handlers == s.handlers - {c} && v.wg == s.wg - 1))
  }

  lemma HandlerShape(s: State, e: Event)
    requires OfHandler(e)
    ensures OneGoroutine(s, NetNext(s, e), e.c)
  {
  }

  lemma CountsAfter(s: State, v: State, c: nat)
    requires Counts(s) && OneGoroutine(s, v, c)
    ensures Counts(v)
  {
    if c in s.handlers {
      OneEntry(s.handlers, c, if c in v.handlers then v.handlers[c] else Spawned);
    }
  }

  lemma HandlerCounts(s: State, e: Event)
    requires Counts(s) && OfHandler(e)
    ensures Counts(NetNext(s, e))
  {
    HandlerShape(s, e);
    CountsAfter(s, NetNext(s, e), e.c);
  }

  lemma HandlerConnections(s: State, e: Event)
    requires ConnectionsOk(s) && OfHandler(e)
    ensures ConnectionsOk(NetNext(s, e))
  {
    if e.c in s.handlers {
      var h := s.handlers[e.c];
      var v := HandlerStep(s, e.c, h, e);
      if !h.Unlisted? && !(h.SocketClosed? && e.Unlist?) && v != s {
        ListedStep(s, e.c, h, e);
        ListedMoves(s, v, e.c);
      }
    }
  }

  /** Up to the closing of its socket a goroutine stays listed. */
  lemma ListedStep(s: State, c: nat, h: Serving, e: Event)
    requires !h.Unlisted? && !(h.SocketClosed? && e.Unlist?) && HandlerStep(s, c, h, e) != s
    ensures StaysListed(s, HandlerStep(s, c, h, e), c)
  {
  }

  ghost predicate StaysListed(s: State, v: State, c: nat) {
    && v.accept == s.accept && v.conns == s.conns && v.registered == s.registered && v.accepted == s.accepted
    && s.closed <= v.closed && c in v.handlers && v.handlers == s.handlers[c := v.handlers[c]]
    && !v.handlers[c].Unlisted? && (v.handlers[c].SocketClosed? ==> c in v.closed)
  }

  lemma ListedMoves(s: State, v: State, c: nat)
    requires ConnectionsOk(s) && c in s.handlers && !s.handlers[c].Unlisted? && StaysListed(s, v, c)
    ensures ConnectionsOk(v)
  {
    assert v.handlers.Keys == s.handlers.Keys;
  }

  /** A goroutine closes and unlists connections, the latter not during the sweep. */
  lemma HandlerFrame(s: State, c: nat, h: Serving, e: Event)
    ensures var v := HandlerStep(s, c, h, e); SameStop(s, v) && (s.stop.Sweeping? ==> v.conns == s.conns)
  {
  }

  ghost predicate SameStop(s: State, v: State) {
    && v.stop == s.stop && v.stopping == s.stopping && v.cancelled == s.cancelled && v.listening == s.listening
    && s.closed <= v.closed && v.conns <= s.conns
  }

  lemma StopOkIn(s: State, v: State)
    requires StopOk(s) && SameStop(s, v) && (s.stop.Sweeping? ==> v.conns == s.conns) && (s.wg == 0 ==> v.wg == 0)
    ensures StopOk(v)
  {
  }

  lemma HandlerStop(s: State, e: Event)
    requires ConnInv(s) && OfHandler(e)
    ensures StopOk(NetNext(s, e))
  {
    if e.c in s.handlers {
      assert |s.handlers| > 0;
      HandlerFrame(s, e.c, s.handlers[e.c], e);
      StopOkIn(s, HandlerStep(s, e.c, s.handlers[e.c], e));
    }
  }

  /** A goroutine moves on: it keeps its session, takes a new one or has none any more. */
  lemma GoroutineMoves(m: map<nat, Serving>, c: nat, h: Serving)
    requires c in m && Distinct(m) && CommandsOk(m)
    requires Sid(h) <= Sid(m[c]) || Sid(h) !! Owned(m)
    requires Obeys(h)
    ensures var v := m[c := h];
            Owned(v) == (Owned(m) - Sid(m[c])) + Sid(h) && Distinct(v) && CommandsOk(v)
  {
    var v := m[c := h];
    assert forall d | d in m && d != c :: v[d] == m[d];
    forall sid ensures sid in Owned(v) <==> sid in (Owned(m) - Sid(m[c])) + Sid(h) {
      if sid in Owned(m) && sid !in Sid(m[c]) {
        var d :| d in m && sid in Sid(m[d]);
        assert d in v && sid in Sid(v[d]);
      }
      if sid in Owned(v) && sid !in Sid(h) {
        var d :| d in v && sid in Sid(v[d]);
        assert d != c && d in m && sid in Sid(m[d]);
      }
      if sid in Sid(h) {
        assert c in v && sid in Sid(v[c]);
      }
    }
    forall d, f | d in v && f in v && d != f ensures Sid(v[d]) !! Sid(v[f]) {
      assert d in m && f in m;
      assert forall sid | sid in Sid(m[d]) :: sid in Owned(m);
      assert forall sid | sid in Sid(m[f]) :: sid in Owned(m);
    }
  }

  lemma GoroutineEnds(m: map<nat, Serving>, c: nat)
    requires c in m && Sid(m[c]) == {} && Distinct(m) && CommandsOk(m)
    ensures Owned(m - {c}) == Owned(m) && Distinct(m - {c}) && CommandsOk(m - {c})
  {
    var v := m - {c};
    forall sid | sid in Owned(m) ensures sid in Owned(v) {
      var d :| d in m && sid in Sid(m[d]);
      assert d in v && v[d] == m[d];
    }
  }

  lemma StatementSessions(w: T.World, init: map<string, T.Contents>, e: T.Event)
    requires T.Inv(w, init) && !e.Connect? && !e.Disconnect?
    ensures T.Inv(T.Next(w, e), init) && T.Next(w, e).sessions.Keys == w.sessions.Keys
  {
    T.NextKeeps(w, init, e);
  }

  /** The session map and the goroutines agree after a goroutine moved to `h`. */
  lemma SessionsAfter(s: State, init: map<string, T.Contents>, c: nat, h: Serving, w: T.World, v: State)
    requires SessionsOk(s, init) && c in s.handlers && T.Inv(w, init)
    requires v.handlers == s.handlers[c := h] && v.world == w
    requires w.sessions.Keys == (s.world.sessions.Keys - Sid(s.handlers[c])) + Sid(h)
    requires Sid(h) <= Sid(s.handlers[c]) || Sid(h) !! Owned(s.handlers)
    requires Obeys(h)
    ensures SessionsOk(v, init)
  {
    GoroutineMoves(s.handlers, c, h);
  }

  /** Sessions and tenants after a goroutine's step. */
  lemma WorldKeeps(s: State, init: map<string, T.Contents>, c: nat, e: Event)
    requires SessionsOk(s, init) && c in s.handlers && Fresh(s, e)
    ensures var h, w := s.handlers[c], WorldStep(s.world, s.handlers[c], e);
            T.Inv(w, init)
            && w.sessions.Keys == if h.Spawned? && e.CreateSession? then s.world.sessions.Keys + {e.sid}
                                  else if h.Idle? && e.RemoveSession? then s.world.sessions.Keys - {h.sid}
                                  else s.world.sessions.Keys
  {
    var h := s.handlers[c];
    if h.Spawned? && e.CreateSession? {
      T.NextKeeps(s.world, init, T.Connect(e.sid));
    } else if h.Idle? && e.RemoveSession? {
      T.NextKeeps(s.world, init, T.Disconnect(h.sid));
      assert h.sid in Sid(h);
    } else if h.Busy? && e.Statement? && h.todo != [] {
      StatementSessions(s.world, init, h.todo[0]);
    }
  }

  lemma HandlerSessions(s: State, init: map<string, T.Contents>, e: Event)
    requires SessionsOk(s, init) && OfHandler(e) && Fresh(s, e)
    ensures SessionsOk(Next(s, e), init)
  {
    if e.c in s.handlers {
      WorldKeeps(s, init, e.c, e);
      GoroutineSessions(s, init, e.c, e, WorldStep(s.world, s.handlers[e.c], e));
      NextOfHandler(s, e);
    } else {
      SessionsIn(s, Next(s, e), init);
    }
  }

  lemma NextOfHandler(s: State, e: Event)
    requires OfHandler(e) && e.c in s.handlers
    ensures Next(s, e) == HandlerStep(s, e.c, s.handlers[e.c], e).(world := WorldStep(s.world, s.handlers[e.c], e))
  {
  }

  lemma GoroutineSessions(s: State, init: map<string, T.Contents>, c: nat, e: Event, w: T.World)
    requires SessionsOk(s, init) && c in s.handlers && OfHandler(e) && Fresh(s, e) && T.Inv(w, init)
    requires var h := s.handlers[c];
             w.sessions.Keys == if h.Spawned? && e.CreateSession? then s.world.sessions.Keys + {e.sid}
                                else if h.Idle? && e.RemoveSession? then s.world.sessions.Keys - {h.sid}
                                else s.world.sessions.Keys
    ensures SessionsOk(HandlerStep(s, c, s.handlers[c], e).(world := w), init)
  {
    var h := s.handlers[c];
    var v := HandlerStep(s, c, h, e);
    if h.Unlisted? && e.HandlerDone? {
      GoroutineEnds(s.handlers, c);
      SessionsFrom(v, init, w);
    } else if v != s {
      SidMoves(s, c, h, e);
      KeysMove(s.world.sessions.Keys, w.sessions.Keys, h, v.handlers[c], e) by { assert Sid(h) <= Owned(s.handlers); }
      MovedSessions(s, init, c, v, w);
    } else {
      assert w.sessions.Keys == s.world.sessions.Keys;
      SessionsFrom(s, init, w);
    }
  }

  lemma KeysMove(keys: set<string>, after: set<string>, h: Serving, v: Serving, e: Event)
    requires after == if h.Spawned? && e.CreateSession? then keys + {e.sid}
                      else if h.Idle? && e.RemoveSession? then keys - {h.sid}
                      else keys
    requires (h.Spawned? <==> e.CreateSession?) && (e.RemoveSession? ==> h.Idle?)
    requires Sid(v) == if h.Spawned? then {e.sid} else if e.RemoveSession? then {} else Sid(h)
    requires Sid(h) <= keys && (e.CreateSession? ==> e.sid !in keys)
    ensures after == (keys - Sid(h)) + Sid(v) && (Sid(v) <= Sid(h) || Sid(v) !! keys)
  {
  }

  lemma SessionsFrom(v: State, init: map<string, T.Contents>, w: T.World)
    requires T.Inv(w, init) && w.sessions.Keys == Owned(v.handlers) && Distinct(v.handlers) && CommandsOk(v.handlers)
    ensures SessionsOk(v.(world := w), init)
  {
  }

  lemma MovedSessions(s: State, init: map<string, T.Contents>, c: nat, v: State, w: T.World)
    requires SessionsOk(s, init) && c in s.handlers && T.Inv(w, init)
    requires c in v.handlers && v.handlers == s.handlers[c := v.handlers[c]]
    requires Obeys(v.handlers[c])
    requires w.sessions.Keys == (s.world.sessions.Keys - Sid(s.handlers[c])) + Sid(v.handlers[c])
    requires Sid(v.handlers[c]) <= Sid(s.handlers[c]) || Sid(v.handlers[c]) !! s.world.sessions.Keys
    ensures SessionsOk(v.(world := w), init)
  {
    SessionsAfter(s, init, c, v.handlers[c], w, v.(world := w));
  }

  /** The id a goroutine holds after its step, unless it ends. */
  lemma SidMoves(s: State, c: nat, h: Serving, e: Event)
    requires !h.Unlisted? && HandlerStep(s, c, h, e) != s && Obeys(h)
    ensures var v := HandlerStep(s, c, h, e);
            && c in v.handlers && v.handlers == s.handlers[c := v.handlers[c]]
            && Obeys(v.handlers[c])
            && (h.Spawned? ==> e.CreateSession?) && (e.CreateSession? ==> h.Spawned?) && (e.RemoveSession? ==> h.Idle?)
            && Sid(v.handlers[c]) == if h.Spawned? then {e.sid} else if e.RemoveSession? then {} else Sid(h)
  {
  }

  lemma NetNextKeeps(s: State, e: Event)
    requires ConnInv(s)
    ensures ConnInv(NetNext(s, e))
  {
    if OfAcceptLoop(e) {
      AcceptCounts(s, e);
      AcceptConnections(s, e);
      AcceptStop(s, e);
    } else if OfHttp(e) {
      HttpKeeps(s, e);
    } else if OfHandler(e) {
      HandlerCounts(s, e);
      HandlerConnections(s, e);
      HandlerStop(s, e);
    } else {
      StopConnections(s, e);
      StopStop(s, e);
    }
  }

  /** Sessions and tenants are no part of it. */
  lemma ConnInvIn(v: State, w: T.World)
    requires ConnInv(v)
    ensures ConnInv(v.(world := w))
  {
  }

  /** Every step keeps the connections and the wait group in order, whichever actor takes it and
      whatever session id it draws. */
  lemma ConnNextKeeps(s: State, e: Event)
    requires ConnInv(s)
    ensures ConnInv(Next(s, e))
  {
    NetNextKeeps(s, e);
    ConnInvIn(NetNext(s, e), WorldNext(s, e));
  }

  lemma {:induction false} ConnRunKeeps(s: State, es: seq<Event>)
    requires ConnInv(s)
    ensures ConnInv(Run(s, es))
    decreases |es|
  {
    if es != [] {
      ConnNextKeeps(s, es[0]);
      ConnRunKeeps(Next(s, es[0]), es[1..]);
    }
  }

  /** Stop and the management goroutine leave goroutines and sessions alone. */
  lemma OthersSessions(s: State, e: Event)
    requires !OfAcceptLoop(e) && !OfHandler(e)
    ensures NetNext(s, e).handlers == s.handlers && NetNext(s, e).world == s.world
  {
  }

  /** Every step keeps the sessions in order too, as long as ids in use are not drawn again. */
  lemma NextKeeps(s: State, init: map<string, T.Contents>, e: Event)
    requires Inv(s, init) && Fresh(s, e)
    ensures Inv(Next(s, e), init)
  {
    ConnNextKeeps(s, e);
    NextSessions(s, init, e);
  }

  lemma NextSessions(s: State, init: map<string, T.Contents>, e: Event)
    requires ConnectionsOk(s) && SessionsOk(s, init) && Fresh(s, e)
    ensures SessionsOk(Next(s, e), init)
  {
    if OfHandler(e) {
      HandlerSessions(s, init, e);
    } else {
      if OfAcceptLoop(e) {
        AcceptSessions(s, init, e);
      } else {
        OthersSessions(s, e);
        SessionsIn(s, NetNext(s, e), init);
      }
      NetNextWorld(s, e);
    }
  }

  lemma NetNextWorld(s: State, e: Event)
    requires !OfHandler(e)
    ensures Next(s, e) == NetNext(s, e)
  {
    assert NetNext(s, e).world == s.world;
  }

  lemma SessionsIn(s: State, v: State, init: map<string, T.Contents>)
    requires SessionsOk(s, init) && v.handlers == s.handlers && v.world == s.world
    ensures SessionsOk(v, init)
  {
  }

  lemma {:induction false} RunKeeps(s: State, init: map<string, T.Contents>, es: seq<Event>)
    requires Inv(s, init) && AllFresh(s, es)
    ensures Inv(Run(s, es), init)
    decreases |es|
  {
    if es != [] {
      NextKeeps(s, init, es[0]);
      RunKeeps(Next(s, es[0]), init, es[1..]);
    }
  }

  lemma StartedOk(init: map<string, T.Contents>)
    ensures Inv(Started(init), init)
  {
  }
}
