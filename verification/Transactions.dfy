/** Sessions over tenant databases: lazy acquisition of a pooled connection, transactions, the
    routing of every statement, and the cleanup on disconnect.  SQLite appears as a contract:
    one writer at a time, a transaction works on a snapshot taken by its first statement, a
    statement that fails leaves the contents as they were. */
module Transactions {
  import opened Options

  // ---------------------------------------------------------------------------------------
  // Tenants and sessions
  // ---------------------------------------------------------------------------------------

  /** The contents of a tenant database. */
  type Contents = map<string, string>

  /** The effect of a statement; None when SQLite rejects it. */
  type Write = Contents -> Option<Contents>

  /** A tenant database: committed contents, how often they were replaced, the session holding
      the write lock, and how many pooled connections are handed out. */
  datatype Tenant = Tenant(contents: Contents, version: nat, writer: Option<string>, inUse: nat)

  datatype View = View(contents: Contents, version: nat)

  /** An open transaction; its view is taken by its first statement. */
  datatype Tx = Tx(view: Option<View>)

  datatype Session = Session(bound: Option<string>, conn: bool, inTransaction: bool, tx: Option<Tx>)

  const NEW_SESSION := Session(None, false, false, None)

  /** What a client is told, in the order it is told. */
  datatype Entry =
    | Started(id: string)
    | Wrote(id: string, tenant: string, write: Write)
    | Committed(id: string, tenant: string)
    | Abandoned(id: string)

  type History = seq<Entry>

  /** The effect of one statement on its session and tenant, and what the history gains. */
  datatype Outcome = Outcome(session: Session, tenant: Tenant, entry: Option<Entry>, ok: bool)

  /** A pooled connection is acquired by the first statement that needs one. */
  function Ensured(s: Session, t: Tenant, acquire: bool): (Session, Tenant) {
    if !s.conn && acquire then (s.(conn := true), t.(inUse := t.inUse + 1)) else (s, t)
  }

  function Begin(id: string, s: Session, t: Tenant, acquire: bool, ok: bool): Outcome {
    if s.inTransaction then Outcome(s, t, None, false)
    else
      var (s1, t1) := Ensured(s, t, acquire);
      if !s1.conn || !ok then Outcome(s1, t1, None, false)
      else Outcome(s1.(inTransaction := true, tx := Some(Tx(None))), t1, Some(Started(id)), true)
  }

  function Unlocked(id: string, t: Tenant): Tenant {
    if t.writer == Some(id) then t.(writer := None) else t
  }

  function Untransacted(s: Session): Session {
    s.(inTransaction := false, tx := None)
  }

  /** A failed commit is an abandoned transaction: the driver rolls it back. */
  function Commit(id: string, name: string, s: Session, t: Tenant, ok: bool): Outcome {
    if s.tx.None? then Outcome(s, t, None, false)
    else if !ok then Outcome(Untransacted(s), Unlocked(id, t), Some(Abandoned(id)), false)
    else
      var view := s.tx.value.view;
      var t1 := if t.writer == Some(id) && view.Some?
                then t.(contents := view.value.contents, version := t.version + 1) else t;
      Outcome(Untransacted(s), Unlocked(id, t1), Some(Committed(id, name)), true)
  }

  /** A rollback outside a transaction does nothing and succeeds. */
  function Rollback(id: string, s: Session, t: Tenant, ok: bool): Outcome {
    if !s.inTransaction then Outcome(s, t, None, true)
    else if s.tx.None? then Outcome(s, t, None, false)
    else Outcome(Untransacted(s), Unlocked(id, t), Some(Abandoned(id)), ok)
  }

  function ViewOf(tx: Tx, t: Tenant): View {
    if tx.view.Some? then tx.view.value else View(t.contents, t.version)
  }

  /** What a failing write leaves behind inside its transaction. */
  datatype Trace = Nothing | Snapshot | Lock

  predicate MayLock(id: string, t: Tenant, view: View) {
    (t.writer == None || t.writer == Some(id)) && view.version == t.version
  }

  /** A write needs the lock, and inside a transaction a view that is still current.  One that
      fails changes no contents, but inside a transaction it may keep the view or the lock. */
  function ExecIn(id: string, name: string, s: Session, t: Tenant, write: Write, left: Trace, ok: bool): Outcome {
    if s.tx.Some? then
      var view := ViewOf(s.tx.value, t);
      if !ok || !MayLock(id, t, view) || write(view.contents).None? then
        Outcome(if left.Nothing? then s else s.(tx := Some(Tx(Some(view)))),
                if left.Lock? && MayLock(id, t, view) then t.(writer := Some(id)) else t, None, false)
      else
        Outcome(s.(tx := Some(Tx(Some(View(write(view.contents).value, view.version))))),
                t.(writer := Some(id)), Some(Wrote(id, name, write)), true)
    else
      if !ok || t.writer.Some? || write(t.contents).None? then Outcome(s, t, None, false)
      else Outcome(s, t.(contents := write(t.contents).value, version := t.version + 1), Some(Wrote(id, name, write)), true)
  }

  /** Every statement goes through the transaction if there is one, else through the connection. */
  function Exec(id: string, name: string, s: Session, t: Tenant, write: Write, acquire: bool, left: Trace, ok: bool): Outcome {
    var (s1, t1) := Ensured(s, t, acquire);
    if !s1.conn then Outcome(s1, t1, None, false) else ExecIn(id, name, s1, t1, write, left, ok)
  }

  /** A query that fails may have read already, which takes the transaction's view. */
  function Query(s: Session, t: Tenant, acquire: bool, read: bool, ok: bool): Outcome {
    var (s1, t1) := Ensured(s, t, acquire);
    if !s1.conn then Outcome(s1, t1, None, false)
    else if s1.tx.Some? && (read || ok) then
      Outcome(s1.(tx := Some(Tx(Some(ViewOf(s1.tx.value, t1))))), t1, None, ok)
    else Outcome(s1, t1, None, ok)
  }

  /** The contents a query reads. */
  function Seen(s: Session, t: Tenant): Contents {
    if s.tx.Some? then ViewOf(s.tx.value, t).contents else t.contents
  }

  /** Closing a session rolls its transaction back and returns its connection. */
  function Close(id: string, s: Session, t: Tenant): Outcome {
    var t1 := if s.tx.Some? then Unlocked(id, t) else t;
    Outcome(s.(inTransaction := if s.tx.Some? then false else s.inTransaction, tx := None, conn := false),
            if s.conn && t1.inUse > 0 then t1.(inUse := t1.inUse - 1) else t1,
            if s.tx.Some? then Some(Abandoned(id)) else None, true)
  }

  // ---------------------------------------------------------------------------------------
  // The whole server
  // ---------------------------------------------------------------------------------------

  datatype World = World(tenants: map<string, Tenant>, sessions: map<string, Session>, history: History)

  datatype Event =
    | Connect(id: string)
    | Bind(id: string, tenant: string)
    | BeginTx(id: string, acquire: bool, ok: bool)
    | CommitTx(id: string, ok: bool)
    | RollbackTx(id: string, ok: bool)
    | ExecStmt(id: string, write: Write, acquire: bool, left: Trace, ok: bool)
    | QueryStmt(id: string, acquire: bool, read: bool, ok: bool)
    | Disconnect(id: string)

  function Added(h: History, e: Option<Entry>): History {
    if e.None? then h else h + [e.value]
  }

  function Step(e: Event, name: string, s: Session, t: Tenant): Outcome {
    match e
    case BeginTx(id, acquire, ok) => Begin(id, s, t, acquire, ok)
    case CommitTx(id, ok) => Commit(id, name, s, t, ok)
    case RollbackTx(id, ok) => Rollback(id, s, t, ok)
    case ExecStmt(id, write, acquire, left, ok) => Exec(id, name, s, t, write, acquire, left, ok)
    case QueryStmt(id, acquire, read, ok) => Query(s, t, acquire, read, ok)
    case Disconnect(id) => Close(id, s, t)
    case _ => Outcome(s, t, None, false)
  }

  function Next(w: World, e: Event): World {
    if e.Connect? then w.(sessions := w.sessions[e.id := NEW_SESSION])
    else if e.id !in w.sessions then w
    else
      var s := w.sessions[e.id];
      if e.Bind? then
        if s.bound.Some? || e.tenant !in w.tenants then w
        else w.(sessions := w.sessions[e.id := s.(bound := Some(e.tenant))])
      else if s.bound.None? || s.bound.value !in w.tenants then
        // an unbound session is refused every statement
        if e.Disconnect? then w.(sessions := w.sessions - {e.id}) else w
      else
        var name := s.bound.value;
        var o := Step(e, name, s, w.tenants[name]);
        World(w.tenants[name := o.tenant],
              if e.Disconnect? then w.sessions - {e.id} else w.sessions[e.id := o.session],
              Added(w.history, o.entry))
  }

  function Run(w: World, es: seq<Event>): World
    decreases |es|
  {
    if es == [] then w else Run(Next(w, es[0]), es[1..])
  }

  /** Session ids in use are not given out again. */
  predicate Fresh(w: World, e: Event) {
    e.Connect? ==> e.id !in w.sessions
  }

  ghost predicate AllFresh(w: World, es: seq<Event>)
    decreases |es|
  {
    es == [] || (Fresh(w, es[0]) && AllFresh(Next(w, es[0]), es[1..]))
  }

  // ---------------------------------------------------------------------------------------
  // The reference: what the history says the contents must be
  // ---------------------------------------------------------------------------------------

  function Replay(c: Contents, ws: seq<Write>): Contents {
    if ws == [] then c
    else
      var before := Replay(c, ws[..|ws| - 1]);
      var after := ws[|ws| - 1](before);
      if after.Some? then after.value else before
  }

  /** The client `id` was told that a transaction started and not yet that it ended. */
  function Active(h: History, id: string): bool {
    if h == [] then false
    else
      var last, before := h[|h| - 1], h[..|h| - 1];
      if last.id != id then Active(before, id)
      else last.Started? || (last.Wrote? && Active(before, id))
  }

  /** The writes acknowledged to `id` in its open transaction. */
  function Pending(h: History, id: string): seq<Write> {
    if h == [] then []
    else
      var last, before := h[|h| - 1], h[..|h| - 1];
      if last.id != id then Pending(before, id)
      else if last.Wrote? && Active(before, id) then Pending(before, id) + [last.write]
      else []
  }

  /** The writes that must have taken effect on a tenant: those acknowledged outside a
      transaction, and those of each transaction whose commit was acknowledged. */
  function Log(h: History, tenant: string): seq<Write> {
    if h == [] then []
    else
      var last, before := h[|h| - 1], h[..|h| - 1];
      if last.Wrote? && last.tenant == tenant && !Active(before, last.id) then Log(before, tenant) + [last.write]
      else if last.Committed? && last.tenant == tenant then Log(before, tenant) + Pending(before, last.id)
      else Log(before, tenant)
  }

  lemma {:induction false} ReplayConcat(c: Contents, a: seq<Write>, b: seq<Write>)
    ensures Replay(c, a + b) == Replay(Replay(c, a), b)
    decreases |b|
  {
    if b == [] {
      assert a + b == a;
    } else {
      assert (a + b)[..|a + b| - 1] == a + b[..|b| - 1];
      ReplayConcat(c, a, b[..|b| - 1]);
    }
  }

  lemma AddedEntry(h: History, e: Option<Entry>, id: string, tenant: string)
    requires e.Some?
    ensures var h' := Added(h, e); |h'| > 0 && h'[|h'| - 1] == e.value && h'[..|h'| - 1] == h
    ensures e.value.id != id ==> Active(Added(h, e), id) == Active(h, id) && Pending(Added(h, e), id) == Pending(h, id)
  {
  }

  // ---------------------------------------------------------------------------------------
  // The invariant
  // ---------------------------------------------------------------------------------------

  /** The writer of a tenant works on the current contents plus its own acknowledged writes; any
      other transaction has none and a view that may be out of date. */
  ghost predicate TxOk(tx: Tx, t: Tenant, h: History, id: string) {
    if t.writer == Some(id) then
      tx.view.Some? && tx.view.value.version == t.version
      && tx.view.value.contents == Replay(t.contents, Pending(h, id))
    else
      Pending(h, id) == []
      && (tx.view.Some? ==>
            tx.view.value.version <= t.version
            && (tx.view.value.version == t.version ==> tx.view.value.contents == t.contents))
  }

  /** A session against its own tenant. */
  ghost predicate LocalOk(s: Session, t: Tenant, h: History, id: string) {
    && s.inTransaction == s.tx.Some? == Active(h, id)
    && (s.tx.Some? ==> s.conn && TxOk(s.tx.value, t, h, id))
  }

  ghost predicate SessionOk(s: Session, tenants: map<string, Tenant>, h: History, id: string) {
    if s.bound.None? then s == NEW_SESSION && !Active(h, id)
    else s.bound.value in tenants && LocalOk(s, tenants[s.bound.value], h, id)
  }

  /** The sessions holding a pooled connection of a tenant. */
  function Holders(sessions: map<string, Session>, name: string): set<string> {
    set id | id in sessions && sessions[id].bound == Some(name) && sessions[id].conn
  }

  ghost predicate TenantOk(w: World, init: map<string, Contents>, name: string)
    requires name in w.tenants
  {
    var t := w.tenants[name];
    && name in init && t.contents == Replay(init[name], Log(w.history, name))
    && t.inUse == |Holders(w.sessions, name)|
    && (t.writer.Some? ==>
          var id := t.writer.value;
          id in w.sessions && w.sessions[id].bound == Some(name) && w.sessions[id].tx.Some?)
  }

  ghost predicate Inv(w: World, init: map<string, Contents>) {
    && (forall id | id in w.sessions :: SessionOk(w.sessions[id], w.tenants, w.history, id))
    && (forall id | id !in w.sessions :: !Active(w.history, id))
    && (forall name | name in w.tenants :: TenantOk(w, init, name))
  }

  // ---------------------------------------------------------------------------------------
  // One statement
  // ---------------------------------------------------------------------------------------

  predicate EntryOf(e: Entry, id: string, name: string) {
    e.id == id && (e.Wrote? ==> e.tenant == name) && (e.Committed? ==> e.tenant == name)
  }

  /** What one session's statement may do to a tenant that other sessions use too: nothing while
      another session holds the lock, and new contents only under a new version. */
  ghost predicate Progress(t: Tenant, t': Tenant, id: string) {
    && (t.writer.Some? && t.writer != Some(id) ==>
          t'.contents == t.contents && t'.version == t.version && t'.writer == t.writer)
    && (t'.writer == t.writer || t'.writer == None || t'.writer == Some(id))
    && t'.version >= t.version
    && (t'.version == t.version ==> t'.contents == t.contents)
  }

  /** A statement keeps the session and the tenant in order, and the tenant's contents are what
      the history says, `base` being the contents it started from. */
  ghost predicate Kept(id: string, name: string, s: Session, t: Tenant, h: History, base: Contents, o: Outcome, gone: bool) {
    var h' := Added(h, o.entry);
    && o.session.bound == s.bound && (o.entry.Some? ==> EntryOf(o.entry.value, id, name))
    && (if gone then !Active(h', id) && !o.session.conn && o.tenant.writer != Some(id)
        else LocalOk(o.session, o.tenant, h', id) && (o.tenant.writer == Some(id) ==> o.session.tx.Some?))
    && Progress(t, o.tenant, id)
    && o.tenant.contents == Replay(base, Log(h', name))
    && o.tenant.inUse + Count(s.conn) == t.inUse + Count(o.session.conn)
  }

  /** The state a statement starts from. */
  ghost predicate Ready(id: string, name: string, s: Session, t: Tenant, h: History, base: Contents) {
    && LocalOk(s, t, h, id) && (t.writer == Some(id) ==> s.tx.Some?)
    && t.contents == Replay(base, Log(h, name)) && (s.conn ==> t.inUse > 0)
  }

  lemma EnsuredReady(id: string, name: string, s: Session, t: Tenant, h: History, base: Contents, acquire: bool)
    requires Ready(id, name, s, t, h, base)
    ensures var (s1, t1) := Ensured(s, t, acquire);
            Ready(id, name, s1, t1, h, base) && t1.inUse + Count(s.conn) == t.inUse + Count(s1.conn)
            && t1.(inUse := t.inUse) == t && s1.(conn := s.conn) == s
  {
  }

  lemma BeginKept(id: string, name: string, s: Session, t: Tenant, h: History, base: Contents, acquire: bool, ok: bool)
    requires Ready(id, name, s, t, h, base)
    ensures Kept(id, name, s, t, h, base, Begin(id, s, t, acquire, ok), false)
  {
    EnsuredReady(id, name, s, t, h, base, acquire);
    var o := Begin(id, s, t, acquire, ok);
    if o.entry.Some? { AddedEntry(h, o.entry, id, name); }
  }

  lemma CommitKept(id: string, name: string, s: Session, t: Tenant, h: History, base: Contents, ok: bool)
    requires Ready(id, name, s, t, h, base)
    ensures Kept(id, name, s, t, h, base, Commit(id, name, s, t, ok), false)
  {
    var o := Commit(id, name, s, t, ok);
    if o.entry.Some? {
      AddedEntry(h, o.entry, id, name);
      if ok {
        assert Log(Added(h, o.entry), name) == Log(h, name) + Pending(h, id);
        ReplayConcat(base, Log(h, name), Pending(h, id));
      }
    }
  }

  lemma RollbackKept(id: string, name: string, s: Session, t: Tenant, h: History, base: Contents, ok: bool)
    requires Ready(id, name, s, t, h, base)
    ensures Kept(id, name, s, t, h, base, Rollback(id, s, t, ok), false)
  {
  }

  lemma ReplayOneMore(c: Contents, ws: seq<Write>, w: Write)
    requires w(Replay(c, ws)).Some?
    ensures Replay(c, ws + [w]) == w(Replay(c, ws)).value
  {
    assert (ws + [w])[..|ws|] == ws;
  }

  /** What an acknowledged write adds to the history of its session and tenant. */
  lemma WroteAdded(h: History, id: string, name: string, write: Write)
    ensures var h' := Added(h, Some(Wrote(id, name, write)));
            Active(h', id) == Active(h, id)
            && Pending(h', id) == (if Active(h, id) then Pending(h, id) + [write] else [])
            && Log(h', name) == if Active(h, id) then Log(h, name) else Log(h, name) + [write]
  {
    AddedEntry(h, Some(Wrote(id, name, write)), id, name);
  }

  lemma ExecKept(id: string, name: string, s: Session, t: Tenant, h: History, base: Contents,
                 write: Write, left: Trace, ok: bool)
    requires Ready(id, name, s, t, h, base) && s.conn
    ensures Kept(id, name, s, t, h, base, ExecIn(id, name, s, t, write, left, ok), false)
  {
    if ExecIn(id, name, s, t, write, left, ok).ok {
      if s.tx.Some? {
        TxWriteKept(id, name, s, t, h, base, write, left);
      } else {
        AutocommitKept(id, name, s, t, h, base, write, left);
      }
    } else if s.tx.Some? {
      TxFailureKept(id, name, s, t, h, base, write, left, ok);
    }
  }

  lemma TxFailureKept(id: string, name: string, s: Session, t: Tenant, h: History, base: Contents,
                      write: Write, left: Trace, ok: bool)
    requires Ready(id, name, s, t, h, base) && s.conn && s.tx.Some? && !ExecIn(id, name, s, t, write, left, ok).ok
    ensures Kept(id, name, s, t, h, base, ExecIn(id, name, s, t, write, left, ok), false)
  {
  }

  lemma TxWriteKept(id: string, name: string, s: Session, t: Tenant, h: History, base: Contents, write: Write, left: Trace)
    requires Ready(id, name, s, t, h, base) && s.conn && s.tx.Some? && ExecIn(id, name, s, t, write, left, true).ok
    ensures Kept(id, name, s, t, h, base, ExecIn(id, name, s, t, write, left, true), false)
  {
    WroteAdded(h, id, name, write);
    assert Replay(t.contents, Pending(h, id)) == ViewOf(s.tx.value, t).contents;
    ReplayOneMore(t.contents, Pending(h, id), write);
  }

  lemma AutocommitKept(id: string, name: string, s: Session, t: Tenant, h: History, base: Contents, write: Write, left: Trace)
    requires Ready(id, name, s, t, h, base) && s.conn && s.tx.None? && ExecIn(id, name, s, t, write, left, true).ok
    ensures Kept(id, name, s, t, h, base, ExecIn(id, name, s, t, write, left, true), false)
  {
    WroteAdded(h, id, name, write);
    ReplayOneMore(base, Log(h, name), write);
  }

  lemma QueryKept(id: string, name: string, s: Session, t: Tenant, h: History, base: Contents,
                  acquire: bool, read: bool, ok: bool)
    requires Ready(id, name, s, t, h, base)
    ensures Kept(id, name, s, t, h, base, Query(s, t, acquire, read, ok), false)
  {
  }

  lemma CloseKept(id: string, name: string, s: Session, t: Tenant, h: History, base: Contents)
    requires Ready(id, name, s, t, h, base)
    ensures Kept(id, name, s, t, h, base, Close(id, s, t), true)
  {
  }

  lemma StepKept(e: Event, name: string, s: Session, t: Tenant, h: History, base: Contents)
    requires Ready(e.id, name, s, t, h, base) && !e.Connect? && !e.Bind?
    ensures Kept(e.id, name, s, t, h, base, Step(e, name, s, t), e.Disconnect?)
  {
    match e
    case BeginTx(id, acquire, ok) => BeginKept(id, name, s, t, h, base, acquire, ok);
    case CommitTx(id, ok) => CommitKept(id, name, s, t, h, base, ok);
    case RollbackTx(id, ok) => RollbackKept(id, name, s, t, h, base, ok);
    case ExecStmt(id, write, acquire, left, ok) =>
      EnsuredReady(id, name, s, t, h, base, acquire);
      var (s1, t1) := Ensured(s, t, acquire);
      if s1.conn { ExecKept(id, name, s1, t1, h, base, write, left, ok); }
    case QueryStmt(id, acquire, read, ok) => QueryKept(id, name, s, t, h, base, acquire, read, ok);
    case Disconnect(id) => CloseKept(id, name, s, t, h, base);
  }

  // ---------------------------------------------------------------------------------------
  // The whole server keeps the invariant
  // ---------------------------------------------------------------------------------------

  /** Changing one session moves at most that session in or out of the holders of its tenant. */
  lemma HoldersAfter(sessions: map<string, Session>, sessions': map<string, Session>, id: string, name: string)
    requires forall x | x != id :: (x in sessions <==> x in sessions') && (x in sessions ==> sessions[x] == sessions'[x])
    ensures var was := id in sessions && sessions[id].bound == Some(name) && sessions[id].conn;
            var now := id in sessions' && sessions'[id].bound == Some(name) && sessions'[id].conn;
            |Holders(sessions', name)| + Count(was) == |Holders(sessions, name)| + Count(now)
  {
    var a, b := Holders(sessions, name), Holders(sessions', name);
    forall x | x != id ensures x in a <==> x in b {
      assert x in sessions <==> x in sessions';
    }
    OneApart(a, b, id);
  }

  lemma OneApart(a: set<string>, b: set<string>, id: string)
    requires forall x | x != id :: x in a <==> x in b
    ensures |b| + Count(id in a) == |a| + Count(id in b)
  {
    var rest := a - {id};
    assert b - {id} == rest;
    assert a == if id in a then rest + {id} else rest;
    assert b == if id in b then rest + {id} else rest;
  }

  /** A transaction of another session stays in order. */
  lemma OthersKept(tx: Tx, t: Tenant, t': Tenant, h: History, h': History, other: string, id: string)
    requires TxOk(tx, t, h, other) && Progress(t, t', id) && other != id
    requires Pending(h', other) == Pending(h, other)
    ensures TxOk(tx, t', h', other)
  {
  }

  lemma HistoryOfOthers(h: History, e: Option<Entry>, id: string, name: string)
    requires e.Some? ==> EntryOf(e.value, id, name)
    ensures forall other | other != id ::
              Active(Added(h, e), other) == Active(h, other) && Pending(Added(h, e), other) == Pending(h, other)
    ensures forall tenant | tenant != name :: Log(Added(h, e), tenant) == Log(h, tenant)
  {
  }

  /** Conservation step: a session with a connection keeps its tenant's count positive. */
  lemma HolderCounts(w: World, init: map<string, Contents>, id: string, name: string)
    requires Inv(w, init) && id in w.sessions && w.sessions[id].bound == Some(name) && name in w.tenants
    ensures Ready(id, name, w.sessions[id], w.tenants[name], w.history, init[name])
  {
    assert TenantOk(w, init, name) && SessionOk(w.sessions[id], w.tenants, w.history, id);
    if w.sessions[id].conn {
      assert id in Holders(w.sessions, name);
    }
  }

  lemma ConnectKeeps(w: World, init: map<string, Contents>, e: Event)
    requires Inv(w, init) && e.Connect? && Fresh(w, e)
    ensures Inv(Next(w, e), init)
  {
    var v := Next(w, e);
    forall name | name in v.tenants ensures TenantOk(v, init, name) {
      assert TenantOk(w, init, name);
      HoldersAfter(w.sessions, v.sessions, e.id, name);
    }
  }

  lemma BindKeeps(w: World, init: map<string, Contents>, e: Event)
    requires Inv(w, init) && e.Bind?
    ensures Inv(Next(w, e), init)
  {
    var v := Next(w, e);
    if v != w {
      assert SessionOk(w.sessions[e.id], w.tenants, w.history, e.id);
      forall name | name in v.tenants ensures TenantOk(v, init, name) {
        assert TenantOk(w, init, name);
        HoldersAfter(w.sessions, v.sessions, e.id, name);
      }
    }
  }

  lemma UnboundKeeps(w: World, init: map<string, Contents>, e: Event)
    requires Inv(w, init) && e.id in w.sessions && w.sessions[e.id].bound.None? && !e.Connect? && !e.Bind?
    ensures Inv(Next(w, e), init)
  {
    var v := Next(w, e);
    assert SessionOk(w.sessions[e.id], w.tenants, w.history, e.id);
    forall name | name in v.tenants ensures TenantOk(v, init, name) {
      assert TenantOk(w, init, name);
      HoldersAfter(w.sessions, v.sessions, e.id, name);
    }
  }

  lemma StatementKeepsSessions(w: World, init: map<string, Contents>, e: Event, name: string)
    requires Inv(w, init) && !e.Connect? && !e.Bind?
    requires e.id in w.sessions && w.sessions[e.id].bound == Some(name) && name in w.tenants
    ensures var v := Next(w, e);
            (forall id | id in v.sessions :: SessionOk(v.sessions[id], v.tenants, v.history, id))
            && (forall id | id !in v.sessions :: !Active(v.history, id))
  {
    var v, s, t := Next(w, e), w.sessions[e.id], w.tenants[name];
    HolderCounts(w, init, e.id, name);
    StepKept(e, name, s, t, w.history, init[name]);
    var o := Step(e, name, s, t);
    HistoryOfOthers(w.history, o.entry, e.id, name);
    forall id | id in v.sessions ensures SessionOk(v.sessions[id], v.tenants, v.history, id) {
      if id != e.id {
        assert SessionOk(w.sessions[id], w.tenants, w.history, id);
        if w.sessions[id].bound == Some(name) && w.sessions[id].tx.Some? {
          OthersKept(w.sessions[id].tx.value, t, o.tenant, w.history, v.history, id, e.id);
        }
      }
    }
  }

  /** The world after a statement with outcome `o`. */
  ghost predicate After(w: World, v: World, id: string, name: string, o: Outcome, gone: bool) {
    v == World(w.tenants[name := o.tenant], if gone then w.sessions - {id} else w.sessions[id := o.session],
               Added(w.history, o.entry))
  }

  lemma OwnTenantKept(w: World, v: World, init: map<string, Contents>, id: string, name: string, o: Outcome, gone: bool)
    requires id in w.sessions && w.sessions[id].bound == Some(name) && name in w.tenants && TenantOk(w, init, name)
    requires After(w, v, id, name, o, gone)
    requires Kept(id, name, w.sessions[id], w.tenants[name], w.history, init[name], o, gone)
    ensures TenantOk(v, init, name)
  {
    HoldersAfter(w.sessions, v.sessions, id, name);
  }

  lemma StatementKeepsOwnTenant(w: World, init: map<string, Contents>, e: Event, name: string)
    requires Inv(w, init) && !e.Connect? && !e.Bind?
    requires e.id in w.sessions && w.sessions[e.id].bound == Some(name) && name in w.tenants
    ensures TenantOk(Next(w, e), init, name)
  {
    var s, t := w.sessions[e.id], w.tenants[name];
    HolderCounts(w, init, e.id, name);
    StepKept(e, name, s, t, w.history, init[name]);
    assert TenantOk(w, init, name);
    OwnTenantKept(w, Next(w, e), init, e.id, name, Step(e, name, s, t), e.Disconnect?);
  }

  lemma StatementKeepsOtherTenant(w: World, init: map<string, Contents>, e: Event, name: string, other: string)
    requires Inv(w, init) && !e.Connect? && !e.Bind? && other != name && other in w.tenants
    requires e.id in w.sessions && w.sessions[e.id].bound == Some(name) && name in w.tenants
    ensures TenantOk(Next(w, e), init, other)
  {
    var v, s, t := Next(w, e), w.sessions[e.id], w.tenants[name];
    HolderCounts(w, init, e.id, name);
    StepKept(e, name, s, t, w.history, init[name]);
    HistoryOfOthers(w.history, Step(e, name, s, t).entry, e.id, name);
    assert TenantOk(w, init, other);
    HoldersAfter(w.sessions, v.sessions, e.id, other);
  }

  lemma StatementKeepsTenants(w: World, init: map<string, Contents>, e: Event, name: string)
    requires Inv(w, init) && !e.Connect? && !e.Bind?
    requires e.id in w.sessions && w.sessions[e.id].bound == Some(name) && name in w.tenants
    ensures var v := Next(w, e); forall n | n in v.tenants :: TenantOk(v, init, n)
  {
    var v := Next(w, e);
    forall n | n in v.tenants ensures TenantOk(v, init, n) {
      if n == name {
        StatementKeepsOwnTenant(w, init, e, name);
      } else {
        StatementKeepsOtherTenant(w, init, e, name, n);
      }
    }
  }

  /** Every event keeps the invariant, as long as session ids in use are not given out again. */
  lemma NextKeeps(w: World, init: map<string, Contents>, e: Event)
    requires Inv(w, init) && Fresh(w, e)
    ensures Inv(Next(w, e), init)
  {
    if e.Connect? {
      ConnectKeeps(w, init, e);
    } else if e.Bind? {
      BindKeeps(w, init, e);
    } else if e.id in w.sessions {
      assert SessionOk(w.sessions[e.id], w.tenants, w.history, e.id);
      var bound := w.sessions[e.id].bound;
      if bound.None? {
        UnboundKeeps(w, init, e);
      } else {
        StatementKeepsSessions(w, init, e, bound.value);
        StatementKeepsTenants(w, init, e, bound.value);
      }
    }
  }

  lemma {:induction false} RunKeeps(w: World, init: map<string, Contents>, es: seq<Event>)
    requires Inv(w, init) && AllFresh(w, es)
    ensures Inv(Run(w, es), init)
    decreases |es|
  {
    if es != [] {
      NextKeeps(w, init, es[0]);
      RunKeeps(Next(w, es[0]), init, es[1..]);
    }
  }
}
