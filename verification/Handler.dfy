/** The per-connection protocol handler with its connection binding and credential provider.
    Parsed statements only; what the parser, SQLite and the driver answer is part of each
    statement. */
module Handler {
  import opened Options
  import opened Catalog
  import opened Sessions
  import T = Transactions
  import H = Handshake
  import StoreObject

  class ConnectionBinding {
    var requestedDB: string
    var candidate: Option<Database>
    var finalized: bool
    var database: Option<Database>

    constructor ()
      ensures Model() == H.NEW_BINDING
    {
      requestedDB, candidate, finalized, database := "", None, false, None;
    }

    function Model(): H.Binding
      reads this
    {
      H.Binding(requestedDB, candidate, finalized, database)
    }

    method SetRequestedDB(name: string) returns (ok: bool)
      modifies this`requestedDB
      ensures (Model(), ok) == H.SetRequestedDB(old(Model()), name)
    {
      if finalized {
        return database.Some? && name == database.value.record.name;
      }
      requestedDB := name;
      ok := true;
    }

    method SetCandidate(db: Database)
      modifies this`candidate
      ensures candidate == Some(db)
    {
      candidate := Some(db);
    }

    method Finalize(username: string) returns (r: Option<Database>)
      modifies this`finalized, this`database
      ensures (Model(), r) == H.FinalizeBinding(old(Model()), username)
    {
      if finalized { return database; }
      if candidate.None? || candidate.value.record.username != username { return None; }
      if requestedDB != "" && requestedDB != candidate.value.record.name { return None; }
      database := candidate;
      finalized := true;
      r := database;
    }
  }

  class CredentialProvider {
    const store: StoreObject.StoreState
    const binding: ConnectionBinding

    constructor (store: StoreObject.StoreState, binding: ConnectionBinding)
      ensures this.store == store && this.binding == binding
    {
      this.store, this.binding := store, binding;
    }

    /** What the store answers for a username. */
    function Found(username: string): H.Answer<Database>
      reads store
    {
      if store.closed || store.byUser.None? then H.Failed
      else if username in store.byUser.value then H.Known(store.byUser.value[username])
      else H.Unknown
    }

    method CheckUsername(username: string) returns (found: bool, failed: bool)
      requires store.Valid()
      ensures found <==> Found(username).Known?
      ensures failed <==> store.closed
    {
      var r := store.GetByUsername(username);
      if r == StoreObject.Failure(StoreObject.ErrNotFound) { return false, false; }
      if r.Failure? { return false, true; }
      return true, false;
    }

    method GetCredential(username: string) returns (password: H.Answer<string>)
      requires store.Valid()
      modifies binding`candidate
      ensures (binding.Model(), password) == H.GetCredential(old(binding.Model()), Found(username))
      ensures password.Failed? <==> store.closed
    {
      var r := store.GetByUsername(username);
      if r == StoreObject.Failure(StoreObject.ErrNotFound) { return H.Unknown; }
      if r.Failure? { return H.Failed; }
      var db := r.value;
      if binding.requestedDB != "" && binding.requestedDB != db.record.name { return H.Unknown; }
      binding.SetCandidate(db);
      password := H.Known(db.record.password);
    }
  }

  // ---------------------------------------------------------------------------------------
  // Statements
  // ---------------------------------------------------------------------------------------

  /** A parsed statement: its kind and how the calls it needs turn out. */
  datatype Stmt =
    | BeginStmt(acquire: bool, ok: bool)
    | CommitStmt(ok: bool)
    | RollbackStmt(ok: bool)
    | Select(acquire: bool, read: bool, ok: bool)
    | Write(write: T.Write, acquire: bool, left: T.Trace, ok: bool)

  /** The same statement as an event of a session. */
  function EventOf(id: string, stmt: Stmt): T.Event {
    match stmt
    case BeginStmt(acquire, ok) => T.BeginTx(id, acquire, ok)
    case CommitStmt(ok) => T.CommitTx(id, ok)
    case RollbackStmt(ok) => T.RollbackTx(id, ok)
    case Select(acquire, read, ok) => T.QueryStmt(id, acquire, read, ok)
    case Write(write, acquire, left, ok) => T.ExecStmt(id, write, acquire, left, ok)
  }

  /** A batch of statements: each takes effect in turn, the first that fails ends the batch and
      what ran before it stays. */
  function Batch(id: string, name: string, s: T.Session, t: T.Tenant, stmts: seq<Stmt>): (T.Session, T.Tenant, bool)
    decreases |stmts|
  {
    if stmts == [] then (s, t, true)
    else
      var o := T.Step(EventOf(id, stmts[0]), name, s, t);
      if o.ok then Batch(id, name, o.session, o.tenant, stmts[1..]) else (o.session, o.tenant, false)
  }

  function Events(id: string, stmts: seq<Stmt>): seq<T.Event> {
    seq(|stmts|, i requires 0 <= i < |stmts| => EventOf(id, stmts[i]))
  }

  /** The statement is acknowledged in the given world. */
  predicate Acknowledged(w: T.World, id: string, name: string, stmt: Stmt) {
    id in w.sessions && name in w.tenants && T.Step(EventOf(id, stmt), name, w.sessions[id], w.tenants[name]).ok
  }

  /** On the whole server a batch is a run of its first n statements: of all of them if each is
      acknowledged, else up to the first that is not. */
  lemma {:induction false} BatchIsRun(w: T.World, id: string, name: string, stmts: seq<Stmt>) returns (n: nat)
    requires id in w.sessions && w.sessions[id].bound == Some(name) && name in w.tenants
    ensures n <= |stmts| && RunsUpTo(w, id, name, stmts, n)
    ensures Batch(id, name, w.sessions[id], w.tenants[name], stmts).2 <==> n == |stmts| && AllAcknowledged(w, id, name, stmts, n)
    ensures var v := T.Run(w, Events(id, stmts[..n]));
            id in v.sessions && name in v.tenants
            && Batch(id, name, w.sessions[id], w.tenants[name], stmts).0 == v.sessions[id]
            && Batch(id, name, w.sessions[id], w.tenants[name], stmts).1 == v.tenants[name]
    decreases |stmts|
  {
    if stmts == [] {
      n := 0;
      assert T.Run(w, Events(id, stmts[..0])) == w;
    } else {
      var v := StatementIsStep(w, id, name, stmts[0]);
      FirstEvent(w, id, stmts, 1);
      assert Events(id, stmts[..0]) == [];
      if Acknowledged(w, id, name, stmts[0]) {
        n := BatchIsRun(v, id, name, stmts[1..]);
        n := n + 1;
        assert stmts[..n][1..] == stmts[1..][..n - 1];
        FirstEvent(w, id, stmts, n);
        AcknowledgedThen(w, v, id, name, stmts, n);
      } else {
        n := 1;
        assert stmts[..1][1..] == [];
        assert T.Run(w, Events(id, stmts[..0])) == w;
      }
    }
  }

  /** The first k statements are acknowledged, each after those before it. */
  ghost predicate AllAcknowledged(w: T.World, id: string, name: string, stmts: seq<Stmt>, k: nat)
    requires k <= |stmts|
  {
    forall i | 0 <= i < k :: Acknowledged(T.Run(w, Events(id, stmts[..i])), id, name, stmts[i])
  }

  /** The first n statements are all there are, or the n-th is the first that is not acknowledged. */
  ghost predicate RunsUpTo(w: T.World, id: string, name: string, stmts: seq<Stmt>, n: nat)
    requires n <= |stmts|
  {
    (n == |stmts| && AllAcknowledged(w, id, name, stmts, n))
    || (n > 0 && AllAcknowledged(w, id, name, stmts, n - 1) && !AllAcknowledged(w, id, name, stmts, n))
  }

  lemma AcknowledgedThen(w: T.World, v: T.World, id: string, name: string, stmts: seq<Stmt>, n: nat)
    requires stmts != [] && 0 < n <= |stmts| && v == T.Next(w, EventOf(id, stmts[0])) && Acknowledged(w, id, name, stmts[0])
    ensures AllAcknowledged(w, id, name, stmts, n) <==> AllAcknowledged(v, id, name, stmts[1..], n - 1)
    ensures n > 1 ==> (AllAcknowledged(w, id, name, stmts, n - 1) <==> AllAcknowledged(v, id, name, stmts[1..], n - 2))
    ensures AllAcknowledged(w, id, name, stmts, 0)
  {
    FirstAcknowledged(w, v, id, name, stmts, n);
    if n > 1 { FirstAcknowledged(w, v, id, name, stmts, n - 1); }
  }

  lemma FirstAcknowledged(w: T.World, v: T.World, id: string, name: string, stmts: seq<Stmt>, n: nat)
    requires stmts != [] && 0 < n <= |stmts| && v == T.Next(w, EventOf(id, stmts[0])) && Acknowledged(w, id, name, stmts[0])
    ensures AllAcknowledged(w, id, name, stmts, n) <==> AllAcknowledged(v, id, name, stmts[1..], n - 1)
  {
    assert Events(id, stmts[..0]) == [];
    forall i | 0 < i < n
      ensures Acknowledged(T.Run(w, Events(id, stmts[..i])), id, name, stmts[i])
         <==> Acknowledged(T.Run(v, Events(id, stmts[1..][..i - 1])), id, name, stmts[1..][i - 1])
    {
      assert stmts[..i][1..] == stmts[1..][..i - 1] && stmts[1..][i - 1] == stmts[i];
      FirstEvent(w, id, stmts, i);
    }
    if AllAcknowledged(w, id, name, stmts, n) {
      forall k | 0 <= k < n - 1 ensures Acknowledged(T.Run(v, Events(id, stmts[1..][..k])), id, name, stmts[1..][k]) {
        assert Acknowledged(T.Run(w, Events(id, stmts[..k + 1])), id, name, stmts[k + 1]);
      }
    }
    if AllAcknowledged(v, id, name, stmts[1..], n - 1) {
      forall i | 0 <= i < n ensures Acknowledged(T.Run(w, Events(id, stmts[..i])), id, name, stmts[i]) {
        if i > 0 {
          assert Acknowledged(T.Run(v, Events(id, stmts[1..][..i - 1])), id, name, stmts[1..][i - 1]);
        }
      }
    }
  }

  lemma StatementIsStep(w: T.World, id: string, name: string, stmt: Stmt) returns (v: T.World)
    requires id in w.sessions && w.sessions[id].bound == Some(name) && name in w.tenants
    ensures v == T.Next(w, EventOf(id, stmt))
    ensures var o := T.Step(EventOf(id, stmt), name, w.sessions[id], w.tenants[name]);
            id in v.sessions && v.sessions[id] == o.session && name in v.tenants && v.tenants[name] == o.tenant
            && o.session.bound == Some(name)
  {
    v := T.Next(w, EventOf(id, stmt));
  }

  lemma FirstEvent(w: T.World, id: string, stmts: seq<Stmt>, n: nat)
    requires 0 < n <= |stmts|
    ensures T.Run(w, Events(id, stmts[..n])) == T.Run(T.Next(w, EventOf(id, stmts[0])), Events(id, stmts[..n][1..]))
  {
    assert Events(id, stmts[..n])[1..] == Events(id, stmts[..n][1..]);
  }

  class SessionHandler {
    const session: Session
    const binding: ConnectionBinding
    var db: Option<Database>
    var pool: Option<TenantDatabase>

    constructor (session: Session, binding: ConnectionBinding)
      ensures this.session == session && this.binding == binding && db == None && pool == None
    {
      this.session, this.binding, db, pool := session, binding, None, None;
    }

    function Model(): H.Connection
      reads this, session, binding
    {
      H.Connection(binding.Model(), session.Names(), db)
    }

    /** A bound handler: session and handler have the same tenant, and a session's connection
        comes from the handler's pool. */
    ghost predicate Bound()
      reads this, session
    {
      && session.Valid() && db.Some? && pool.Some? && session.boundDb.Some?
      && session.boundDb.value.record.name == db.value.record.name
      && (session.conn.Some? ==> session.conn == pool)
    }

    /** An unbound handler: its session never had a connection. */
    ghost predicate Unbound()
      reads this, session
    {
      session.Valid() && db.None? && pool.None? && session.conn.None?
    }

    /** The tenant a handler can change. */
    function Pools(): set<TenantDatabase>
      reads this
    {
      if pool.Some? then {pool.value} else {}
    }

    /** `pools` gives the open pool behind a database entry. */
    method Finalize(username: string, pools: map<nat, TenantDatabase>) returns (ok: bool)
      requires session.Valid() && session.conn.None?
      requires forall d | d in {binding.candidate, binding.database} && d.Some? :: d.value.pool in pools
      modifies this, binding`finalized, binding`database, session`boundDb, session`username, session`database
      ensures (Model(), ok) == H.Finish(old(Model()), username)
      ensures session.Valid() && (ok ==> Bound())
    {
      var found := binding.Finalize(username);
      if found.None? { return false; }
      var bound := session.Bind(found.value);
      if !bound { return false; }
      db := found;
      pool := Some(pools[found.value.pool]);
      ok := true;
    }

    method SelectDatabase(name: string) returns (ok: bool)
      modifies binding`requestedDB, session`database
      ensures (Model(), ok) == H.SelectDatabase(old(Model()), name)
    {
      if db.None? {
        ok := binding.SetRequestedDB(name);
        return;
      }
      if name != db.value.record.name { return false; }
      session.SetDatabase(name);
      ok := true;
    }

    /** An unbound handler has no pool to take a connection from. */
    method EnsureConnection(acquire: bool) returns (ok: bool)
      requires Bound() || Unbound()
      modifies session`conn, Pools()
      ensures old(Unbound()) ==> Unbound() && !ok
      ensures old(Bound()) ==>
                Bound() && ok == session.conn.Some?
                && (session.Model(), pool.value.state) == T.Ensured(old(session.Model()), old(pool.value.state), acquire)
    {
      if session.conn.Some? { return true; }
      if db.None? { return false; }
      ok := pool.value.Conn(acquire);
      if ok { session.SetConnection(pool.value); }
    }

    method HandleBegin(acquire: bool, ok: bool) returns (r: bool)
      requires Bound() || Unbound()
      modifies session`conn, session`inTransaction, session`tx, Pools()
      ensures old(Unbound()) ==> Unbound() && !r
      ensures old(Bound()) ==>
                var o := T.Begin(session.id, old(session.Model()), old(pool.value.state), acquire, ok);
                Bound() && session.Model() == o.session && pool.value.state == o.tenant && r == o.ok
    {
      if session.inTransaction { return false; }
      var got := EnsureConnection(acquire);
      if !got || !ok { return false; }
      session.BeginTransaction(T.Tx(None));
      r := true;
    }

    method HandleCommit(ok: bool) returns (r: bool)
      requires Bound() || Unbound()
      modifies session`inTransaction, session`tx, Pools()
      ensures old(Unbound()) ==> Unbound() && !r
      ensures old(Bound()) ==>
                var o := T.Commit(session.id, db.value.record.name, old(session.Model()), old(pool.value.state), ok);
                Bound() && session.Model() == o.session && pool.value.state == o.tenant && r == o.ok
    {
      r := session.CommitTransaction(ok);
    }

    method HandleRollback(ok: bool) returns (r: bool)
      requires Bound() || Unbound()
      modifies session`inTransaction, session`tx, Pools()
      ensures old(Unbound()) ==> Unbound() && r
      ensures old(Bound()) ==>
                var o := T.Rollback(session.id, old(session.Model()), old(pool.value.state), ok);
                Bound() && session.Model() == o.session && pool.value.state == o.tenant && r == o.ok
    {
      if !session.inTransaction { return true; }
      r := session.RollbackTransaction(ok);
    }

    /** A query goes through the transaction if there is one, else through the connection. */
    method QueryRows(acquire: bool, read: bool, ok: bool) returns (r: Option<T.Contents>)
      requires Bound() || Unbound()
      modifies session`conn, session`tx, Pools()
      ensures old(Unbound()) ==> Unbound() && r == None
      ensures old(Bound()) ==>
                var o := T.Query(old(session.Model()), old(pool.value.state), acquire, read, ok);
                Bound() && session.Model() == o.session && pool.value.state == o.tenant
                && r == if o.ok then Some(T.Seen(old(session.Model()), old(pool.value.state))) else None
    {
      var got := EnsureConnection(acquire);
      if !got { return None; }
      var contents := pool.value.state.contents;
      if session.tx.Some? {
        var view := T.ViewOf(session.tx.value, pool.value.state);
        contents := view.contents;
        if read || ok { session.tx := Some(T.Tx(Some(view))); }
      }
      r := if ok then Some(contents) else None;
    }

    method ExecResult(write: T.Write, acquire: bool, left: T.Trace, ok: bool) returns (r: bool)
      requires Bound() || Unbound()
      modifies session`conn, session`tx, Pools()
      ensures old(Unbound()) ==> Unbound() && !r
      ensures old(Bound()) ==>
                var o := T.Exec(session.id, db.value.record.name, old(session.Model()), old(pool.value.state), write, acquire, left, ok);
                Bound() && session.Model() == o.session && pool.value.state == o.tenant && r == o.ok
    {
      var got := EnsureConnection(acquire);
      if !got { return false; }
      var t := pool.value.state;
      if session.tx.Some? {
        var view := T.ViewOf(session.tx.value, t);
        var after := write(view.contents);
        if !ok || !T.MayLock(session.id, t, view) || after.None? {
          if !left.Nothing? { session.tx := Some(T.Tx(Some(view))); }
          if left.Lock? && T.MayLock(session.id, t, view) { pool.value.state := t.(writer := Some(session.id)); }
          return false;
        }
        session.tx := Some(T.Tx(Some(T.View(after.value, view.version))));
        pool.value.state := t.(writer := Some(session.id));
        return true;
      }
      var after := write(t.contents);
      if !ok || t.writer.Some? || after.None? { return false; }
      pool.value.state := t.(contents := after.value, version := t.version + 1);
      r := true;
    }

    /** An unbound handler fails every statement but a rollback, which finds no transaction. */
    method ExecuteTranslated(stmt: Stmt) returns (r: bool)
      requires Bound() || Unbound()
      modifies session`conn, session`inTransaction, session`tx, Pools()
      ensures old(Unbound()) ==> Unbound() && r == stmt.RollbackStmt?
      ensures old(Bound()) ==>
                var id, name, s, t := session.id, db.value.record.name, old(session.Model()), old(pool.value.state);
                var o := match stmt
                         case BeginStmt(acquire, ok) => T.Step(T.BeginTx(id, acquire, ok), name, s, t)
                         case CommitStmt(ok) => T.Step(T.CommitTx(id, ok), name, s, t)
                         case RollbackStmt(ok) => T.Step(T.RollbackTx(id, ok), name, s, t)
                         case Select(acquire, read, ok) => T.Step(T.QueryStmt(id, acquire, read, ok), name, s, t)
                         case Write(write, acquire, left, ok) => T.Step(T.ExecStmt(id, write, acquire, left, ok), name, s, t);
                Bound() && session.Model() == o.session && pool.value.state == o.tenant && r == o.ok
    {
      match stmt
      case BeginStmt(acquire, ok) => r := HandleBegin(acquire, ok);
      case CommitStmt(ok) => r := HandleCommit(ok);
      case RollbackStmt(ok) => r := HandleRollback(ok);
      case Select(acquire, read, ok) =>
        var rows := QueryRows(acquire, read, ok);
        r := rows.Some?;
      case Write(write, acquire, left, ok) => r := ExecResult(write, acquire, left, ok);
    }

    /** The statements of one query text, one after the other, up to the first error. */
    method HandleTranslated(stmts: seq<Stmt>) returns (r: bool)
      requires Bound() || Unbound()
      modifies session`conn, session`inTransaction, session`tx, Pools()
      ensures old(Unbound()) ==> Unbound() && (r <==> forall stmt | stmt in stmts :: stmt.RollbackStmt?)
      ensures old(Bound()) ==>
                Bound()
                && (session.Model(), pool.value.state, r)
                   == Batch(session.id, db.value.record.name, old(session.Model()), old(pool.value.state), stmts)
    {
      var i := 0;
      assert stmts[0..] == stmts;
      while i < |stmts|
        invariant 0 <= i <= |stmts|
        invariant old(Unbound()) ==> Unbound() && forall k | 0 <= k < i :: stmts[k].RollbackStmt?
        invariant old(Bound()) ==>
                    Bound()
                    && Batch(session.id, db.value.record.name, session.Model(), pool.value.state, stmts[i..])
                       == Batch(session.id, db.value.record.name, old(session.Model()), old(pool.value.state), stmts)
      {
        assert stmts[i..][1..] == stmts[i + 1..];
        var ok := ExecuteTranslated(stmts[i]);
        if !ok { return false; }
        i := i + 1;
      }
      r := true;
    }
  }
}
