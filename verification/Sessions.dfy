/** Sessions and the session manager as objects, over tenant databases whose pool and driver
    behaviour is the contract of module Transactions. */
module Sessions {
  import opened Options
  import opened Catalog
  import T = Transactions
  import H = Handshake

  /** A tenant's pool: its contents, lock and connection count. */
  class TenantDatabase {
    var state: T.Tenant

    constructor (contents: T.Contents)
      ensures state == T.Tenant(contents, 0, None, 0)
    {
      state := T.Tenant(contents, 0, None, 0);
    }

    /** Takes a connection out of the pool. */
    method Conn(acquire: bool) returns (ok: bool)
      modifies this
      ensures ok == acquire
      ensures state == if ok then old(state).(inUse := old(state).inUse + 1) else old(state)
    {
      if acquire { state := state.(inUse := state.inUse + 1); }
      ok := acquire;
    }

    /** Puts a connection back. */
    method Release()
      modifies this
      ensures state == if old(state).inUse > 0 then old(state).(inUse := old(state).inUse - 1) else old(state)
    {
      if state.inUse > 0 { state := state.(inUse := state.inUse - 1); }
    }

    method CommitTx(id: string, tx: T.Tx, ok: bool)
      modifies this
      ensures var s := T.Session(None, true, true, Some(tx)); state == T.Commit(id, "", s, old(state), ok).tenant
    {
      if ok && state.writer == Some(id) && tx.view.Some? {
        state := state.(contents := tx.view.value.contents, version := state.version + 1);
      }
      RollbackTx(id);
    }

    method RollbackTx(id: string)
      modifies this
      ensures state == T.Unlocked(id, old(state))
    {
      if state.writer == Some(id) { state := state.(writer := None); }
    }
  }

  class Session {
    const id: string
    var username: string
    var database: string
    var boundDb: Option<Database>
    var inTransaction: bool
    var tx: Option<T.Tx>
    var conn: Option<TenantDatabase>

    constructor (id: string)
      ensures this.id == id && Valid()
      ensures Model() == T.NEW_SESSION && Names() == H.NEW_SESSION_BINDING
      ensures conn == None
    {
      this.id := id;
      username, database, boundDb := "", "", None;
      inTransaction, tx, conn := false, None, None;
    }

    /** What Transactions knows of the session. */
    function Model(): T.Session
      reads this
    {
      T.Session(if boundDb.None? then None else Some(boundDb.value.record.name), conn.Some?, inTransaction, tx)
    }

    /** What Handshake knows of the session. */
    function Names(): H.SessionBinding
      reads this
    {
      H.SessionBinding(boundDb, username, database)
    }

    ghost predicate Valid()
      reads this
    {
      inTransaction == tx.Some? && (tx.Some? ==> conn.Some?) && (conn.Some? ==> boundDb.Some?)
    }

    /** The tenant object a session can change: that of its connection. */
    function Tenants(): set<TenantDatabase>
      reads this
    {
      if conn.Some? then {conn.value} else {}
    }

    method Bind(db: Database) returns (ok: bool)
      requires Valid()
      modifies this`boundDb, this`username, this`database
      ensures Valid() && (Names(), ok) == H.BindSession(old(Names()), db)
    {
      if boundDb.Some? {
        return boundDb.value.record.name == db.record.name;
      }
      boundDb := Some(db);
      username, database := db.record.username, db.record.name;
      ok := true;
    }

    method SetDatabase(name: string)
      modifies this`database
      ensures database == name
    {
      database := name;
    }

    method BeginTransaction(tx: T.Tx)
      requires Valid() && conn.Some?
      modifies this`inTransaction, this`tx
      ensures Valid() && Model() == old(Model()).(inTransaction := true, tx := Some(tx))
    {
      this.inTransaction, this.tx := true, Some(tx);
    }

    /** The transaction is over whether or not the commit succeeds. */
    method CommitTransaction(ok: bool) returns (r: bool)
      requires Valid()
      modifies this`inTransaction, this`tx, Tenants()
      ensures Valid() && (old(tx).None? ==> !r && Model() == old(Model()))
      ensures conn.Some? ==>
                var o := T.Commit(id, boundDb.value.record.name, old(Model()), old(conn.value.state), ok);
                Model() == o.session && conn.value.state == o.tenant && r == o.ok
    {
      if tx.None? { return false; }
      conn.value.CommitTx(id, tx.value, ok);
      tx, inTransaction := None, false;
      r := ok;
    }

    method RollbackTransaction(ok: bool) returns (r: bool)
      requires Valid()
      modifies this`inTransaction, this`tx, Tenants()
      ensures Valid() && (old(tx).None? ==> !r && Model() == old(Model()))
      ensures conn.Some? && old(tx).Some? ==>
                var o := T.Rollback(id, old(Model()), old(conn.value.state), ok);
                Model() == o.session && conn.value.state == o.tenant && r == o.ok
      ensures conn.Some? && old(tx).None? ==> conn.value.state == old(conn.value.state)
    {
      if tx.None? { return false; }
      conn.value.RollbackTx(id);
      tx, inTransaction := None, false;
      r := ok;
    }

    method SetConnection(pool: TenantDatabase)
      requires Valid() && boundDb.Some?
      modifies this`conn
      ensures Valid() && conn == Some(pool)
    {
      conn := Some(pool);
    }

    /** An open transaction is rolled back and the connection returned. */
    method Close()
      requires Valid()
      modifies this`inTransaction, this`tx, this`conn, Tenants()
      ensures Valid() && conn.None? && tx.None? && !inTransaction
      ensures old(conn).Some? ==>
                var o := T.Close(id, old(Model()), old(conn.value.state));
                Model() == o.session && old(conn).value.state == o.tenant
    {
      if tx.Some? {
        conn.value.RollbackTx(id);
        tx, inTransaction := None, false;
      }
      if conn.Some? {
        conn.value.Release();
        conn := None;
      }
    }
  }

  class SessionManager {
    var sessions: map<string, Session>

    constructor ()
      ensures sessions == map[] && Valid()
    {
      sessions := map[];
    }

    /** Sessions are registered under their own id, hence once. */
    ghost predicate Valid()
      reads this, sessions.Values
    {
      forall id | id in sessions :: sessions[id].id == id && sessions[id].Valid()
    }

    /** Registers a new session; a session registered under the same id is forgotten, not closed. */
    method Create(id: string) returns (session: Session)
      requires Valid()
      modifies this
      ensures Valid() && fresh(session) && sessions == old(sessions)[id := session]
      ensures session.Model() == T.NEW_SESSION && session.Names() == H.NEW_SESSION_BINDING
    {
      session := new Session(id);
      sessions := sessions[id := session];
    }

    method Get(id: string) returns (r: Option<Session>)
      ensures r.Some? <==> id in sessions
      ensures r.Some? ==> r.value == sessions[id] && (Valid() ==> r.value.id == id)
    {
      r := if id in sessions then Some(sessions[id]) else None;
    }

    method Count() returns (n: nat)
      ensures n == |sessions.Keys|
    {
      n := |sessions|;
    }

    /** Closes and forgets one session: its transaction is rolled back, its connection returned. */
    method Remove(id: string)
      requires Valid()
      modifies this, if id in sessions then {sessions[id]} else {}, if id in sessions then sessions[id].Tenants() else {}
      ensures Valid() && sessions == old(sessions) - {id}
      ensures id in old(sessions) ==>
                var s := old(sessions)[id];
                s.conn.None? && s.tx.None?
                && (old(s.conn).Some? ==> old(s.conn).value.state == T.Close(id, old(s.Model()), old(s.conn.value.state)).tenant)
    {
      if id in sessions {
        sessions[id].Close();
        sessions := sessions - {id};
      }
    }
  }
}
