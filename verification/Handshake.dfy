/** The handshake of one MySQL connection against the tenant store: a database may be requested
    and credentials looked up in any order and number before the connection is bound, while the
    store goes on creating, importing, closing and crashing. */
module Handshake {
  import opened Options
  import opened Catalog
  import TenantStore
  import StoreProperties

  // ---------------------------------------------------------------------------------------
  // The parts of a connection that name a tenant
  // ---------------------------------------------------------------------------------------

  /** The connection binding of the authentication layer. */
  datatype Binding = Binding(requested: string, candidate: Option<Database>, finalized: bool, database: Option<Database>)

  /** The session's own record of its tenant. */
  datatype SessionBinding = SessionBinding(boundDb: Option<Database>, username: string, database: string)

  /** One connection: binding, session and handler. */
  datatype Connection = Connection(binding: Binding, session: SessionBinding, db: Option<Database>)

  const NEW_BINDING := Binding("", None, false, None)
  const NEW_SESSION_BINDING := SessionBinding(None, "", "")
  const NEW_CONNECTION := Connection(NEW_BINDING, NEW_SESSION_BINDING, None)

  /** Before finalization the name is only recorded; afterwards it must be the bound one. */
  function SetRequestedDB(b: Binding, name: string): (Binding, bool) {
    if b.finalized then (b, b.database.Some? && name == b.database.value.record.name)
    else (b.(requested := name), true)
  }

  function FinalizeBinding(b: Binding, username: string): (Binding, Option<Database>) {
    if b.finalized then (b, b.database)
    else if b.candidate.None? || b.candidate.value.record.username != username then (b, None)
    else if b.requested != "" && b.requested != b.candidate.value.record.name then (b, None)
    else (b.(database := b.candidate, finalized := true), b.candidate)
  }

  function BindSession(s: SessionBinding, db: Database): (SessionBinding, bool) {
    if s.boundDb.Some? then (s, s.boundDb.value.record.name == db.record.name)
    else (SessionBinding(Some(db), db.record.username, db.record.name), true)
  }

  /** The handler's Finalize: binding first, then the session, then the handler itself. */
  function Finish(c: Connection, username: string): (Connection, bool) {
    var (b, db) := FinalizeBinding(c.binding, username);
    if db.None? then (c.(binding := b), false)
    else
      var (s, ok) := BindSession(c.session, db.value);
      if !ok then (c.(binding := b, session := s), false)
      else (Connection(b, s, db), true)
  }

  /** COM_INIT_DB, USE and the database named in the handshake. */
  function SelectDatabase(c: Connection, name: string): (Connection, bool) {
    if c.db.None? then
      var (b, ok) := SetRequestedDB(c.binding, name);
      (c.(binding := b), ok)
    else if name != c.db.value.record.name then (c, false)
    else (c.(session := c.session.(database := name)), true)
  }

  /** An unknown user is told from a lookup that failed. */
  datatype Answer<+T> = Known(value: T) | Unknown | Failed

  /** The store's lookup by username: it fails once the store is closed. */
  function Lookup(s: TenantStore.Store, username: string): Answer<Database> {
    if s.process.None? || s.process.value.closed || s.process.value.index.None? then Failed
    else if username in s.process.value.index.value.byUser then Known(s.process.value.index.value.byUser[username])
    else Unknown
  }

  /** Looking up credentials stages a candidate; a mismatch with the requested name looks like
      an unknown user.  The result is the password to check. */
  function GetCredential(b: Binding, found: Answer<Database>): (Binding, Answer<string>) {
    match found
    case Failed => (b, Failed)
    case Unknown => (b, Unknown)
    case Known(db) =>
      if b.requested != "" && b.requested != db.record.name then (b, Unknown)
      else (b.(candidate := Some(db)), Known(db.record.password))
  }

  // ---------------------------------------------------------------------------------------
  // Runs of a connection beside the store
  // ---------------------------------------------------------------------------------------

  datatype Event =
    | UseDB(name: string)
    | Authenticate(username: string)
    | Finalize(username: string)
    | StoreStep(e: TenantStore.Event)

  datatype State = State(store: TenantStore.Store, conn: Connection)

  const START := State(TenantStore.EMPTY_ROOT, NEW_CONNECTION)

  function Next(s: State, e: Event): State {
    match e
    case UseDB(name) => s.(conn := SelectDatabase(s.conn, name).0)
    case Authenticate(u) => s.(conn := s.conn.(binding := GetCredential(s.conn.binding, Lookup(s.store, u)).0))
    case Finalize(u) => s.(conn := Finish(s.conn, u).0)
    case StoreStep(x) => State(TenantStore.Next(s.store, x), if x.Crash? then NEW_CONNECTION else s.conn)
  }

  function Run(s: State, es: seq<Event>): State
    decreases |es|
  {
    if es == [] then s else Run(Next(s, es[0]), es[1..])
  }

  ghost predicate Inv(s: State) {
    var c := s.conn;
    && TenantStore.Inv(s.store)
    && (c.binding.candidate.Some? ==> c.binding.candidate.value.record in s.store.rows)
    && c.binding.database == c.session.boundDb == c.db
    && c.binding.finalized == c.db.Some?
    && (c.db.Some? ==>
          var r := c.db.value.record;
          && r in s.store.rows && c.session.username == r.username && c.session.database == r.name
          && (c.binding.requested == "" || c.binding.requested == r.name))
  }

  lemma LookupCommitted(s: TenantStore.Store, username: string)
    requires TenantStore.Inv(s) && Lookup(s, username).Known?
    ensures var r := Lookup(s, username).value.record; r in s.rows && r.username == username
  {
    var i := s.process.value.index.value;
    var db := i.byUser[username];
    assert i.byName[db.record.name].record in Rows(i);
    assert Rows(i) <= s.rows;
  }

  lemma NextKeeps(s: State, e: Event)
    requires Inv(s)
    ensures Inv(Next(s, e))
  {
    match e
    case UseDB(name) =>
    case Authenticate(u) =>
      if Lookup(s.store, u).Known? { LookupCommitted(s.store, u); }
    case Finalize(u) =>
    case StoreStep(x) =>
      TenantStore.NextKeeps(s.store, x);
      if s.conn.binding.candidate.Some? { StoreProperties.RowKept(s.store, x, s.conn.binding.candidate.value.record); }
      if s.conn.db.Some? { StoreProperties.RowKept(s.store, x, s.conn.db.value.record); }
  }

  lemma {:induction false} RunKeeps(s: State, es: seq<Event>)
    requires Inv(s)
    ensures Inv(Run(s, es))
    decreases |es|
  {
    if es != [] {
      NextKeeps(s, es[0]);
      RunKeeps(Next(s, es[0]), es[1..]);
    }
  }

  // ---------------------------------------------------------------------------------------
  // Isolation
  // ---------------------------------------------------------------------------------------

  /** After any events, a bound connection has one tenant: binding, session and handler name the
      same committed database, the session carries its username, and the requested name was
      empty or equal to it. */
  lemma OneTenant(es: seq<Event>)
    requires Run(START, es).conn.db.Some?
    ensures var s := Run(START, es);
            var r := s.conn.db.value.record;
            && s.conn.binding.database == s.conn.session.boundDb == s.conn.db
            && s.conn.session.username == r.username && s.conn.session.database == r.name
            && (s.conn.binding.requested == "" || s.conn.binding.requested == r.name)
            && r in s.store.rows && r.status == Ready
  {
    RunKeeps(START, es);
  }

  /** No later event moves a bound connection to another tenant, be it another USE, another
      user's credentials or another Finalize. */
  lemma {:induction false} BoundForGood(s: State, es: seq<Event>)
    requires Inv(s) && s.conn.db.Some? && forall e | e in es :: e != StoreStep(TenantStore.Crash)
    ensures var t := Run(s, es).conn;
            && t.db == s.conn.db && t.binding.database == s.conn.binding.database && t.session == s.conn.session
    decreases |es|
  {
    if es != [] {
      NextKeeps(s, es[0]);
      assert forall e | e in es[1..] :: e in es;
      assert es[0] in es;
      BoundForGood(Next(s, es[0]), es[1..]);
    }
  }

  /** A database other than the bound one can never be selected again, and the bound one always. */
  lemma SelectedIffBound(s: State, name: string)
    requires Inv(s) && s.conn.db.Some?
    ensures SelectDatabase(s.conn, name).1 <==> name == s.conn.db.value.record.name
    ensures SelectDatabase(s.conn, name).0 == s.conn
  {
  }

  /** Finalizing again succeeds whatever username is given: the name is checked only once. */
  lemma FinalizedOnce(s: State, username: string)
    requires Inv(s) && s.conn.db.Some?
    ensures Finish(s.conn, username) == (s.conn, true)
  {
  }

  lemma {:induction false} RowsOnlyGrow(s: State, es: seq<Event>, r: Record)
    requires Inv(s) && r in s.store.rows
    ensures r in Run(s, es).store.rows
    decreases |es|
  {
    if es != [] {
      NextKeeps(s, es[0]);
      match es[0]
      case StoreStep(x) =>
        StoreProperties.RowKept(s.store, x, r);
        RowsOnlyGrow(Next(s, es[0]), es[1..], r);
      case _ =>
        RowsOnlyGrow(Next(s, es[0]), es[1..], r);
    }
  }

  /** The password handed out for a username is the one of the tenant that finalizing with that
      username binds, however many requests, other lookups, new tenants, closes, crashes and
      restarts of the store come in between. */
  lemma PasswordGuardsTenant(before: seq<Event>, between: seq<Event>, username: string)
    requires var s := Run(START, before);
             && GetCredential(s.conn.binding, Lookup(s.store, username)).1.Known?
    requires var t := Run(Next(Run(START, before), Authenticate(username)), between);
             t.conn.db.None? && Finish(t.conn, username).1
    ensures var s := Run(START, before);
            var t := Run(Next(s, Authenticate(username)), between);
            && Finish(t.conn, username).0.db.Some?
            && Finish(t.conn, username).0.db.value.record.username == username
            && GetCredential(s.conn.binding, Lookup(s.store, username)).1
               == Known(Finish(t.conn, username).0.db.value.record.password)
  {
    var s := Run(START, before);
    RunKeeps(START, before);
    LookupCommitted(s.store, username);
    var s1 := Next(s, Authenticate(username));
    NextKeeps(s, Authenticate(username));
    var shown := Lookup(s.store, username).value.record;
    RowsOnlyGrow(s1, between, shown);
    RunKeeps(s1, between);
    var t := Run(s1, between);
    NextKeeps(t, Finalize(username));
    assert Unique(t.store.rows);
  }

  // ---------------------------------------------------------------------------------------
  // The connection, from the events alone
  // ---------------------------------------------------------------------------------------

  /** The entry an open store has for a username. */
  function Entry(s: TenantStore.Store, username: string): Option<Database> {
    if s.process.Some? && !s.process.value.closed && s.process.value.index.Some?
       && username in s.process.value.index.value.byUser then Some(s.process.value.index.value.byUser[username])
    else None
  }

  /** The name requested last, as long as the connection was not bound. */
  function Requested(es: seq<Event>): string
    decreases |es|
  {
    if es == [] then ""
    else
      var before := es[..|es| - 1];
      match es[|es| - 1]
      case UseDB(name) => if BoundTo(before).None? then name else Requested(before)
      case StoreStep(x) => if x.Crash? then "" else Requested(before)
      case _ => Requested(before)
  }

  /** The tenant whose credentials were handed out last. */
  function Staged(es: seq<Event>): Option<Database>
    decreases |es|
  {
    if es == [] then None
    else
      var before := es[..|es| - 1];
      match es[|es| - 1]
      case Authenticate(u) =>
        var db := Entry(Run(START, before).store, u);
        if db.Some? && Requested(before) in {"", db.value.record.name} then db else Staged(before)
      case StoreStep(x) => if x.Crash? then None else Staged(before)
      case _ => Staged(before)
  }

  /** The tenant of the first Finalize with the username of the staged tenant and no other name
      requested. */
  function BoundTo(es: seq<Event>): Option<Database>
    decreases |es|
  {
    if es == [] then None
    else
      var before := es[..|es| - 1];
      match es[|es| - 1]
      case Finalize(u) =>
        var db := Staged(before);
        if BoundTo(before).None? && db.Some? && db.value.record.username == u
           && Requested(before) in {"", db.value.record.name} then db
        else BoundTo(before)
      case StoreStep(x) => if x.Crash? then None else BoundTo(before)
      case _ => BoundTo(before)
  }

  ghost predicate AsTold(c: Connection, es: seq<Event>) {
    && c.binding.requested == Requested(es) && c.binding.candidate == Staged(es) && c.db == BoundTo(es)
    && c.binding.database == BoundTo(es) && c.session.boundDb == BoundTo(es)
  }

  /** A connection is what its events say: the last name requested before binding, the last
      credentials handed out, the tenant bound. */
  lemma {:induction false} ConnectionIsHistory(es: seq<Event>)
    ensures AsTold(Run(START, es).conn, es)
    decreases |es|
  {
    if es != [] {
      var before, e := es[..|es| - 1], es[|es| - 1];
      assert es == before + [e];
      ConnectionIsHistory(before);
      RunThen(START, before, e);
      RunKeeps(START, before);
      match e
      case UseDB(name) => UseStep(before, name);
      case Authenticate(u) => AuthenticateStep(before, u);
      case Finalize(u) => FinalizeStep(before, u);
      case StoreStep(x) => StoreStepStep(before, x);
    }
  }

  lemma UseStep(before: seq<Event>, name: string)
    requires AsTold(Run(START, before).conn, before) && Inv(Run(START, before))
    ensures AsTold(SelectDatabase(Run(START, before).conn, name).0, before + [UseDB(name)])
  {
    assert (before + [UseDB(name)])[..|before|] == before;
  }

  lemma AuthenticateStep(before: seq<Event>, u: string)
    requires AsTold(Run(START, before).conn, before) && Inv(Run(START, before))
    ensures var s := Run(START, before);
            AsTold(s.conn.(binding := GetCredential(s.conn.binding, Lookup(s.store, u)).0), before + [Authenticate(u)])
  {
    assert (before + [Authenticate(u)])[..|before|] == before;
  }

  lemma FinalizeStep(before: seq<Event>, u: string)
    requires AsTold(Run(START, before).conn, before) && Inv(Run(START, before))
    ensures AsTold(Finish(Run(START, before).conn, u).0, before + [Finalize(u)])
  {
    assert (before + [Finalize(u)])[..|before|] == before;
  }

  lemma StoreStepStep(before: seq<Event>, x: TenantStore.Event)
    requires AsTold(Run(START, before).conn, before)
    ensures AsTold(if x.Crash? then NEW_CONNECTION else Run(START, before).conn, before + [StoreStep(x)])
  {
    assert (before + [StoreStep(x)])[..|before|] == before;
  }

  lemma {:induction false} RunThen(s: State, es: seq<Event>, e: Event)
    ensures Run(s, es + [e]) == Next(Run(s, es), e)
    decreases |es|
  {
    if es == [] {
      assert ([] + [e])[1..] == [];
    } else {
      assert (es + [e])[1..] == es[1..] + [e];
      RunThen(Next(s, es[0]), es[1..], e);
    }
  }

  /** A bound connection is the tenant the client asked for last before it was bound, if it asked. */
  lemma BoundAsRequested(es: seq<Event>)
    requires Run(START, es).conn.db.Some?
    ensures Requested(es) in {"", Run(START, es).conn.db.value.record.name}
  {
    ConnectionIsHistory(es);
    RunKeeps(START, es);
  }

  /** The answer to a credential lookup: an error exactly when the store is closed, the password
      exactly when the username is indexed and no other database was asked for last. */
  lemma AuthenticateAnswer(es: seq<Event>, username: string)
    ensures var s := Run(START, es);
            var answer := GetCredential(s.conn.binding, Lookup(s.store, username)).1;
            var db := Entry(s.store, username);
            && (answer.Failed? <==> s.store.process.None? || s.store.process.value.closed)
            && (answer.Known? <==> db.Some? && Requested(es) in {"", db.value.record.name})
            && (answer.Known? ==> answer.value == db.value.record.password)
  {
    ConnectionIsHistory(es);
    RunKeeps(START, es);
  }

  /** The answer to Finalize before the connection is bound. */
  lemma FinalizeAnswer(es: seq<Event>, username: string)
    requires Run(START, es).conn.db.None?
    ensures var c, db := Run(START, es).conn, Staged(es);
            && (Finish(c, username).1 <==>
                  db.Some? && db.value.record.username == username && Requested(es) in {"", db.value.record.name})
            && (Finish(c, username).0.db == if Finish(c, username).1 then db else None)
  {
    ConnectionIsHistory(es);
    RunKeeps(START, es);
  }

  /** The answer to a request for a database: before binding it is accepted, afterwards exactly the
      bound one is. */
  lemma UseAnswer(es: seq<Event>, name: string)
    ensures SelectDatabase(Run(START, es).conn, name).1
       <==> BoundTo(es).None? || name == BoundTo(es).value.record.name
  {
    ConnectionIsHistory(es);
    RunKeeps(START, es);
  }
}
