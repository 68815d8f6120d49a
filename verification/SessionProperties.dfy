/** What whole runs of sessions over tenant databases guarantee. */
module SessionProperties {
  import opened Options
  import opened Transactions

  /** No session yet, every tenant with its initial contents. */
  function Initial(init: map<string, Contents>): World {
    World(map name | name in init :: Tenant(init[name], 0, None, 0), map[], [])
  }

  lemma InitialOk(init: map<string, Contents>)
    ensures Inv(Initial(init), init)
  {
  }

  /** Atomicity: whatever the sessions do, in whatever interleaving and with whatever failures,
      each tenant's committed contents are its initial contents with exactly the writes replayed
      that were acknowledged outside a transaction or inside one whose commit was acknowledged,
      each transaction's writes together, in commit order. */
  lemma CommittedIsReplay(init: map<string, Contents>, es: seq<Event>)
    requires AllFresh(Initial(init), es)
    ensures var w := Run(Initial(init), es);
            forall name | name in w.tenants ::
              name in init && w.tenants[name].contents == Replay(init[name], Log(w.history, name))
  {
    InitialOk(init);
    RunKeeps(Initial(init), init, es);
    var w := Run(Initial(init), es);
    forall name | name in w.tenants
      ensures name in init && w.tenants[name].contents == Replay(init[name], Log(w.history, name))
    {
      assert TenantOk(w, init, name);
    }
  }

  /** A tenant's committed contents change only by a write outside a transaction or by an
      acknowledged commit, of a session bound to that tenant. */
  lemma OnlyCommitsChange(w: World, e: Event, name: string)
    requires name in w.tenants
    ensures name in Next(w, e).tenants
    ensures Next(w, e).tenants[name].contents != w.tenants[name].contents ==>
              && e.id in w.sessions && w.sessions[e.id].bound == Some(name)
              && (if w.sessions[e.id].tx.Some? then e.CommitTx? && e.ok else e.ExecStmt? && e.ok)
  {
  }

  /** A rollback, a failed commit or a disconnect leaves no effect of the open transaction: no
      tenant's contents change, nothing is added to what must be replayed, and the session
      holds no lock any more. */
  lemma AbandonedLeavesNothing(w: World, init: map<string, Contents>, e: Event, name: string)
    requires Inv(w, init) && name in w.tenants
    requires e.RollbackTx? || e.Disconnect? || (e.CommitTx? && !e.ok)
    ensures var v := Next(w, e);
            && v.tenants.Keys == w.tenants.Keys
            && v.tenants[name].contents == w.tenants[name].contents
            && Log(v.history, name) == Log(w.history, name)
            && v.tenants[name].writer != Some(e.id)
            && !Active(v.history, e.id) && Pending(v.history, e.id) == []
  {
    var v := Next(w, e);
    assert TenantOk(w, init, name);
    if e.id !in w.sessions {
      NotActiveNothingPending(w.history, e.id);
    } else {
      var s := w.sessions[e.id];
      assert SessionOk(s, w.tenants, w.history, e.id);
      if s.bound.None? {
        NotActiveNothingPending(w.history, e.id);
      } else {
        var o := Step(e, s.bound.value, s, w.tenants[s.bound.value]);
        if o.entry.Some? {
          AddedEntry(w.history, o.entry, e.id, name);
        } else {
          NotActiveNothingPending(w.history, e.id);
        }
      }
    }
  }

  lemma {:induction false} NotActiveNothingPending(h: History, id: string)
    requires !Active(h, id)
    ensures Pending(h, id) == []
  {
    if h != [] {
      var before := h[..|h| - 1];
      if h[|h| - 1].id != id {
        NotActiveNothingPending(before, id);
      }
    }
  }

  /** Inside a transaction a query reads the transaction's own acknowledged writes, on top of
      the committed contents once it has written. */
  lemma ReadsOwnWrites(w: World, init: map<string, Contents>, id: string)
    requires Inv(w, init) && id in w.sessions && w.sessions[id].tx.Some?
    ensures var name := w.sessions[id].bound;
            name.Some? && name.value in w.tenants
            && (Pending(w.history, id) != [] ==>
                  Seen(w.sessions[id], w.tenants[name.value])
                  == Replay(w.tenants[name.value].contents, Pending(w.history, id)))
  {
  }

  /** After its first statement a transaction reads the same contents, whatever other sessions
      write and commit, until it writes itself. */
  lemma RepeatableRead(w: World, init: map<string, Contents>, id: string, e: Event)
    requires Inv(w, init) && id in w.sessions && w.sessions[id].tx.Some? && w.sessions[id].tx.value.view.Some?
    requires e.id != id || e.QueryStmt?
    ensures var v, name := Next(w, e), w.sessions[id].bound.value;
            && id in v.sessions && v.sessions[id].bound == Some(name) && name in v.tenants && name in w.tenants
            && Seen(v.sessions[id], v.tenants[name]) == Seen(w.sessions[id], w.tenants[name])
  {
    assert SessionOk(w.sessions[id], w.tenants, w.history, id);
  }

  /** A session's statements leave every tenant but its own as it was, connections included. */
  lemma OtherTenantsUntouched(w: World, e: Event, name: string)
    requires name in w.tenants && (e.id in w.sessions ==> w.sessions[e.id].bound != Some(name))
    ensures name in Next(w, e).tenants && Next(w, e).tenants[name] == w.tenants[name]
  {
  }

  /** Conservation over every run: the connections a tenant's pool has handed out are exactly
      those of the registered sessions bound to it; a session holds at most one, is in a
      transaction exactly when it has one, and then holds a connection. */
  lemma ConnectionsConserved(init: map<string, Contents>, es: seq<Event>)
    requires AllFresh(Initial(init), es)
    ensures var w := Run(Initial(init), es);
            && (forall name | name in w.tenants :: w.tenants[name].inUse == |Holders(w.sessions, name)|)
            && (forall id | id in w.sessions ::
                  var s := w.sessions[id];
                  s.inTransaction == s.tx.Some? && (s.tx.Some? ==> s.conn) && (s.conn ==> s.bound.Some?))
  {
    InitialOk(init);
    RunKeeps(Initial(init), init, es);
    var w := Run(Initial(init), es);
    forall name | name in w.tenants ensures w.tenants[name].inUse == |Holders(w.sessions, name)| {
      assert TenantOk(w, init, name);
    }
    forall id | id in w.sessions
      ensures var s := w.sessions[id];
              s.inTransaction == s.tx.Some? && (s.tx.Some? ==> s.conn) && (s.conn ==> s.bound.Some?)
    {
      assert SessionOk(w.sessions[id], w.tenants, w.history, id);
    }
  }

  /** Removing a session returns exactly the connection it held. */
  lemma DisconnectReturns(w: World, init: map<string, Contents>, id: string, name: string)
    requires Inv(w, init) && id in w.sessions && w.sessions[id].bound == Some(name)
    ensures var v := Next(w, Disconnect(id));
            && id !in v.sessions && name in w.tenants && name in v.tenants
            && v.tenants[name].inUse + Count(w.sessions[id].conn) == w.tenants[name].inUse
  {
    assert SessionOk(w.sessions[id], w.tenants, w.history, id);
    HolderCounts(w, init, id, name);
  }

  /** Without fresh ids conservation fails: registering an id keeps it exactly when the id is not
      that of a registered session with a connection, which the new session would replace. */
  lemma ConnectConservesIff(w: World, init: map<string, Contents>, id: string)
    requires Inv(w, init)
    ensures (forall name | name in w.tenants ::
               Next(w, Connect(id)).tenants[name].inUse == |Holders(Next(w, Connect(id)).sessions, name)|)
       <==> !(id in w.sessions && w.sessions[id].conn)
  {
    var v := Next(w, Connect(id));
    forall name | name in w.tenants
      ensures w.tenants[name].inUse == |Holders(w.sessions, name)|
      ensures |Holders(v.sessions, name)|
              + Count(id in w.sessions && w.sessions[id].bound == Some(name) && w.sessions[id].conn)
           == |Holders(w.sessions, name)|
    {
      assert TenantOk(w, init, name);
      HoldersAfter(w.sessions, v.sessions, id, name);
    }
    if id in w.sessions && w.sessions[id].conn {
      assert SessionOk(w.sessions[id], w.tenants, w.history, id);
      var name := w.sessions[id].bound.value;
      assert v.tenants[name].inUse != |Holders(v.sessions, name)|;
    }
  }

  /** It happens: a session takes a connection, its id is drawn again, and a connection is out
      that no session holds. */
  lemma ConnectionLost(init: map<string, Contents>, id: string, name: string)
    requires name in init
    ensures var w := Run(Initial(init), [Connect(id), Bind(id, name), QueryStmt(id, true, true, true), Connect(id)]);
            name in w.tenants && w.tenants[name].inUse == 1 && Holders(w.sessions, name) == {}
  {
    var w := Initial(init);
    var w1 := Next(w, Connect(id));
    var w2 := Next(w1, Bind(id, name));
    var w3 := Next(w2, QueryStmt(id, true, true, true));
    var es := [QueryStmt(id, true, true, true), Connect(id)];
    assert es[1..] == [Connect(id)] && [Connect(id)][1..] == [];
    assert Run(w3, [Connect(id)]) == Next(w3, Connect(id));
    assert Run(w2, es) == Run(w3, [Connect(id)]);
    assert [Connect(id), Bind(id, name), QueryStmt(id, true, true, true), Connect(id)] == [Connect(id), Bind(id, name)] + es;
    TwoThen(w, Connect(id), Bind(id, name), es);
    assert w3.tenants[name].inUse == 1;
  }

  lemma TwoThen(w: World, a: Event, b: Event, es: seq<Event>)
    ensures Run(w, [a, b] + es) == Run(Next(Next(w, a), b), es)
  {
    assert ([a, b] + es)[1..] == [b] + es && ([b] + es)[1..] == es;
  }

  /** Once no session is left, no connection is handed out and no tenant is locked. */
  lemma EmptyReleasesAll(w: World, init: map<string, Contents>)
    requires Inv(w, init) && w.sessions == map[]
    ensures forall name | name in w.tenants :: w.tenants[name].inUse == 0 && w.tenants[name].writer.None?
  {
  }
}
