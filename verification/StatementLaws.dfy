/** What each statement promises its client: when it is acknowledged, what it then has done, and
    what it leaves alone.  And what the clients together can record of a run. */
module StatementLaws {
  import opened Options
  import opened Transactions
  import SP = SessionProperties

  // ---------------------------------------------------------------------------------------
  // One statement
  // ---------------------------------------------------------------------------------------

  /** The contents a statement works on: the transaction's view once it has one. */
  function Contents0(s: Session, t: Tenant): Contents {
    if s.tx.Some? && s.tx.value.view.Some? then s.tx.value.view.value.contents else t.contents
  }

  /** A new transaction is open exactly when a BEGIN is acknowledged, which it is outside a
      transaction, with a connection, if the driver begins one. */
  lemma BeginLaw(id: string, name: string, s: Session, t: Tenant, acquire: bool, ok: bool)
    ensures var o := Step(BeginTx(id, acquire, ok), name, s, t);
            && (o.ok <==> !s.inTransaction && (s.conn || acquire) && ok)
            && (o.ok ==> o.session.inTransaction && o.session.tx == Some(Tx(None)) && o.session.conn)
            && (!o.ok ==> o.session.inTransaction == s.inTransaction && o.session.tx == s.tx)
            && o.tenant.(inUse := t.inUse) == t && o.session.bound == s.bound
  {
  }

  /** An acknowledged write is done: outside a transaction its effect is the new contents, inside
      one the transaction's new view.  It is acknowledged exactly when there is a connection, no
      other writer, a current view, and SQLite and the driver accept it. */
  lemma ExecLaw(id: string, name: string, s: Session, t: Tenant, write: Write, acquire: bool, left: Trace, ok: bool)
    ensures var o := Step(ExecStmt(id, write, acquire, left, ok), name, s, t);
            && (o.ok <==>
                  && (s.conn || acquire) && ok && write(Contents0(s, t)).Some?
                  && (t.writer == None || (s.tx.Some? && t.writer == Some(id)))
                  && (s.tx.Some? && s.tx.value.view.Some? ==> s.tx.value.view.value.version == t.version))
            && (o.ok && s.tx.None? ==>
                  && o.tenant.contents == write(t.contents).value && o.tenant.version == t.version + 1
                  && o.tenant.writer == None && o.session.tx == None)
            && (o.ok && s.tx.Some? ==>
                  && o.session.tx == Some(Tx(Some(View(write(Contents0(s, t)).value, t.version))))
                  && o.tenant.contents == t.contents && o.tenant.version == t.version && o.tenant.writer == Some(id))
            && (!o.ok ==> o.tenant.contents == t.contents && o.tenant.version == t.version)
            && o.entry == if o.ok then Some(Wrote(id, name, write)) else None
  {
  }

  /** A query changes no contents; inside a transaction it fixes the view it has read. */
  lemma QueryLaw(id: string, name: string, s: Session, t: Tenant, acquire: bool, read: bool, ok: bool)
    ensures var o := Step(QueryStmt(id, acquire, read, ok), name, s, t);
            && (o.ok <==> (s.conn || acquire) && ok)
            && Seen(s, t) == Contents0(s, t)
            && (s.tx.None? ==> o.session.tx == None)
            && (s.tx.Some? && o.ok ==>
                  o.session.tx == Some(Tx(Some(if s.tx.value.view.Some? then s.tx.value.view.value else View(t.contents, t.version)))))
            && o.tenant.(inUse := t.inUse) == t && o.entry == None
  {
  }

  /** An acknowledged commit makes the view of a transaction that has the lock the contents; in
      either case the transaction is over and its lock free. */
  lemma CommitLaw(id: string, name: string, s: Session, t: Tenant, ok: bool)
    ensures var o := Step(CommitTx(id, ok), name, s, t);
            && (o.ok <==> s.tx.Some? && ok)
            && o.tenant.contents == (if o.ok && t.writer == Some(id) then Contents0(s, t) else t.contents)
            && (s.tx.Some? ==> o.session == s.(inTransaction := false, tx := None) && o.tenant.writer != Some(id))
            && (s.tx.None? ==> o.session == s && o.tenant == t)
            && (t.writer != Some(id) ==> o.tenant == t)
            && o.entry == if o.ok then Some(Committed(id, name)) else if s.tx.Some? then Some(Abandoned(id)) else None
  {
  }

  lemma RollbackLaw(id: string, name: string, s: Session, t: Tenant, ok: bool)
    requires s.inTransaction == s.tx.Some?
    ensures var o := Step(RollbackTx(id, ok), name, s, t);
            && (o.ok <==> s.inTransaction ==> ok)
            && o.session == s.(inTransaction := false, tx := None)
            && o.tenant == (if s.inTransaction && t.writer == Some(id) then t.(writer := None) else t)
            && o.entry == if s.inTransaction then Some(Abandoned(id)) else None
  {
  }

  /** A session that leaves gives up transaction, lock and connection. */
  lemma DisconnectLaw(id: string, name: string, s: Session, t: Tenant)
    requires s.inTransaction == s.tx.Some? && (s.tx.Some? ==> s.conn) && (s.conn ==> t.inUse > 0)
    ensures var o := Step(Disconnect(id), name, s, t);
            && o.session == s.(inTransaction := false, tx := None, conn := false)
            && o.tenant == t.(writer := if s.tx.Some? && t.writer == Some(id) then None else t.writer,
                              inUse := if s.conn then t.inUse - 1 else t.inUse)
            && o.entry == if s.tx.Some? then Some(Abandoned(id)) else None
  {
  }

  /** A connection is taken from the pool by the first statement that needs one, and kept. */
  lemma ConnectionLaw(e: Event, name: string, s: Session, t: Tenant)
    requires e.BeginTx? || e.ExecStmt? || e.QueryStmt?
    ensures var o := Step(e, name, s, t);
            && o.session.conn == (s.conn || (e.acquire && !(e.BeginTx? && s.inTransaction)))
            && o.tenant.inUse == t.inUse + Count(o.session.conn && !s.conn)
  {
  }

  // ---------------------------------------------------------------------------------------
  // What the clients can record
  // ---------------------------------------------------------------------------------------

  /** The answer a statement gets: false also when it is refused without a tenant. */
  function Told(w: World, e: Event): bool {
    if e.Connect? || e.Bind? || e.id !in w.sessions || w.sessions[e.id].bound.None?
       || w.sessions[e.id].bound.value !in w.tenants then false
    else
      var name := w.sessions[e.id].bound.value;
      Step(e, name, w.sessions[e.id], w.tenants[name]).ok
  }

  /** The answers of a run. */
  function Answers(w: World, es: seq<Event>): seq<bool>
    decreases |es|
  {
    if es == [] then [] else [Told(w, es[0])] + Answers(Next(w, es[0]), es[1..])
  }

  /** Whether the id is registered after the events. */
  function Known(es: seq<Event>, id: string): bool {
    if es == [] then false
    else
      var last := es[|es| - 1];
      if last == Connect(id) then true
      else if last == Disconnect(id) then false
      else Known(es[..|es| - 1], id)
  }

  /** The tenant the session is bound to: the first that exists, since it was registered. */
  function TenantOf(tenants: set<string>, es: seq<Event>, id: string): Option<string> {
    if es == [] then None
    else
      var before, last := es[..|es| - 1], es[|es| - 1];
      if last == Connect(id) || last == Disconnect(id) then None
      else if last.Bind? && last.id == id && Known(before, id) && TenantOf(tenants, before, id).None? && last.tenant in tenants
        then Some(last.tenant)
      else TenantOf(tenants, before, id)
  }

  /** What a client notes for a statement and its answer. */
  function Noted(h: History, e: Event, tenant: Option<string>, told: bool): Option<Entry> {
    match e
    case BeginTx(id, _, _) => if told then Some(Started(id)) else None
    case ExecStmt(id, write, _, _, _) => if told && tenant.Some? then Some(Wrote(id, tenant.value, write)) else None
    case CommitTx(id, _) =>
      if told && tenant.Some? then Some(Committed(id, tenant.value))
      else if Active(h, id) then Some(Abandoned(id))
      else None
    case RollbackTx(id, _) => if Active(h, id) then Some(Abandoned(id)) else None
    case Disconnect(id) => if Active(h, id) then Some(Abandoned(id)) else None
    case _ => None
  }

  /** The record of a run, from the statements and their answers alone. */
  function ClientRecord(tenants: set<string>, es: seq<Event>, answers: seq<bool>): History
    requires |answers| == |es|
  {
    if es == [] then []
    else
      var n := |es| - 1;
      var h := ClientRecord(tenants, es[..n], answers[..n]);
      Added(h, Noted(h, es[n], TenantOf(tenants, es[..n], es[n].id), answers[n]))
  }

  lemma {:induction false} AnswersThen(w: World, es: seq<Event>, e: Event)
    ensures |Answers(w, es)| == |es|
    ensures Answers(w, es + [e]) == Answers(w, es) + [Told(Run(w, es), e)]
    ensures Run(w, es + [e]) == Next(Run(w, es), e)
    decreases |es|
  {
    var all := es + [e];
    if es == [] {
      assert all[1..] == [];
    } else {
      assert all[1..] == es[1..] + [e];
      AnswersThen(Next(w, es[0]), es[1..], e);
    }
  }

  lemma {:induction false} FreshBefore(w: World, es: seq<Event>, e: Event)
    requires AllFresh(w, es + [e])
    ensures AllFresh(w, es) && Fresh(Run(w, es), e)
    decreases |es|
  {
    var all := es + [e];
    if es == [] {
      assert all[0] == e;
    } else {
      assert all[1..] == es[1..] + [e];
      FreshBefore(Next(w, es[0]), es[1..], e);
    }
  }

  /** Registration and binding, from the events. */
  ghost predicate BoundAsTold(w: World, tenants: set<string>, es: seq<Event>) {
    && w.tenants.Keys == tenants
    && forall id :: (id in w.sessions <==> Known(es, id)) && (id in w.sessions ==> w.sessions[id].bound == TenantOf(tenants, es, id))
                    && (id !in w.sessions ==> TenantOf(tenants, es, id) == None)
  }

  lemma BoundStep(w: World, tenants: set<string>, before: seq<Event>, e: Event)
    requires BoundAsTold(w, tenants, before)
    ensures BoundAsTold(Next(w, e), tenants, before + [e])
  {
    var es := before + [e];
    assert es[..|es| - 1] == before && es[|es| - 1] == e;
    var v := Next(w, e);
    forall id
      ensures (id in v.sessions <==> Known(es, id)) && (id in v.sessions ==> v.sessions[id].bound == TenantOf(tenants, es, id))
              && (id !in v.sessions ==> TenantOf(tenants, es, id) == None)
    {
      assert id in w.sessions <==> Known(before, id);
    }
  }

  /** The history of every run is what its clients can record; with CommittedIsReplay, the committed
      contents are what the acknowledged statements make them. */
  lemma {:induction false} HistoryIsClientRecord(init: map<string, Contents>, es: seq<Event>)
    requires AllFresh(SP.Initial(init), es)
    ensures var w, answers := Run(SP.Initial(init), es), Answers(SP.Initial(init), es);
            && |answers| == |es| && BoundAsTold(w, init.Keys, es)
            && w.history == ClientRecord(init.Keys, es, answers)
    decreases |es|
  {
    var w0 := SP.Initial(init);
    if es != [] {
      var n := |es| - 1;
      var before, e := es[..n], es[n];
      assert es == before + [e];
      FreshBefore(w0, before, e);
      HistoryIsClientRecord(init, before);
      AnswersThen(w0, before, e);
      var w := Run(w0, before);
      SP.InitialOk(init);
      RunKeeps(w0, init, before);
      BoundStep(w, init.Keys, before, e);
      NotedStep(w, init, e);
      assert Answers(w0, es)[..n] == Answers(w0, before);
    }
  }

  lemma NotedStep(w: World, init: map<string, Contents>, e: Event)
    requires Inv(w, init)
    ensures var tenant := if e.id in w.sessions then w.sessions[e.id].bound else None;
            Next(w, e).history == Added(w.history, Noted(w.history, e, tenant, Told(w, e)))
  {
    if e.id in w.sessions {
      assert SessionOk(w.sessions[e.id], w.tenants, w.history, e.id);
    }
  }

  /** So the committed contents of every tenant are its initial contents with the writes replayed
      that its clients were told had happened, outside transactions and in committed ones. */
  lemma ContentsAreWhatWasTold(init: map<string, Contents>, es: seq<Event>, name: string)
    requires AllFresh(SP.Initial(init), es) && name in init
    ensures var w, answers := Run(SP.Initial(init), es), Answers(SP.Initial(init), es);
            && name in w.tenants && |answers| == |es|
            && w.tenants[name].contents == Replay(init[name], Log(ClientRecord(init.Keys, es, answers), name))
  {
    HistoryIsClientRecord(init, es);
    SP.CommittedIsReplay(init, es);
  }
}
