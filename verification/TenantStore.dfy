/** The tenant store as a transition system: the steps of opening the store, of one Create or
    Import, and of closing it, with the outcome of every system call chosen by the event, plus
    a crash that may come between any two steps. */
module TenantStore {
  import opened Options
  import opened Catalog

  // ---------------------------------------------------------------------------------------
  // State
  // ---------------------------------------------------------------------------------------

  datatype Kind = Create | Import

  /** How far the one Create or Import under the creation lock has come. */
  datatype At =
    | Checked                 // the closed flag was read
    | Began                   // catalog transaction open
    | Inserted                // row inserted as creating, in the transaction
    | FileMade                // tenant file written
    | Validating(pool: nat)   // validation pool open
    | Validated               // validation pool closed
    | Marked                  // row updated to ready, in the transaction
    | Committed               // transaction committed
    | Opened(final: nat)      // tenant pool open, not yet published

  datatype Op = Op(kind: Kind, record: Record, data: string, at: At)

  /** How far opening the store has come. */
  datatype Phase =
    | Reconciling(names: set<string>)
    | Loading(rows: set<Record>)
    | Publishing(rest: set<Record>, db: Database)
    | OpenFailed
    | Serving

  datatype Fault = NilMapWrite | NilCatalogHandle

  /** A running process: `index` is None once Close has set both maps to nil, `handle` says
      whether the catalog handle is non-nil, pools 0 to poolCount - 1 have been opened. */
  datatype Process = Process(phase: Phase, index: Option<Index>, closed: bool, handle: bool,
                             op: Option<Op>, poolCount: nat, shut: set<nat>, faults: set<Fault>)

  /** The durable state and the process, if one runs.  `rows` are the committed rows. */
  datatype Store = Store(rows: set<Record>, files: Files, process: Option<Process>)

  const EMPTY_ROOT := Store({}, map[], None)

  datatype Event =
    // Open
    | Boot
    | ReconcileRow(name: string, stuck: set<Path>, ok: bool)
    | ReconcileDone(ok: bool)
    | LoadRow(row: Record, image: FileImage, ok: bool)
    | PublishRow
    | LoadDone(ok: bool)
    // Create and Import
    | StartOp(kind: Kind, record: Record, data: string)
    | Begin(ok: bool)
    | Insert(ok: bool)
    | MakeFile(ok: bool, partial: Option<string>)
    | Validate(ok: bool, image: FileImage, stuck: set<Path>)
    | CloseValidation(ok: bool)
    | MarkReady(ok: bool, stuck: set<Path>)
    | Commit(ok: bool, stuck: set<Path>)
    | OpenPool(ok: bool, image: FileImage)
    | PublishNew
    // the rest of the process
    | CloseStore
    | TenantWrites(name: string, image: FileImage)
    | Crash

  // ---------------------------------------------------------------------------------------
  // Steps.  An event that the state does not allow changes nothing.
  // ---------------------------------------------------------------------------------------

  function PublishedPools(i: Option<Index>): set<nat> {
    if i.None? then {} else Pools(i.value)
  }

  /** Close: idempotent, closes every published pool, drops both maps and the handle. */
  function Closed(p: Process): Process {
    if p.closed then p
    else p.(closed := true, index := None, handle := false, shut := p.shut + PublishedPools(p.index))
  }

  function Failed(p: Process): Process {
    Closed(p).(phase := OpenFailed)
  }

  function Started(rows: set<Record>): Process {
    Process(Reconciling(set r | r in WithStatus(rows, Creating) :: r.name),
            Some(EMPTY_INDEX), false, true, None, 0, {}, {})
  }

  /** DELETE FROM databases WHERE name = ? AND status = 'creating'. */
  function DeleteCreating(rows: set<Record>, name: string): set<Record> {
    set r | r in rows && !(r.name == name && r.status == Creating)
  }

  function ReconcileStep(s: Store, p: Process, names: set<string>, e: Event): Store {
    match e
    case ReconcileRow(name, stuck, ok) =>
      if name !in names then s
      else
        var cleaned := s.(files := Remove(s.files, TenantPaths(name), stuck));
        if !ok then cleaned.(process := Some(Failed(p)))
        else cleaned.(rows := DeleteCreating(s.rows, name),
                      process := Some(p.(phase := Reconciling(names - {name}))))
    case ReconcileDone(ok) =>
      if !ok then s.(process := Some(Failed(p)))
      else if names != {} then s
      else s.(process := Some(p.(phase := Loading(WithStatus(s.rows, Ready)))))
    case _ => s
  }

  function LoadStep(s: Store, p: Process, rest: set<Record>, e: Event): Store {
    match e
    case LoadRow(row, image, ok) =>
      if row !in rest then s
      else if row.created.None? || DbPath(row.name) !in s.files then s.(process := Some(Failed(p)))
      else
        var touched := s.(files := Touch(s.files, row.name, image));
        if !ok then touched.(process := Some(Failed(p)))
        else touched.(process := Some(p.(phase := Publishing(rest - {row}, Database(row, DbPath(row.name), p.poolCount)),
                                         poolCount := p.poolCount + 1)))
    case LoadDone(ok) =>
      if !ok then s.(process := Some(Failed(p)))
      else if rest != {} then s
      else s.(process := Some(p.(phase := Serving)))
    case _ => s
  }

  function PublishStep(s: Store, p: Process, rest: set<Record>, db: Database): Store {
    if p.index.None? then s.(process := Some(p.(faults := p.faults + {NilMapWrite})))
    else
      var i := Publish(p.index.value, db);
      if i.None? then s.(process := Some(Failed(p.(shut := p.shut + {db.pool}))))
      else s.(process := Some(p.(phase := Loading(rest), index := i)))
  }

  function OpenStep(s: Store, p: Process, e: Event): Store {
    match p.phase
    case Reconciling(names) => ReconcileStep(s, p, names, e)
    case Loading(rest) => LoadStep(s, p, rest, e)
    case Publishing(rest, db) => if e.PublishRow? then PublishStep(s, p, rest, db) else s
    case _ => s
  }

  /** The operation ends; its catalog transaction, if not committed, is rolled back. */
  function Ended(p: Process): Process {
    p.(op := None)
  }

  function Advanced(p: Process, op: Op, at: At): Process {
    p.(op := Some(op.(at := at)))
  }

  /** The paths an operation removes when marking or committing fails: Create removes only the
      database file, Import also the journal files. */
  function Abandoned(op: Op): set<Path> {
    if op.kind.Create? then {DbPath(op.record.name)} else TenantPaths(op.record.name)
  }

  function MakeFileStep(s: Store, p: Process, op: Op, ok: bool, partial: Option<string>): Store {
    var path := DbPath(op.record.name);
    // O_EXCL: an existing file makes Create's call fail
    if op.kind.Create? && path in s.files then s.(process := Some(Ended(p)))
    else if ok then
      s.(files := s.files[path := if op.kind.Create? then "" else op.data], process := Some(Advanced(p, op, FileMade)))
    else if partial.None? then s.(process := Some(Ended(p)))
    else s.(files := s.files[path := if op.kind.Create? then "" else partial.value], process := Some(Ended(p)))
  }

  function PublishNewStep(s: Store, p: Process, op: Op, pool: nat): Store {
    if p.closed then s.(process := Some(Ended(p).(shut := p.shut + {pool})))
    else if p.index.None? then s.(process := Some(Ended(p).(faults := p.faults + {NilMapWrite}, shut := p.shut + {pool})))
    else
      var i := Publish(p.index.value, Database(op.record.(status := Ready), DbPath(op.record.name), pool));
      if i.None? then s.(process := Some(Ended(p).(shut := p.shut + {pool})))
      else s.(process := Some(Ended(p).(index := i)))
  }

  /** The event that moves an operation on. */
  predicate Fits(at: At, e: Event) {
    match at
    case Checked => e.Begin?
    case Began => e.Insert?
    case Inserted => e.MakeFile?
    case FileMade => e.Validate?
    case Validating(_) => e.CloseValidation?
    case Validated => e.MarkReady?
    case Marked => e.Commit?
    case Committed => e.OpenPool?
    case Opened(_) => e.PublishNew?
  }

  function OpStep(s: Store, p: Process, op: Op, e: Event): Store {
    if Fits(op.at, e) then Moved(s, p, op, e) else s
  }

  function Moved(s: Store, p: Process, op: Op, e: Event): Store
    requires Fits(op.at, e)
  {
    match e
    case Begin(ok) =>
      // the handle is read without the lock: a Close in between has set it to nil
      if !p.handle then s.(process := Some(Ended(p).(faults := p.faults + {NilCatalogHandle})))
      else s.(process := Some(if ok then Advanced(p, op, Began) else Ended(p)))
    case Insert(ok) =>
      if ok && Free(s.rows, op.record.name, op.record.username) then s.(process := Some(Advanced(p, op, Inserted)))
      else s.(process := Some(Ended(p)))
    case MakeFile(ok, partial) => MakeFileStep(s, p, op, ok, partial)
    case Validate(ok, image, stuck) =>
      if ok then s.(files := Touch(s.files, op.record.name, image),
                    process := Some(Advanced(p, op, Validating(p.poolCount)).(poolCount := p.poolCount + 1)))
      else s.(files := Remove(Touch(s.files, op.record.name, image), TenantPaths(op.record.name), stuck),
              process := Some(Ended(p)))
    case CloseValidation(ok) =>
      var q := p.(shut := p.shut + {op.at.pool});
      s.(process := Some(if ok then Advanced(q, op, Validated) else Ended(q)))
    case MarkReady(ok, stuck) =>
      if ok then s.(process := Some(Advanced(p, op, Marked)))
      else s.(files := Remove(s.files, Abandoned(op), stuck), process := Some(Ended(p)))
    case Commit(ok, stuck) =>
      if ok then s.(rows := s.rows + {op.record.(status := Ready)}, process := Some(Advanced(p, op, Committed)))
      else s.(files := Remove(s.files, Abandoned(op), stuck), process := Some(Ended(p)))
    case OpenPool(ok, image) =>
      var touched := s.(files := Touch(s.files, op.record.name, image));
      if ok then touched.(process := Some(Advanced(p, op, Opened(p.poolCount)).(poolCount := p.poolCount + 1)))
      else touched.(process := Some(Ended(p)))
    case PublishNew => PublishNewStep(s, p, op, op.at.final)
    case _ => s
  }

  /** A record as Create and Import make it up. */
  predicate NewRecord(r: Record) {
    r.status == Creating && r.created.Some? && Plain(r.name)
  }

  function StartStep(s: Store, p: Process, kind: Kind, record: Record, data: string): Store {
    // a closed store refuses; the creation lock admits one operation at a time; generated names
    // are plain
    if !p.phase.Serving? || p.op.Some? || p.closed || !NewRecord(record) then s
    else s.(process := Some(p.(op := Some(Op(kind, record, data, Checked)))))
  }

  /** A step of Open or of the operation in flight. */
  function Inner(s: Store, p: Process, e: Event): Store {
    if !p.phase.Serving? then OpenStep(s, p, e)
    else if p.op.Some? then OpStep(s, p, p.op.value, e)
    else s
  }

  function Next(s: Store, e: Event): Store {
    if s.process.None? then
      if e.Boot? then s.(process := Some(Started(s.rows))) else s
    else
      var p := s.process.value;
      match e
      case Crash => s.(process := None)
      case CloseStore => if p.phase.Serving? then s.(process := Some(Closed(p))) else s
      case TenantWrites(name, image) =>
        if exists r | r in s.rows :: r.name == name then s.(files := Touch(s.files, name, image)) else s
      case StartOp(kind, record, data) => StartStep(s, p, kind, record, data)
      case _ => Inner(s, p, e)
  }

  function Run(s: Store, es: seq<Event>): Store
    decreases |es|
  {
    if es == [] then s else Run(Next(s, es[0]), es[1..])
  }

  lemma {:induction false} RunThen(s: Store, es: seq<Event>, e: Event)
    ensures Run(s, es + [e]) == Next(Run(s, es), e)
    decreases |es|
  {
    if es == [] {
      assert ([] + [e])[1..] == [];
    } else {
      assert (es + [e])[1..] == es[1..] + [e];
      RunThen(Next(s, es[0]), es[1..], e);
    }
  }

  // ---------------------------------------------------------------------------------------
  // The invariant
  // ---------------------------------------------------------------------------------------

  /** The pools in the hand of Open or of the one operation. */
  function Held(p: Process): set<nat> {
    (if p.phase.Publishing? then {p.phase.db.pool} else {})
    + (if p.op.Some? && p.op.value.at.Validating? then {p.op.value.at.pool}
       else if p.op.Some? && p.op.value.at.Opened? then {p.op.value.at.final}
       else {})
  }

  function Below(n: nat): (s: set<nat>)
    ensures forall i: nat :: i in s <==> i < n
  {
    if n == 0 then {} else Below(n - 1) + {n - 1}
  }

  /** Every pool ever opened is in exactly one place: published, held or closed. */
  ghost predicate PoolsOk(p: Process) {
    && PublishedPools(p.index) + Held(p) + p.shut == Below(p.poolCount)
    && PublishedPools(p.index) !! Held(p) && PublishedPools(p.index) !! p.shut && Held(p) !! p.shut
    && (p.index.Some? ==> OwnPools(p.index.value))
  }

  ghost predicate VolatileOk(p: Process) {
    && p.closed == p.index.None? == !p.handle
    && (p.index.Some? ==> IndexOk(p.index.value))
    && NilMapWrite !in p.faults
    && (p.op.Some? ==> p.phase.Serving?)
    && (p.phase.OpenFailed? ==> p.closed)
    && (p.closed ==> p.phase.Serving? || p.phase.OpenFailed?)
    && PoolsOk(p)
  }

  /** While opening, the index holds the committed rows except those still to come. */
  ghost predicate PhaseOk(s: Store, p: Process) {
    match p.phase
    case Reconciling(names) => names == {} && p.index == Some(EMPTY_INDEX)
    case Loading(rest) => p.index.Some? && rest <= s.rows && Rows(p.index.value) == s.rows - rest
    case Publishing(rest, db) =>
      && p.index.Some? && rest <= s.rows && db.record in s.rows - rest && db.path == DbPath(db.record.name)
      && Rows(p.index.value) == s.rows - rest - {db.record}
    case OpenFailed => true
    case Serving => p.index.Some? ==> Rows(p.index.value) <= s.rows
  }

  ghost predicate OpOk(s: Store, p: Process, op: Op) {
    && NewRecord(op.record)
    && (op.at.Checked? || op.at.Began? || op.at.Committed? || op.at.Opened?
        || Free(s.rows, op.record.name, op.record.username))
    && (op.at.FileMade? || op.at.Validating? || op.at.Validated? || op.at.Marked? ==> DbPath(op.record.name) in s.files)
    && (op.at.Committed? || op.at.Opened? ==>
          && op.record.(status := Ready) in s.rows
          && (p.index.Some? ==> op.record.(status := Ready) !in Rows(p.index.value)))
  }

  ghost predicate Inv(s: Store) {
    && DurableOk(s.rows, s.files)
    && (s.process.Some? ==>
          var p := s.process.value;
          VolatileOk(p) && PhaseOk(s, p) && (p.op.Some? ==> OpOk(s, p, p.op.value)))
  }

  // ---------------------------------------------------------------------------------------
  // Every step keeps it
  // ---------------------------------------------------------------------------------------

  lemma DurableAfterTouch(rows: set<Record>, files: Files, name: string, image: FileImage)
    requires DurableOk(rows, files)
    ensures DurableOk(rows, Touch(files, name, image))
  {
    forall r | r in rows { TouchKeepsMain(files, name, image, r.name); }
  }

  lemma DurableAfterRemove(rows: set<Record>, files: Files, paths: set<Path>, name: string, stuck: set<Path>)
    requires DurableOk(rows, files) && Plain(name) && paths <= TenantPaths(name)
    requires forall r | r in rows :: r.name != name
    ensures DurableOk(rows, Remove(files, paths, stuck))
  {
    forall r | r in rows ensures DbPath(r.name) in Remove(files, paths, stuck) {
      TenantPathsDisjoint(r.name, name);
      RemoveLeavesOthers(files, paths, name, stuck, r.name);
    }
  }

  /** Close keeps the pools accounted for and publishes none; the pool in hand stays in hand. */
  lemma ClosedKeeps(p: Process)
    requires VolatileOk(p)
    ensures PoolsOk(Closed(p)) && PublishedPools(Closed(p).index) == {} && Held(Closed(p)) == Held(p)
  {
  }

  /** Ending an operation or Open with its pool closed. */
  lemma HandClosed(p: Process, pool: nat)
    requires PoolsOk(p) && Held(p) == {pool} && !(p.phase.Publishing? && p.op.Some?)
    ensures PoolsOk(p.(op := None, shut := p.shut + {pool})) || p.phase.Publishing?
    ensures PoolsOk(p.(phase := OpenFailed, shut := p.shut + {pool})) || p.op.Some?
  {
  }

  /** The pool in hand moves into the index. */
  lemma HandPublished(p: Process, q: Process)
    requires PoolsOk(p) && q.poolCount == p.poolCount && q.shut == p.shut && Held(q) == {}
    requires PublishedPools(q.index) == PublishedPools(p.index) + Held(p)
    requires q.index.Some? ==> OwnPools(q.index.value)
    ensures PoolsOk(q)
  {
  }

  // Open

  lemma LoadRowKeeps(s: Store, p: Process, e: Event)
    requires Inv(s) && s.process == Some(p) && p.phase.Loading? && e.LoadRow?
    ensures Inv(OpenStep(s, p, e))
  {
    DurableAfterTouch(s.rows, s.files, e.row.name, e.image);
    ClosedKeeps(p);
    var rest := p.phase.rows;
    if e.row in rest {
      assert s.rows - (rest - {e.row}) - {e.row} == s.rows - rest;
    }
  }

  /** A row read from the catalog is never a duplicate in the index. */
  lemma LoadedRowIsPublished(s: Store, p: Process)
    requires Inv(s) && s.process == Some(p) && p.phase.Publishing?
    ensures Publish(p.index.value, p.phase.db).Some?
  {
    var i, db := p.index.value, p.phase.db;
    forall r | r in Rows(i) ensures r.name != db.record.name && r.username != db.record.username {
      assert r in s.rows && db.record in s.rows && r != db.record;
    }
    FreeIsPublished(i, db);
  }

  lemma PublishRowKeeps(s: Store, p: Process, e: Event)
    requires Inv(s) && s.process == Some(p) && p.phase.Publishing? && e.PublishRow?
    ensures Inv(OpenStep(s, p, e))
  {
    var i, db, rest := p.index.value, p.phase.db, p.phase.rest;
    LoadedRowIsPublished(s, p);
    PublishKeepsIndex(i, db);
    PublishAdds(i, db);
    assert s.rows - rest == (s.rows - rest - {db.record}) + {db.record};
    HandPublished(p, p.(phase := Loading(rest), index := Publish(i, db)));
  }

  lemma ReconcileKeeps(s: Store, p: Process, e: Event)
    requires Inv(s) && s.process == Some(p) && p.phase.Reconciling?
    ensures Inv(OpenStep(s, p, e))
  {
  }

  lemma LoadDoneKeeps(s: Store, p: Process, e: Event)
    requires Inv(s) && s.process == Some(p) && p.phase.Loading? && e.LoadDone?
    ensures Inv(OpenStep(s, p, e))
  {
  }

  lemma OpenStepKeeps(s: Store, p: Process, e: Event)
    requires Inv(s) && s.process == Some(p) && !p.phase.Serving?
    ensures Inv(OpenStep(s, p, e))
  {
    match p.phase
    case Reconciling(_) => ReconcileKeeps(s, p, e);
    case Loading(_) =>
      if e.LoadRow? {
        LoadRowKeeps(s, p, e);
      } else if e.LoadDone? {
        LoadDoneKeeps(s, p, e);
      } else {
        assert OpenStep(s, p, e) == s;
      }
    case Publishing(_, _) =>
      if e.PublishRow? {
        PublishRowKeeps(s, p, e);
      } else {
        assert OpenStep(s, p, e) == s;
      }
    case OpenFailed =>
  }

  // Create and Import

  lemma RemoveKeeps(s: Store, p: Process, op: Op, paths: set<Path>, stuck: set<Path>)
    requires Inv(s) && s.process == Some(p) && p.op == Some(op) && paths <= TenantPaths(op.record.name)
    requires op.at.FileMade? || op.at.Validated? || op.at.Marked?
    ensures Inv(s.(files := Remove(s.files, paths, stuck), process := Some(Ended(p))))
  {
    DurableAfterRemove(s.rows, s.files, paths, op.record.name, stuck);
  }

  /** Writing the operation's own file, which no committed row uses. */
  lemma FileWritten(s: Store, p: Process, op: Op, content: string, goOn: bool)
    requires Inv(s) && s.process == Some(p) && p.op == Some(op) && op.at.Inserted?
    ensures Inv(s.(files := s.files[DbPath(op.record.name) := content],
                   process := Some(if goOn then Advanced(p, op, FileMade) else Ended(p))))
  {
  }

  lemma EndedKeeps(s: Store, p: Process, op: Op)
    requires Inv(s) && s.process == Some(p) && p.op == Some(op) && op.at.Inserted?
    ensures Inv(s.(process := Some(Ended(p))))
  {
  }

  lemma MakeFileKeeps(s: Store, p: Process, op: Op, e: Event)
    requires Inv(s) && s.process == Some(p) && p.op == Some(op) && op.at.Inserted? && e.MakeFile?
    ensures Inv(OpStep(s, p, op, e))
  {
    EndedKeeps(s, p, op);
    var create := op.kind.Create?;
    if e.ok {
      FileWritten(s, p, op, if create then "" else op.data, true);
    } else if e.partial.Some? {
      FileWritten(s, p, op, if create then "" else e.partial.value, false);
    }
  }

  lemma ValidateKeeps(s: Store, p: Process, op: Op, e: Event)
    requires Inv(s) && s.process == Some(p) && p.op == Some(op) && op.at.FileMade? && e.Validate?
    ensures Inv(OpStep(s, p, op, e))
  {
    if e.ok {
      DurableAfterTouch(s.rows, s.files, op.record.name, e.image);
      TouchKeepsMain(s.files, op.record.name, e.image, op.record.name);
    } else {
      DurableAfterTouch(s.rows, s.files, op.record.name, e.image);
      TouchKeepsMain(s.files, op.record.name, e.image, op.record.name);
      var touched := s.(files := Touch(s.files, op.record.name, e.image));
      RemoveKeeps(touched, p, op, TenantPaths(op.record.name), e.stuck);
    }
  }

  lemma CommitKeeps(s: Store, p: Process, op: Op, e: Event)
    requires Inv(s) && s.process == Some(p) && p.op == Some(op) && op.at.Marked? && e.Commit?
    ensures Inv(OpStep(s, p, op, e))
  {
    if e.ok {
      var row := op.record.(status := Ready);
      assert row !in s.rows;
      assert Unique(s.rows + {row});
    } else {
      RemoveKeeps(s, p, op, Abandoned(op), e.stuck);
    }
  }

  lemma OpenPoolKeeps(s: Store, p: Process, op: Op, e: Event)
    requires Inv(s) && s.process == Some(p) && p.op == Some(op) && op.at.Committed? && e.OpenPool?
    ensures Inv(OpStep(s, p, op, e))
  {
    DurableAfterTouch(s.rows, s.files, op.record.name, e.image);
  }

  /** While the store is open, publishing the row just committed is never rejected. */
  lemma NewRowIsPublished(s: Store, p: Process, op: Op)
    requires Inv(s) && s.process == Some(p) && p.op == Some(op) && op.at.Opened? && !p.closed
    ensures Publish(p.index.value, Database(op.record.(status := Ready), DbPath(op.record.name), op.at.final)).Some?
  {
  }

  lemma PublishNewKeeps(s: Store, p: Process, op: Op, e: Event)
    requires Inv(s) && s.process == Some(p) && p.op == Some(op) && op.at.Opened? && e.PublishNew?
    ensures Inv(OpStep(s, p, op, e))
  {
    assert OpStep(s, p, op, e) == PublishNewStep(s, p, op, op.at.final);
    if p.closed {
      PublishClosedKeeps(s, p, op);
    } else {
      PublishOpenKeeps(s, p, op);
    }
  }

  lemma PublishClosedKeeps(s: Store, p: Process, op: Op)
    requires Inv(s) && s.process == Some(p) && p.op == Some(op) && op.at.Opened? && p.closed
    ensures Inv(PublishNewStep(s, p, op, op.at.final))
  {
    HandClosed(p, op.at.final);
  }

  lemma PublishOpenKeeps(s: Store, p: Process, op: Op)
    requires Inv(s) && s.process == Some(p) && p.op == Some(op) && op.at.Opened? && !p.closed
    ensures Inv(PublishNewStep(s, p, op, op.at.final))
  {
    var db := Database(op.record.(status := Ready), DbPath(op.record.name), op.at.final);
    NewRowIsPublished(s, p, op);
    PublishKeepsIndex(p.index.value, db);
    PublishAdds(p.index.value, db);
    HandPublished(p, Ended(p).(index := Publish(p.index.value, db)));
  }

  lemma BeginKeeps(s: Store, p: Process, op: Op, e: Event)
    requires Inv(s) && s.process == Some(p) && p.op == Some(op) && op.at.Checked? && e.Begin?
    ensures Inv(OpStep(s, p, op, e))
  {
  }

  lemma InsertKeeps(s: Store, p: Process, op: Op, e: Event)
    requires Inv(s) && s.process == Some(p) && p.op == Some(op) && op.at.Began? && e.Insert?
    ensures Inv(OpStep(s, p, op, e))
  {
  }

  lemma CloseValidationKeeps(s: Store, p: Process, op: Op, e: Event)
    requires Inv(s) && s.process == Some(p) && p.op == Some(op) && op.at.Validating? && e.CloseValidation?
    ensures Inv(OpStep(s, p, op, e))
  {
  }

  lemma MarkKeeps(s: Store, p: Process, op: Op, e: Event)
    requires Inv(s) && s.process == Some(p) && p.op == Some(op) && op.at.Validated? && e.MarkReady?
    ensures Inv(OpStep(s, p, op, e))
  {
    if !e.ok { RemoveKeeps(s, p, op, Abandoned(op), e.stuck); }
  }

  /** What an operation's step never does: end the process, move Open or Close, or take up
      another record. */
  lemma OpStepBounds(s: Store, p: Process, op: Op, e: Event)
    requires Fits(op.at, e)
    ensures var q := OpStep(s, p, op, e).process;
            && q.Some? && q.value.phase == p.phase && q.value.closed == p.closed && q.value.handle == p.handle
            && (p.index.None? ==> q.value.index.None?)
            && (q.value.op.Some? ==> q.value.op.value.record == op.record && !q.value.op.value.at.Checked?)
  {
  }

  /** Nor lose a row, a closed pool or a fault. */
  lemma OpStepGrows(s: Store, p: Process, op: Op, e: Event)
    requires Fits(op.at, e)
    ensures var v := OpStep(s, p, op, e);
            s.rows <= v.rows && v.process.Some? && p.shut <= v.process.value.shut && p.faults <= v.process.value.faults
  {
  }

  lemma OpenStepGrows(s: Store, p: Process, e: Event)
    requires s.process == Some(p)
    ensures var v := OpenStep(s, p, e);
            v.process.Some? && p.shut <= v.process.value.shut && p.faults <= v.process.value.faults
  {
  }

  lemma InnerGrows(s: Store, p: Process, e: Event)
    requires s.process == Some(p)
    ensures var v := Inner(s, p, e);
            v.process.Some? && p.shut <= v.process.value.shut && p.faults <= v.process.value.faults
  {
    if !p.phase.Serving? {
      OpenStepGrows(s, p, e);
    } else if p.op.Some? && Fits(p.op.value.at, e) {
      OpStepGrows(s, p, p.op.value, e);
    }
  }

  lemma OpStepKeeps(s: Store, p: Process, op: Op, e: Event)
    requires Inv(s) && s.process == Some(p) && p.op == Some(op)
    ensures Inv(OpStep(s, p, op, e))
  {
    if Fits(op.at, e) {
      match op.at
      case Checked => BeginKeeps(s, p, op, e);
      case Began => InsertKeeps(s, p, op, e);
      case Inserted => MakeFileKeeps(s, p, op, e);
      case FileMade => ValidateKeeps(s, p, op, e);
      case Validating(_) => CloseValidationKeeps(s, p, op, e);
      case Validated => MarkKeeps(s, p, op, e);
      case Marked => CommitKeeps(s, p, op, e);
      case Committed => OpenPoolKeeps(s, p, op, e);
      case Opened(_) => PublishNewKeeps(s, p, op, e);
    }
  }

  // The rest of the process

  lemma TenantWritesKeeps(s: Store, name: string, image: FileImage)
    requires Inv(s)
    ensures Inv(Next(s, TenantWrites(name, image)))
  {
    DurableAfterTouch(s.rows, s.files, name, image);
    if s.process.Some? && s.process.value.op.Some? {
      TouchKeepsMain(s.files, name, image, s.process.value.op.value.record.name);
    }
  }

  lemma CloseKeeps(s: Store)
    requires Inv(s)
    ensures Inv(Next(s, CloseStore))
  {
  }

  lemma StartKeeps(s: Store, e: Event)
    requires Inv(s) && (e.StartOp? || e.Crash?)
    ensures Inv(Next(s, e))
  {
  }

  lemma BootKeeps(s: Store, e: Event)
    requires Inv(s) && s.process.None?
    ensures Inv(Next(s, e))
  {
  }

  /** Every step of the store keeps the invariant. */
  lemma NextKeeps(s: Store, e: Event)
    requires Inv(s)
    ensures Inv(Next(s, e))
  {
    if s.process.None? {
      BootKeeps(s, e);
    } else if e.StartOp? || e.Crash? {
      StartKeeps(s, e);
    } else if e.CloseStore? {
      CloseKeeps(s);
    } else if e.TenantWrites? {
      TenantWritesKeeps(s, e.name, e.image);
    } else {
      var p := s.process.value;
      if !p.phase.Serving? {
        OpenStepKeeps(s, p, e);
      } else if p.op.Some? {
        OpStepKeeps(s, p, p.op.value, e);
      }
    }
  }

  lemma {:induction false} RunKeeps(s: Store, es: seq<Event>)
    requires Inv(s)
    ensures Inv(Run(s, es))
    decreases |es|
  {
    if es != [] {
      NextKeeps(s, es[0]);
      RunKeeps(Next(s, es[0]), es[1..]);
    }
  }
}
