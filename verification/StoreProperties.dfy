/** What every run of the tenant store keeps, whatever the outcomes of its system calls and
    wherever it crashes or is closed. */
module StoreProperties {
  import opened Options
  import opened Catalog
  import opened TenantStore

  // ---------------------------------------------------------------------------------------
  // Crash safety and recovery
  // ---------------------------------------------------------------------------------------

  /** Starting from an empty root, after any sequence of steps, failures, closes, crashes and
      restarts, every committed row is ready and has its file, and names and usernames are
      unique. */
  lemma CrashSafety(es: seq<Event>)
    ensures var s := Run(EMPTY_ROOT, es);
            Inv(s)
            && (forall r | r in s.rows :: r.status == Ready && r.created.Some? && Plain(r.name) && DbPath(r.name) in s.files)
            && (forall a, b | a in s.rows && b in s.rows && (a.name == b.name || a.username == b.username) :: a == b)
  {
    RunKeeps(EMPTY_ROOT, es);
  }

  /** The steps that load the given rows, every pool opening. */
  function LoadAll(order: seq<Record>, images: seq<FileImage>): seq<Event>
    requires |images| == |order|
  {
    if order == [] then [LoadDone(true)]
    else [LoadRow(order[0], images[0], true), PublishRow] + LoadAll(order[1..], images[1..])
  }

  /** The sequence lists the set, each element once. */
  ghost predicate Lists<T>(order: seq<T>, all: set<T>) {
    && (set x | x in order) == all
    && forall i, j | 0 <= i < j < |order| :: order[i] != order[j]
  }

  lemma RunTwo(s: Store, a: Event, b: Event, es: seq<Event>)
    ensures Run(s, [a, b] + es) == Run(Next(Next(s, a), b), es)
  {
  }

  lemma {:induction false} LoadAllSucceeds(s: Store, order: seq<Record>, images: seq<FileImage>)
    requires Inv(s) && s.process.Some? && s.process.value.phase.Loading? && !s.process.value.closed
    requires |images| == |order| && Lists(order, s.process.value.phase.rows)
    ensures var t := Run(s, LoadAll(order, images));
            && t.rows == s.rows && t.process.Some? && t.process.value.phase.Serving?
            && t.process.value.index.Some? && Rows(t.process.value.index.value) == s.rows
    decreases |order|
  {
    var p := s.process.value;
    if order == [] {
      assert p.phase.rows == {};
      assert LoadAll(order, images)[1..] == [];
      assert Run(s, LoadAll(order, images)) == Next(s, LoadDone(true));
    } else {
      assert order[0] in order && order[0] in p.phase.rows;
      var load := LoadRow(order[0], images[0], true);
      var s1 := Next(s, load);
      NextKeeps(s, load);
      LoadedRowIsPublished(s1, s1.process.value);
      var s2 := Next(s1, PublishRow);
      NextKeeps(s1, PublishRow);
      RestListed(order, p.phase.rows);
      assert s2.rows == s.rows && s2.process.value.phase == Loading(p.phase.rows - {order[0]});
      LoadAllSucceeds(s2, order[1..], images[1..]);
      RunTwo(s, load, PublishRow, LoadAll(order[1..], images[1..]));
    }
  }

  lemma RestListed<T>(order: seq<T>, all: set<T>)
    requires order != [] && Lists(order, all)
    ensures Lists(order[1..], all - {order[0]})
  {
  }

  /** Whatever happened before the process ended, opening the store again succeeds if the pools
      open, loses no row, and indexes exactly the committed rows, in whatever order the catalog
      returns them. */
  lemma ReopenSucceeds(es: seq<Event>, order: seq<Record>, images: seq<FileImage>)
    requires var s := Run(EMPTY_ROOT, es); s.process.None? && Lists(order, s.rows)
    requires |images| == |order|
    ensures var s := Run(EMPTY_ROOT, es);
            var t := Run(s, [Boot, ReconcileDone(true)] + LoadAll(order, images));
            && t.rows == s.rows && t.process.Some? && t.process.value.phase.Serving?
            && t.process.value.index.Some? && IndexOk(t.process.value.index.value)
            && Rows(t.process.value.index.value) == s.rows
  {
    var s := Run(EMPTY_ROOT, es);
    RunKeeps(EMPTY_ROOT, es);
    var s1 := Next(s, Boot);
    NextKeeps(s, Boot);
    var s2 := Next(s1, ReconcileDone(true));
    NextKeeps(s1, ReconcileDone(true));
    assert WithStatus(s.rows, Ready) == s.rows;
    LoadAllSucceeds(s2, order, images);
    RunTwo(s, Boot, ReconcileDone(true), LoadAll(order, images));
    RunKeeps(s2, LoadAll(order, images));
  }

  // ---------------------------------------------------------------------------------------
  // Pools and the closed store
  // ---------------------------------------------------------------------------------------

  /** At every step each pool ever opened is in exactly one place: published, in the hand of
      Open or of the one operation, or closed.  Once the store is closed (by Close or by a
      failed Open) none is published, and once nothing is in hand every pool is closed. */
  lemma PoolsAccountedFor(es: seq<Event>)
    requires Run(EMPTY_ROOT, es).process.Some?
    ensures var p := Run(EMPTY_ROOT, es).process.value;
            var published, held := PublishedPools(p.index), Held(p);
            && (forall n: nat :: n < p.poolCount <==> n in published || n in held || n in p.shut)
            && published !! held && published !! p.shut && held !! p.shut
            && (p.index.Some? ==> OwnPools(p.index.value))
            && (p.closed ==> published == {})
            && (p.closed && held == {} ==> p.shut == Below(p.poolCount))
            && (p.phase.OpenFailed? ==> p.shut == Below(p.poolCount))
            && (p.closed && p.op.None? ==> held == {})
  {
    RunKeeps(EMPTY_ROOT, es);
  }

  /** Close is final for the process: whatever step follows, short of the process ending, the
      store stays closed and both maps stay nil. */
  lemma ClosedForGood(s: Store, e: Event)
    requires Inv(s) && s.process.Some? && s.process.value.closed && !e.Crash?
    ensures var q := Next(s, e).process;
            q.Some? && q.value.closed && q.value.index.None?
            && q.value.shut >= s.process.value.shut && NilMapWrite !in q.value.faults
  {
    NextKeeps(s, e);
    var p := s.process.value;
    if p.op.Some? && Fits(p.op.value.at, e) {
      OpStepBounds(s, p, p.op.value, e);
      OpStepGrows(s, p, p.op.value, e);
    }
  }

  predicate Dereferences(op: Op, p: Process, e: Event) {
    op.at.Checked? && e.Begin? && p.closed
  }

  lemma NilHandleInOperation(s: Store, p: Process, op: Op, e: Event)
    requires Inv(s) && s.process == Some(p) && p.op == Some(op) && NilCatalogHandle !in p.faults
    ensures OpStep(s, p, op, e).process.Some?
    ensures NilCatalogHandle in OpStep(s, p, op, e).process.value.faults <==> Dereferences(op, p, e)
  {
  }

  lemma NilHandleElsewhere(s: Store, p: Process, e: Event)
    requires s.process == Some(p) && NilCatalogHandle !in p.faults
    ensures OpenStep(s, p, e).process.Some? && NilCatalogHandle !in OpenStep(s, p, e).process.value.faults
  {
  }

  /** The handle of the catalog is dereferenced while nil exactly when a Close fell between an
      operation's check of the closed flag and its Begin. */
  lemma NilHandleIff(s: Store, e: Event)
    requires Inv(s) && s.process.Some? && NilCatalogHandle !in s.process.value.faults && !e.Crash?
    ensures var p := s.process.value;
            Next(s, e).process.Some?
            && (NilCatalogHandle in Next(s, e).process.value.faults
                <==> p.op.Some? && Dereferences(p.op.value, p, e))
  {
    var p := s.process.value;
    NilHandleElsewhere(s, p, e);
    if p.op.Some? {
      NilHandleInOperation(s, p, p.op.value, e);
    }
  }

  /** The step dereferences the nil handle: an operation has checked the closed flag, a Close has
      come since, and the operation begins its transaction. */
  ghost predicate NilBegin(s: Store, e: Event) {
    && s.process.Some? && s.process.value.op.Some?
    && Dereferences(s.process.value.op.value, s.process.value, e)
  }

  /** Since the process that runs after the events started, some step was as `p` says. */
  ghost predicate Since(es: seq<Event>, p: (Store, Event) -> bool) {
    exists i | 0 <= i < |es| :: StepAt(es, p, i)
  }

  /** The i-th step is, and no crash follows. */
  ghost predicate StepAt(es: seq<Event>, p: (Store, Event) -> bool, i: nat)
    requires i < |es|
  {
    p(Run(EMPTY_ROOT, es[..i]), es[i]) && Crash !in es[i..]
  }

  lemma StepAtBefore(before: seq<Event>, e: Event, p: (Store, Event) -> bool, i: nat)
    requires i < |before|
    ensures StepAt(before + [e], p, i) <==> StepAt(before, p, i) && !e.Crash?
  {
    var es := before + [e];
    assert es[..i] == before[..i] && es[i..] == before[i..] + [e];
  }

  lemma StepAtLast(before: seq<Event>, e: Event, p: (Store, Event) -> bool)
    ensures StepAt(before + [e], p, |before|) <==> p(Run(EMPTY_ROOT, before), e) && !e.Crash?
  {
    var es := before + [e];
    assert es[..|before|] == before && es[|before|..] == [e];
  }

  lemma SinceStep(before: seq<Event>, e: Event, p: (Store, Event) -> bool)
    ensures Since(before + [e], p) <==> !e.Crash? && (Since(before, p) || p(Run(EMPTY_ROOT, before), e))
  {
    StepAtLast(before, e, p);
    forall i: nat | i < |before| ensures StepAt(before + [e], p, i) <==> StepAt(before, p, i) && !e.Crash? {
      StepAtBefore(before, e, p, i);
    }
    if Since(before, p) && !e.Crash? {
      var i: nat :| i < |before| && StepAt(before, p, i);
      assert StepAt(before + [e], p, i);
    }
  }

  predicate Faulty(s: Store) {
    s.process.Some? && NilCatalogHandle in s.process.value.faults
  }

  lemma FaultyNext(s: Store, e: Event)
    requires Inv(s)
    ensures Faulty(Next(s, e)) <==> !e.Crash? && (Faulty(s) || NilBegin(s, e))
  {
    if s.process.Some? && !e.Crash? {
      if Faulty(s) {
        FaultStays(s, e);
      } else {
        NilHandleIff(s, e);
      }
    }
  }

  lemma FaultStays(s: Store, e: Event)
    requires Faulty(s) && !e.Crash?
    ensures Faulty(Next(s, e))
  {
    InnerGrows(s, s.process.value, e);
  }

  /** Over whole runs: the running process has dereferenced the nil handle exactly when, since it
      started, some operation began after a Close that came after its check of the closed flag. */
  lemma {:induction false} NilHandleRunIff(es: seq<Event>)
    ensures Faulty(Run(EMPTY_ROOT, es)) <==> Since(es, NilBegin)
    decreases |es|
  {
    if es != [] {
      var before, e := es[..|es| - 1], es[|es| - 1];
      assert es == before + [e];
      RunThen(EMPTY_ROOT, before, e);
      RunKeeps(EMPTY_ROOT, before);
      NilHandleRunIff(before);
      FaultyNext(Run(EMPTY_ROOT, before), e);
      SinceStep(before, e, NilBegin);
    }
  }

  /** It happens: a Close between the check and the Begin of the first Create. */
  lemma NilHandleHappens(record: Record)
    requires NewRecord(record)
    ensures var es := [Boot, ReconcileDone(true), LoadDone(true), StartOp(Create, record, ""), CloseStore, Begin(true)];
            Faulty(Run(EMPTY_ROOT, es))
  {
    var tail := [StartOp(Create, record, ""), CloseStore, Begin(true)];
    var opening := [Boot, ReconcileDone(true), LoadDone(true)];
    FirstOpen(opening, tail);
    var s := Store({}, map[], Some(Started({}).(phase := Serving)));
    RunTwo(s, tail[0], tail[1], [Begin(true)]);
    assert tail == [tail[0], tail[1]] + [Begin(true)];
    assert [Begin(true)][1..] == [];
    assert opening + tail == [Boot, ReconcileDone(true), LoadDone(true), StartOp(Create, record, ""), CloseStore, Begin(true)];
  }

  lemma FirstOpen(opening: seq<Event>, tail: seq<Event>)
    requires opening == [Boot, ReconcileDone(true), LoadDone(true)]
    ensures Run(EMPTY_ROOT, opening + tail) == Run(Store({}, map[], Some(Started({}).(phase := Serving))), tail)
  {
    var rest := [LoadDone(true)] + tail;
    assert opening + tail == [Boot, ReconcileDone(true)] + rest;
    RunTwo(EMPTY_ROOT, Boot, ReconcileDone(true), rest);
    assert rest[1..] == tail;
    assert WithStatus({}, Ready) == {} && WithStatus({}, Creating) == {};
  }

  // ---------------------------------------------------------------------------------------
  // The index and the catalog
  // ---------------------------------------------------------------------------------------

  /** In every reachable state of an open store the two maps are one relation over committed
      rows. */
  lemma IndexIsCommitted(es: seq<Event>)
    requires var p := Run(EMPTY_ROOT, es).process; p.Some? && p.value.index.Some?
    ensures var s := Run(EMPTY_ROOT, es);
            var i := s.process.value.index.value;
            && IndexOk(i) && Rows(i) <= s.rows
            && forall n | n in i.byName :: i.byName[n].record.status == Ready && i.byName[n].path in s.files
  {
    RunKeeps(EMPTY_ROOT, es);
    var i := Run(EMPTY_ROOT, es).process.value.index.value;
    assert forall n | n in i.byName :: i.byName[n].record in Rows(i);
  }

  // ---------------------------------------------------------------------------------------
  // Committed but not in memory
  // ---------------------------------------------------------------------------------------

  /** The store serves and is not closed. */
  predicate IsOpen(s: Store) {
    s.process.Some? && s.process.value.phase.Serving? && s.process.value.index.Some?
  }

  predicate Missing(s: Store, r: Record)
    requires IsOpen(s)
  {
    r in s.rows && r !in Rows(s.process.value.index.value)
  }

  /** The row of the operation in flight, committed and not yet published. */
  predicate InHand(s: Store, r: Record) {
    && s.process.Some? && s.process.value.op.Some?
    && (s.process.value.op.value.at.Committed? || s.process.value.op.value.at.Opened?)
    && r == s.process.value.op.value.record.(status := Ready)
  }

  /** The operation that committed the row ends because the tenant's pool does not open. */
  predicate LosesRow(s: Store, e: Event, r: Record) {
    && s.process.Some? && s.process.value.op.Some? && s.process.value.op.value.at.Committed?
    && r == s.process.value.op.value.record.(status := Ready) && e.OpenPool? && !e.ok
  }

  function Losing(r: Record): (Store, Event) -> bool {
    (s, e) => LosesRow(s, e, r)
  }

  lemma MissingNext(s: Store, e: Event, r: Record)
    requires Inv(s) && IsOpen(s) && IsOpen(Next(s, e)) && !e.Crash?
    ensures Missing(Next(s, e), r) && !InHand(Next(s, e), r)
       <==> (Missing(s, r) && !InHand(s, r)) || LosesRow(s, e, r)
  {
    var p := s.process.value;
    if p.op.Some? && Fits(p.op.value.at, e) {
      MissingMoved(s, p, p.op.value, e, r);
      OperationMoves(s, p, p.op.value, e);
    } else {
      NothingCommitted(s, e);
      MissingSame(s, Next(s, e), r);
    }
  }

  lemma OperationMoves(s: Store, p: Process, op: Op, e: Event)
    requires s.process == Some(p) && p.phase.Serving? && p.op == Some(op) && Fits(op.at, e)
    ensures Next(s, e) == OpStep(s, p, op, e)
  {
  }

  lemma MissingSame(s: Store, v: Store, r: Record)
    requires IsOpen(s) && IsOpen(v) && v.rows == s.rows && v.process.value.index == s.process.value.index
    requires var p, q := s.process.value, v.process.value;
             q.op == p.op || (p.op.None? && q.op.Some? && q.op.value.at.Checked?)
    ensures Missing(v, r) && !InHand(v, r) <==> Missing(s, r) && !InHand(s, r)
  {
  }

  /** Steps that do not move an operation leave rows and index alone; one may start. */
  lemma NothingCommitted(s: Store, e: Event)
    requires Inv(s) && IsOpen(s) && IsOpen(Next(s, e)) && !e.Crash?
    requires s.process.value.op.Some? ==> !Fits(s.process.value.op.value.at, e)
    ensures var p, q := s.process.value, Next(s, e).process.value;
            && Next(s, e).rows == s.rows && q.index == p.index
            && (q.op == p.op || (p.op.None? && q.op.Some? && q.op.value.at.Checked?))
  {
  }

  lemma MissingMoved(s: Store, p: Process, op: Op, e: Event, r: Record)
    requires Inv(s) && IsOpen(s) && s.process == Some(p) && p.op == Some(op) && Fits(op.at, e)
    requires IsOpen(OpStep(s, p, op, e))
    ensures Missing(OpStep(s, p, op, e), r) && !InHand(OpStep(s, p, op, e), r)
       <==> (Missing(s, r) && !InHand(s, r)) || LosesRow(s, e, r)
  {
    if e.PublishNew? {
      NewRowIsPublished(s, p, op);
      PublishAdds(p.index.value, Database(op.record.(status := Ready), DbPath(op.record.name), op.at.final));
    }
  }

  /** The store starts to serve with nothing missing. */
  lemma NothingMissingFirst(s: Store, e: Event, r: Record)
    requires Inv(s) && !Serves(s) && IsOpen(Next(s, e))
    ensures !Missing(Next(s, e), r)
  {
  }

  predicate Serves(s: Store) {
    s.process.Some? && s.process.value.phase.Serving?
  }

  lemma ServesOn(s: Store, e: Event)
    requires Inv(s) && Serves(s)
    ensures Serves(Next(s, e)) <==> !e.Crash?
    ensures IsOpen(Next(s, e)) ==> IsOpen(s)
  {
    var p := s.process.value;
    if p.op.Some? && Fits(p.op.value.at, e) {
      OpStepBounds(s, p, p.op.value, e);
    }
  }

  /** Create and Import can fail after their commit.  While the store is open, a committed row is
      not in memory exactly when its operation has not published it yet, or has ended since the
      process started because the tenant's pool did not open. */
  lemma MissingIff(es: seq<Event>, r: Record)
    requires IsOpen(Run(EMPTY_ROOT, es))
    ensures var s := Run(EMPTY_ROOT, es); Missing(s, r) <==> InHand(s, r) || Since(es, Losing(r))
  {
    LostIff(es, r);
    RunKeeps(EMPTY_ROOT, es);
  }

  lemma {:induction false} LostIff(es: seq<Event>, r: Record)
    ensures var s := Run(EMPTY_ROOT, es);
            && (IsOpen(s) ==> (Missing(s, r) && !InHand(s, r) <==> Since(es, Losing(r))))
            && (!Serves(s) ==> !Since(es, Losing(r)))
    decreases |es|
  {
    if es != [] {
      var before, e := es[..|es| - 1], es[|es| - 1];
      assert es == before + [e];
      RunThen(EMPTY_ROOT, before, e);
      RunKeeps(EMPTY_ROOT, before);
      LostIff(before, r);
      SinceStep(before, e, Losing(r));
      var s := Run(EMPTY_ROOT, before);
      if Serves(s) {
        ServesOn(s, e);
        if IsOpen(Next(s, e)) { MissingNext(s, e, r); }
      } else if IsOpen(Next(s, e)) {
        NothingMissingFirst(s, e, r);
      }
    }
  }

  /** It happens: the first Create commits and its pool does not open. */
  lemma MissingHappens(record: Record, image: FileImage) returns (es: seq<Event>)
    requires NewRecord(record)
    ensures var s, r := Run(EMPTY_ROOT, es), record.(status := Ready);
            && IsOpen(s) && s.process.value.op.None? && Missing(s, r) && Since(es, Losing(r))
  {
    es := CreateBegins(record);
    es := CreateValidates(es, record, image);
    es := CreateCommits(es, record);
    RunThen(EMPTY_ROOT, es, OpenPool(false, image));
    es := es + [OpenPool(false, image)];
    RunKeeps(EMPTY_ROOT, es);
    MissingIff(es, record.(status := Ready));
  }

  lemma CreateBegins(record: Record) returns (es: seq<Event>)
    requires NewRecord(record)
    ensures Run(EMPTY_ROOT, es) == MidCreate(record, Began, 0)
  {
    var opening := [Boot, ReconcileDone(true), LoadDone(true)];
    FirstOpen(opening, []);
    assert opening + [] == opening;
    RunThen(EMPTY_ROOT, opening, StartOp(Create, record, ""));
    es := opening + [StartOp(Create, record, "")];
    RunThen(EMPTY_ROOT, es, Begin(true));
    es := es + [Begin(true)];
  }

  /** The first process of an empty root in the middle of a Create. */
  function MidCreate(record: Record, at: At, pools: nat): Store {
    Store({}, map[], Some(Started({}).(phase := Serving, op := Some(Op(Create, record, "", at)), poolCount := pools)))
  }

  lemma CreateValidates(before: seq<Event>, record: Record, image: FileImage) returns (es: seq<Event>)
    requires NewRecord(record) && Run(EMPTY_ROOT, before) == MidCreate(record, Began, 0)
    ensures var s := Run(EMPTY_ROOT, es); s.rows == {} && s.process == MidCreate(record, Validating(0), 1).process
  {
    es := before;
    RunThen(EMPTY_ROOT, es, Insert(true));
    es := es + [Insert(true)];
    RunThen(EMPTY_ROOT, es, MakeFile(true, None));
    es := es + [MakeFile(true, None)];
    RunThen(EMPTY_ROOT, es, Validate(true, image, {}));
    es := es + [Validate(true, image, {})];
  }

  lemma CreateCommits(before: seq<Event>, record: Record) returns (es: seq<Event>)
    requires var s := Run(EMPTY_ROOT, before); s.rows == {} && s.process == MidCreate(record, Validating(0), 1).process
    ensures var s := Run(EMPTY_ROOT, es);
            && IsOpen(s) && s.process.value.op == Some(Op(Create, record, "", Committed))
            && s.process.value.index == Some(EMPTY_INDEX) && s.rows == {record.(status := Ready)}
  {
    es := before;
    RunThen(EMPTY_ROOT, es, CloseValidation(true));
    es := es + [CloseValidation(true)];
    RunThen(EMPTY_ROOT, es, MarkReady(true, {}));
    es := es + [MarkReady(true, {})];
    RunThen(EMPTY_ROOT, es, Commit(true, {}));
    es := es + [Commit(true, {})];
  }

  // ---------------------------------------------------------------------------------------
  // Existing tenants
  // ---------------------------------------------------------------------------------------

  /** The tenant, if any, whose running database an event lets SQLite write. */
  function Writer(s: Store, e: Event): Option<string> {
    match e
    case TenantWrites(name, _) => Some(name)
    case LoadRow(row, _, _) => Some(row.name)
    case OpenPool(_, _) =>
      if s.process.Some? && s.process.value.op.Some? then Some(s.process.value.op.value.record.name) else None
    case _ => None
  }

  lemma RowKept(s: Store, e: Event, r: Record)
    requires Inv(s) && r in s.rows
    ensures r in Next(s, e).rows
  {
    if s.process.Some? && !e.Crash? && !e.CloseStore? && !e.TenantWrites? && !e.StartOp? {
      InnerKeepsRow(s, s.process.value, e, r);
    }
  }

  lemma InnerKeepsRow(s: Store, p: Process, e: Event, r: Record)
    requires r in s.rows && r.status == Ready
    ensures r in Inner(s, p, e).rows
  {
    if !p.phase.Serving? {
      OpeningKeepsRow(s, p, e, r);
    } else if p.op.Some? && Fits(p.op.value.at, e) {
      OpStepGrows(s, p, p.op.value, e);
    }
  }

  /** Opening deletes creating rows only. */
  lemma OpeningKeepsRow(s: Store, p: Process, e: Event, r: Record)
    requires r in s.rows && r.status == Ready
    ensures r in OpenStep(s, p, e).rows
  {
  }

  /** No step ever loses a committed row, and none but SQLite working on that very tenant
      changes its files: not a failing Create or Import, not reconciliation, not a crash. */
  lemma TenantUntouched(s: Store, e: Event, r: Record)
    requires Inv(s) && r in s.rows
    ensures r in Next(s, e).rows
    ensures Writer(s, e) != Some(r.name) ==> SameFiles(s.files, Next(s, e).files, TenantPaths(r.name))
  {
    RowKept(s, e, r);
    if Writer(s, e) != Some(r.name) && s.process.Some? {
      if e.TenantWrites? {
        WritesLeave(s, e.name, e.image, r);
      } else if !e.Crash? && !e.CloseStore? && !e.StartOp? {
        InnerLeaves(s, s.process.value, e, r);
      }
    }
  }

  lemma WritesLeave(s: Store, name: string, image: FileImage, r: Record)
    requires DurableOk(s.rows, s.files) && r in s.rows && name != r.name
    ensures SameFiles(s.files, Next(s, TenantWrites(name, image)).files, TenantPaths(r.name))
  {
    if exists x | x in s.rows :: x.name == name {
      TenantPathsDisjoint(name, r.name);
      TouchLeavesOthers(s.files, name, image, r.name);
    }
  }

  lemma InnerLeaves(s: Store, p: Process, e: Event, r: Record)
    requires Inv(s) && s.process == Some(p) && r in s.rows && Writer(s, e) != Some(r.name)
    ensures SameFiles(s.files, Inner(s, p, e).files, TenantPaths(r.name))
  {
    if !p.phase.Serving? {
      OpeningLeaves(s, p, e, r);
    } else if p.op.Some? && Fits(p.op.value.at, e) {
      OperationLeaves(s, p, p.op.value, e, r);
    }
  }

  lemma OpeningLeaves(s: Store, p: Process, e: Event, r: Record)
    requires Inv(s) && s.process == Some(p) && !p.phase.Serving? && r in s.rows
    requires Writer(s, e) != Some(r.name)
    ensures SameFiles(s.files, OpenStep(s, p, e).files, TenantPaths(r.name))
  {
    if e.LoadRow? && OpenStep(s, p, e) != s && e.row in s.rows {
      TenantPathsDisjoint(e.row.name, r.name);
      TouchLeavesOthers(s.files, e.row.name, e.image, r.name);
    }
  }

  lemma OperationLeaves(s: Store, p: Process, op: Op, e: Event, r: Record)
    requires Inv(s) && s.process == Some(p) && p.op == Some(op) && r in s.rows
    requires Fits(op.at, e) && Writer(s, e) != Some(r.name)
    ensures SameFiles(s.files, OpStep(s, p, op, e).files, TenantPaths(r.name))
  {
    if !e.Begin? && !e.Insert? && !e.CloseValidation? && !e.PublishNew? {
      TenantPathsDisjoint(op.record.name, r.name);
      OwnFilesOnly(s, p, op, e, r.name);
    }
  }

  /** The steps of an operation change no files but its own. */
  lemma OwnFilesOnly(s: Store, p: Process, op: Op, e: Event, other: string)
    requires Fits(op.at, e) && DbPath(other) != DbPath(op.record.name)
    ensures SameFiles(s.files, OpStep(s, p, op, e).files, TenantPaths(other))
  {
    var name := op.record.name;
    match e
    case MakeFile(_, _) => DisjointIff(name, other);
    case Validate(ok, image, stuck) =>
      TouchLeavesOthers(s.files, name, image, other);
      RemoveLeavesOthers(Touch(s.files, name, image), TenantPaths(name), name, stuck, other);
    case MarkReady(_, stuck) => RemoveLeavesOthers(s.files, Abandoned(op), name, stuck, other);
    case Commit(_, stuck) => RemoveLeavesOthers(s.files, Abandoned(op), name, stuck, other);
    case OpenPool(_, image) => TouchLeavesOthers(s.files, name, image, other);
    case _ =>
  }

  /** The row is committed and no operation in flight got past the catalog with its name. */
  ghost predicate Foreign(s: Store, r: Record) {
    && r in s.rows
    && (s.process.Some? && s.process.value.op.Some? ==>
          var op := s.process.value.op.value;
          op.at.Checked? || op.at.Began? || op.record.name != r.name)
  }

  /** The events of provisioning, closing and crashing, and other tenants' writes. */
  predicate Provisioning(e: Event, name: string) {
    (e.TenantWrites? && e.name != name) || e.StartOp? || e.Begin? || e.Insert? || e.MakeFile? || e.Validate? || e.CloseValidation? || e.MarkReady?
    || e.Commit? || e.OpenPool? || e.PublishNew? || e.CloseStore? || e.Crash?
  }

  /** Any number of Creates and Imports, even with the tenant's own name and failing anywhere,
      with other tenants at work in between, leave a committed tenant's row and files as they were. */
  lemma {:induction false} ProvisioningLeavesTenants(s: Store, es: seq<Event>, r: Record)
    requires Inv(s) && Foreign(s, r) && forall e | e in es :: Provisioning(e, r.name)
    ensures r in Run(s, es).rows
    ensures SameFiles(s.files, Run(s, es).files, TenantPaths(r.name))
    decreases |es|
  {
    if es != [] {
      var e := es[0];
      NextKeeps(s, e);
      ForeignStays(s, e, r);
      TenantUntouched(s, e, r);
      assert forall x | x in es[1..] :: x in es;
      ProvisioningLeavesTenants(Next(s, e), es[1..], r);
    }
  }

  lemma ForeignStays(s: Store, e: Event, r: Record)
    requires Inv(s) && Foreign(s, r) && Provisioning(e, r.name)
    ensures Foreign(Next(s, e), r)
  {
    RowKept(s, e, r);
    if s.process.Some? {
      if e.StartOp? || e.CloseStore? || e.Crash? || e.TenantWrites? {
        StartsForeign(s, e, r);
      } else {
        OpeningIgnores(s, s.process.value, e, r.name);
        if s.process.value.op.Some? && Fits(s.process.value.op.value.at, e) {
          OpStaysForeign(s, s.process.value, s.process.value.op.value, e, r);
          if Serves(s) { OperationMoves(s, s.process.value, s.process.value.op.value, e); }
        }
      }
    }
  }

  lemma OpeningIgnores(s: Store, p: Process, e: Event, name: string)
    requires Provisioning(e, name)
    ensures OpenStep(s, p, e) == s
  {
  }

  lemma StartsForeign(s: Store, e: Event, r: Record)
    requires Foreign(s, r) && s.process.Some? && (e.StartOp? || e.CloseStore? || e.Crash? || e.TenantWrites?)
    ensures Foreign(Next(s, e), r)
  {
  }

  lemma OpStaysForeign(s: Store, p: Process, op: Op, e: Event, r: Record)
    requires r in s.rows && Fits(op.at, e) && (op.at.Checked? || op.at.Began? || op.record.name != r.name)
    ensures var q := OpStep(s, p, op, e).process;
            q.Some? && (q.value.op.Some? ==> q.value.op.value.at.Began? || q.value.op.value.record.name != r.name)
  {
    OpStepBounds(s, p, op, e);
  }
}
