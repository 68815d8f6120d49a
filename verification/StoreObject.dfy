/** The tenant store as the program runs it: an object whose methods update two maps, a closed
    flag, the catalog and the files.  Each method states its effect outright and, where it is
    a sequence of steps of the transition system, gives that sequence. */
module StoreObject {
  import opened Options
  import opened Catalog
  import opened TenantStore

  datatype Error = ErrNotFound | ErrClosed | ErrOther

  datatype Result<+T> = Success(value: T) | Failure(error: Error)

  /** How the calls into SQLite, the file system and the driver turn out for one operation. */
  datatype Outcomes = Outcomes(begin: bool, insert: bool, write: bool, partial: Option<string>,
                               validate: bool, validated: FileImage, closeValidation: bool, mark: bool,
                               commit: bool, open: bool, image: FileImage, stuck: set<Path>)

  /** All calls up to the commit succeed. */
  predicate UpToCommit(o: Outcomes) {
    o.begin && o.insert && o.write && o.validate && o.closeValidation && o.mark && o.commit
  }

  predicate AllWell(o: Outcomes) {
    UpToCommit(o) && o.open
  }

  /** How the calls made by Open turn out: up to the migrated catalog, while reconciling, while
      loading.  `readable` are the rows the listing of ready rows delivers. */
  datatype Opening = Opening(prepared: bool, creatingListed: bool, stuck: set<Path>, deletable: set<string>,
                             readyListed: bool, readable: set<string>, openable: set<string>,
                             image: string -> FileImage, complete: bool)

  class StoreState {
    // management.db and the storage root
    var rows: set<Record>
    var files: Files
    // the maps are None when nil
    var byName: Option<map<string, Database>>
    var byUser: Option<map<string, Database>>
    var closed: bool
    var handle: bool
    var poolCount: nat
    var shut: set<nat>

    constructor (rows: set<Record>, files: Files)
      ensures this.rows == rows && this.files == files && Valid()
      ensures View(Serving).process == Some(Started(rows).(phase := Serving))
    {
      this.rows, this.files := rows, files;
      byName, byUser := Some(map[]), Some(map[]);
      closed, handle, poolCount, shut := false, true, 0, {};
    }

    ghost predicate Valid()
      reads this
    {
      byName.Some? == byUser.Some? == handle == !closed
    }

    function CurrentIndex(): Option<Index>
      reads this
    {
      if byName.Some? && byUser.Some? then Some(Index(byName.value, byUser.value)) else None
    }

    /** The state of the transition system the object is in between two operations. */
    function View(phase: Phase): Store
      reads this
    {
      Store(rows, files, Some(Process(phase, CurrentIndex(), closed, handle, None, poolCount, shut, {})))
    }

    // -------------------------------------------------------------------------------------
    // Lookups
    // -------------------------------------------------------------------------------------

    method Get(name: string) returns (r: Result<Database>)
      requires Valid()
      ensures closed ==> r == Failure(ErrClosed)
      ensures !closed ==> r == if name in byName.value then Success(byName.value[name]) else Failure(ErrNotFound)
      ensures !closed && IndexOk(CurrentIndex().value) && r.Success? ==>
                r.value.record.name == name && r.value.record in Rows(CurrentIndex().value)
    {
      if closed { return Failure(ErrClosed); }
      if name !in byName.value { return Failure(ErrNotFound); }
      r := Success(byName.value[name]);
    }

    method GetByUsername(username: string) returns (r: Result<Database>)
      requires Valid()
      ensures closed ==> r == Failure(ErrClosed)
      ensures !closed ==> r == if username in byUser.value then Success(byUser.value[username]) else Failure(ErrNotFound)
      ensures !closed && IndexOk(CurrentIndex().value) && r.Success? ==>
                r.value.record.username == username && r.value.record in Rows(CurrentIndex().value)
    {
      if closed { return Failure(ErrClosed); }
      if username !in byUser.value { return Failure(ErrNotFound); }
      r := Success(byUser.value[username]);
    }

    /** Every indexed tenant once, in no particular order. */
    method List() returns (r: Result<seq<Record>>)
      requires Valid()
      ensures closed ==> r == Failure(ErrClosed)
      ensures !closed ==> r.Success? && |r.value| == |byName.value|
      ensures !closed ==> (forall x :: x in r.value <==> x in Rows(CurrentIndex().value))
    {
      if closed { return Failure(ErrClosed); }
      var out: seq<Record> := [];
      var m := byName.value;
      var left := m.Keys;
      while left != {}
        invariant left <= m.Keys && |out| + |left| == |m|
        invariant forall x :: x in out <==> exists n :: n in m && n !in left && m[n].record == x
        decreases left
      {
        var n :| n in left;
        ghost var before := left;
        out := out + [m[n].record];
        left := left - {n};
        assert forall k | k in m :: k !in left <==> k !in before || k == n;
      }
      r := Success(out);
    }

    // -------------------------------------------------------------------------------------
    // Updates
    // -------------------------------------------------------------------------------------

    /** A rejected publish changes neither map. */
    method PublishLocked(db: Database) returns (ok: bool)
      requires Valid() && !closed
      modifies this`byName, this`byUser
      ensures Valid()
      ensures ok == Publish(old(CurrentIndex()).value, db).Some?
      ensures ok <==> db.record.name !in old(byName).value && db.record.username !in old(byUser).value
      ensures ok ==> byName == Some(old(byName).value[db.record.name := db])
                     && byUser == Some(old(byUser).value[db.record.username := db])
      ensures CurrentIndex() == if ok then Publish(old(CurrentIndex()).value, db) else old(CurrentIndex())
      ensures old(IndexOk(CurrentIndex().value)) && db.path == DbPath(db.record.name) ==> IndexOk(CurrentIndex().value)
    {
      ghost var i := CurrentIndex().value;
      if Publish(i, db).Some? && IndexOk(i) && db.path == DbPath(db.record.name) {
        PublishKeepsIndex(i, db);
      }
      if db.record.name in byName.value { return false; }
      if db.record.username in byUser.value { return false; }
      byName := Some(byName.value[db.record.name := db]);
      byUser := Some(byUser.value[db.record.username := db]);
      ok := true;
    }

    /** Close: every published pool is closed, both maps and the handle become nil. */
    method Close()
      requires Valid()
      modifies this
      ensures Valid() && closed
      ensures forall phase :: View(phase).process == Some(Closed(old(View(phase)).process.value))
      ensures rows == old(rows) && files == old(files) && poolCount == old(poolCount)
      ensures CurrentIndex() == None && shut == old(shut) + PublishedPools(old(CurrentIndex()))
    {
      if closed { return; }
      closed := true;
      var m := byName.value;
      var left := m.Keys;
      ghost var before := shut;
      while left != {}
        invariant left <= m.Keys
        invariant shut == before + (set n | n in m && n !in left :: m[n].pool)
        invariant rows == old(rows) && files == old(files) && poolCount == old(poolCount) && closed
        decreases left
      {
        var n :| n in left;
        shut := shut + {m[n].pool};
        assert (set k | k in m && k !in left - {n} :: m[k].pool)
            == (set k | k in m && k !in left :: m[k].pool) + {m[n].pool};
        left := left - {n};
      }
      assert left == {} && (set n | n in m && n !in left :: m[n].pool) == (set n | n in m :: m[n].pool);
      byName, byUser := None, None;
      handle := false;
    }

    // -------------------------------------------------------------------------------------
    // Open
    // -------------------------------------------------------------------------------------

    /** The transition system after a failed step of Open: it closes the store at once. */
    ghost function Broken(): Store
      reads this
    {
      var s := View(OpenFailed);
      s.(process := Some(Failed(s.process.value)))
    }

    /** Reconciliation of an arbitrary catalog, in an arbitrary order.  Success leaves no creating
        row, and none of its files that could be removed; in every case the ready rows stay, and
        the files of those that share no path with a creating row. */
    method Reconcile(o: Opening) returns (ok: bool, ghost script: seq<Event>)
      requires Valid() && !closed
      modifies this`rows, this`files
      ensures Valid()
      ensures var s := old(View(Reconciling(Names(WithStatus(rows, Creating)))));
              (if ok then View(Loading(WithStatus(rows, Ready))) else Broken()) == Run(s, script)
      ensures ok ==> rows == WithStatus(old(rows), Ready)
      ensures ok ==> files == Remove(old(files), AllPaths(WithStatus(old(rows), Creating)), o.stuck)
      ensures ok ==> forall r :: r in rows <==> r in old(rows) && r.status != Creating
      ensures ok ==> forall p :: p in files <==>
                       (p in old(files)
                        && (p in o.stuck || forall r | r in old(rows) && r.status == Creating :: p !in TenantPaths(r.name)))
      ensures ok <==> o.creatingListed && forall r | r in WithStatus(old(rows), Creating) :: r.name in o.deletable
      ensures WithStatus(rows, Ready) == WithStatus(old(rows), Ready)
      ensures forall r | r in WithStatus(old(rows), Ready) && Apart(old(rows), r) ::
                SameFiles(old(files), files, TenantPaths(r.name))
    {
      var left := Names(WithStatus(rows, Creating));
      ghost var s := View(Reconciling(left));
      script := [];
      NothingDone(rows, files, o.stuck);
      if !o.creatingListed {
        Took(s, script, s, ReconcileDone(false), Broken());
        return false, script + [ReconcileDone(false)];
      }
      while left != {}
        invariant left <= Names(WithStatus(old(rows), Creating))
        invariant View(Reconciling(left)) == Run(s, script)
        invariant rows == Remaining(old(rows), left)
        invariant files == Remove(old(files), AllPaths(Done(old(rows), left)), o.stuck)
        invariant forall r | r in Done(old(rows), left) :: r.name in o.deletable
        decreases left
      {
        var name :| name in left;
        ghost var e := ReconcileRow(name, o.stuck, name in o.deletable);
        ghost var m := View(Reconciling(left));
        ghost var row :| row in WithStatus(old(rows), Creating) && row.name == name;
        OneMoreDone(old(rows), old(files), left, row, o.stuck);
        files := Remove(files, TenantPaths(name), o.stuck);
        if name !in o.deletable {
          ReadyFilesKept(old(rows), old(files), left - {name}, o.stuck);
          Took(s, script, m, e, Broken());
          return false, script + [e];
        }
        rows := DeleteCreating(rows, name);
        left := left - {name};
        Took(s, script, m, e, View(Reconciling(left)));
        script := script + [e];
      }
      AllDone(old(rows));
      ReadyFilesKept(old(rows), old(files), left, o.stuck);
      Took(s, script, View(Reconciling({})), ReconcileDone(true), View(Loading(WithStatus(rows, Ready))));
      return true, script + [ReconcileDone(true)];
    }

    /** One row: read, stamp, file, pool, index. */
    method LoadRow(r: Record, o: Opening, ghost left: set<Record>, ghost s: Store, ghost before: seq<Event>)
      returns (ok: bool, ghost script: seq<Event>)
      requires Valid() && r in left && View(Loading(left)) == Run(s, before) && LoadedBut(Run(s, before), left)
      modifies this`byName, this`byUser, this`files, this`poolCount, this`shut
      ensures Valid() && (if ok then View(Loading(left - {r})) else Broken()) == Run(s, script)
      ensures ok <==> RowLoads(r, old(files), o)
      ensures if ok then LoadedBut(Run(s, script), left - {r}) else AllShut(Run(s, script))
      ensures Databases(files) == Databases(old(files))
    {
      if RowLoads(r, files, o) {
        RowTakenLoads(Run(s, before), left, r, o.image(r.name));
        TouchSameDatabases(files, r.name, o.image(r.name));
        ok, script := IndexRow(r, o.image(r.name), left, s, before);
      } else {
        script := RejectRow(r, o, left, s, before);
        ok := false;
      }
    }

    /** A row that is not delivered, cannot be read back or has no file ends Open at once; one
        whose pool does not open may have been touched by SQLite. */
    method RejectRow(r: Record, o: Opening, ghost left: set<Record>, ghost s: Store, ghost before: seq<Event>)
      returns (ghost script: seq<Event>)
      requires Valid() && r in left && View(Loading(left)) == Run(s, before) && LoadedBut(Run(s, before), left)
      requires !RowLoads(r, files, o)
      modifies this`files
      ensures Valid() && Broken() == Run(s, script) && AllShut(Run(s, script)) && Databases(files) == Databases(old(files))
    {
      ghost var e := RejectingEvent(r, o);
      RejectTaken(s, before, left, r, o);
      if r.name in o.readable && r.created.Some? && DbPath(r.name) in files {
        TouchSameDatabases(files, r.name, o.image(r.name));
        files := Touch(files, r.name, o.image(r.name));
      }
      script := before + [e];
    }

    /** The row's pool opens and is published, or closed again. */
    method IndexRow(r: Record, image: FileImage, ghost left: set<Record>, ghost s: Store, ghost before: seq<Event>)
      returns (published: bool, ghost script: seq<Event>)
      requires Valid() && !closed && r.created.Some? && DbPath(r.name) in files
      requires r in left && View(Loading(left)) == Run(s, before)
      modifies this`byName, this`byUser, this`files, this`poolCount, this`shut
      ensures Valid() && (if published then View(Loading(left - {r})) else Broken()) == Run(s, script)
      ensures Run(s, script) == RowTaken(Run(s, before), r, image)
      ensures files == Touch(old(files), r.name, image)
      ensures published <==> r.name !in old(byName).value && r.username !in old(byUser).value
    {
      LoadRowTaken(s, before, View(Loading(left)), r, image);
      files := Touch(files, r.name, image);
      var db := Database(r, DbPath(r.name), poolCount);
      poolCount := poolCount + 1;
      published := PublishLocked(db);
      if !published {
        shut := shut + {db.pool};
      }
      script := before + [TenantStore.LoadRow(r, image, true)] + [PublishRow];
    }

    /** Loading of an arbitrary catalog in an arbitrary order: it succeeds exactly when the rows
        are listed to the end and each can be loaded; then the index holds exactly them. */
    method LoadReady(o: Opening, ghost s: Store, ghost before: seq<Event>) returns (ok: bool, ghost script: seq<Event>)
      requires Valid() && View(Loading(WithStatus(rows, Ready))) == Run(s, before)
      requires LoadedBut(Run(s, before), WithStatus(rows, Ready))
      modifies this`byName, this`byUser, this`files, this`poolCount, this`shut
      ensures Valid() && (if ok then View(Serving) else Broken()) == Run(s, script)
      ensures ok <==> o.readyListed && o.complete && WithStatus(rows, Ready) <= Loadable(WithStatus(rows, Ready), old(files), o)
      ensures if ok then AllLoaded(Run(s, script)) else AllShut(Run(s, script))
    {
      ghost var ready := WithStatus(rows, Ready);
      if !o.readyListed {
        LoadDoneTaken(s, before, ready, false);
        return false, before + [LoadDone(false)];
      }
      ok, script := LoadRows(WithStatus(rows, Ready), o, s, before);
      if !ok { return false, script; }
      LoadDoneTaken(s, script, {}, o.complete);
      ok, script := o.complete, script + [LoadDone(o.complete)];
    }

    method LoadRows(ready: set<Record>, o: Opening, ghost s: Store, ghost before: seq<Event>)
      returns (ok: bool, ghost script: seq<Event>)
      requires Valid() && View(Loading(ready)) == Run(s, before) && LoadedBut(Run(s, before), ready)
      modifies this`byName, this`byUser, this`files, this`poolCount, this`shut
      ensures Valid() && (if ok then View(Loading({})) else Broken()) == Run(s, script)
      ensures ok <==> ready <= Loadable(ready, old(files), o)
      ensures if ok then LoadedBut(Run(s, script), {}) else AllShut(Run(s, script))
    {
      ghost var start := files;
      var left := ready;
      script := before;
      ok := true;
      while ok && left != {}
        invariant Valid() && LoadingWell(ok, ready, left, start, files, o)
        invariant (if ok then View(Loading(left)) else Broken()) == Run(s, script)
        invariant if ok then LoadedBut(Run(s, script), left) else AllShut(Run(s, script))
        decreases left, ok
      {
        var r :| r in left;
        ghost var here := files;
        ok, script := LoadRow(r, o, left, s, script);
        LoadsOn(ok, ready, left, start, here, files, r, o);
        left := left - {r};
      }
      if ok { LoadedAll(ready, start, files, o); }
    }

    /** Open on an arbitrary catalog.  From the migrated catalog on it is a run of the transition
        system; a failed Open leaves no pool open. */
    method Open(o: Opening) returns (ok: bool, ghost script: seq<Event>)
      requires Valid() && !closed && Unique(rows)
      requires CurrentIndex() == Some(EMPTY_INDEX) && poolCount == 0 && shut == {}
      modifies this
      ensures Valid() && closed == !ok
      ensures !o.prepared ==> rows == old(rows) && files == old(files)
      ensures o.prepared ==> View(if ok then Serving else OpenFailed) == Run(Store(old(rows), old(files), None), script)
      ensures WithStatus(rows, Ready) == WithStatus(old(rows), Ready)
      ensures ok <==> o.prepared && o.creatingListed && o.readyListed && o.complete
                      && (forall r | r in WithStatus(old(rows), Creating) :: r.name in o.deletable)
                      && (forall r | r in old(rows) && r.status == Ready ::
                            && r.name in o.readable && r.created.Some? && r.name in o.openable && DbPath(r.name) in old(files)
                            && (Apart(old(rows), r) || DbPath(r.name) in o.stuck))
      ensures ok ==> rows == WithStatus(old(rows), Ready) && Rows(CurrentIndex().value) == rows
      ensures ok ==> IndexOk(CurrentIndex().value) && Pools(CurrentIndex().value) == Below(poolCount)
      ensures !ok ==> shut == Below(poolCount)
    {
      script := [];
      assert Rows(EMPTY_INDEX) == {} && Pools(EMPTY_INDEX) == {} && Below(0) == {};
      if !o.prepared {
        Close();
        return false, script;
      }
      ghost var root := Store(rows, files, None);
      ghost var booted := View(Reconciling(Names(WithStatus(rows, Creating))));
      Took(root, [], root, Boot, booted);
      AllLoadIff(rows, files, o);
      ok, script := Reconcile(o);
      AfterBoot(root, booted, script);
      script := [Boot] + script;
      if ok {
        ok, script := LoadReady(o, root, script);
      }
      if !ok {
        Close();
      }
    }

    // -------------------------------------------------------------------------------------
    // Create and Import
    // -------------------------------------------------------------------------------------

    /** The same state with an operation under way. */
    ghost function Busy(op: Op): Store
      reads this
    {
      var s := View(Serving);
      s.(process := Some(s.process.value.(op := Some(op))))
    }

    predicate Unindexed(record: Record)
      reads this
    {
      byName.Some? && byUser.Some? && record.name !in byName.value && record.username !in byUser.value
    }

    /** The store is open and no row has the new tenant's name or username. */
    ghost predicate Admitted(record: Record)
      reads this
    {
      !closed && forall r | r in rows :: r.name != record.name && r.username != record.username
    }

    /** The store is open and nothing in the catalog and among the files stands against the new
        tenant. */
    predicate Commits(kind: Kind, record: Record)
      reads this
    {
      !closed && Free(rows, record.name, record.username) && (kind.Import? || DbPath(record.name) !in files)
    }

    /** Nor does anything in the index. */
    predicate Admits(kind: Kind, record: Record)
      reads this
    {
      Commits(kind, record) && Unindexed(record)
    }

    /** Create.  `script` is the sequence of steps of the transition system it took. */
    method Create(record: Record, o: Outcomes) returns (r: Result<Database>, ghost script: seq<Event>)
      requires Valid() && NewRecord(record)
      modifies this
      ensures Valid() && closed == old(closed) && OwnSteps(script)
      ensures View(Serving) == Run(old(View(Serving)), script)
      ensures r.Success? ==> old(!closed) && r.value.record == record.(status := Ready)
                             && rows == old(rows) + {r.value.record}
                             && Publish(old(CurrentIndex()).value, r.value) == CurrentIndex()
      ensures r.Failure? ==> CurrentIndex() == old(CurrentIndex())
      ensures rows == if old(Commits(Kind.Create, record)) && UpToCommit(o) then old(rows) + {record.(status := Ready)} else old(rows)
      ensures LeftOnDisk(Kind.Create, record, "", o, old(Admitted(record)), old(files), files)
      ensures old(!closed && IndexOk(CurrentIndex().value)) ==> IndexOk(CurrentIndex().value)
      ensures r.Success? <==> old(Admits(Kind.Create, record)) && AllWell(o)
    {
      r, script := Provision(Kind.Create, record, "", o);
    }

    /** Import: as Create, with the given content and without exclusive creation. */
    method Import(record: Record, data: string, o: Outcomes) returns (r: Result<Database>, ghost script: seq<Event>)
      requires Valid() && NewRecord(record)
      modifies this
      ensures Valid() && closed == old(closed) && OwnSteps(script)
      ensures View(Serving) == Run(old(View(Serving)), script)
      ensures r.Success? ==> old(!closed) && r.value.record == record.(status := Ready)
                             && rows == old(rows) + {r.value.record}
                             && Publish(old(CurrentIndex()).value, r.value) == CurrentIndex()
      ensures r.Failure? ==> CurrentIndex() == old(CurrentIndex())
      ensures rows == if old(Commits(Kind.Import, record)) && UpToCommit(o) then old(rows) + {record.(status := Ready)} else old(rows)
      ensures LeftOnDisk(Kind.Import, record, data, o, old(Admitted(record)), old(files), files)
      ensures old(!closed && IndexOk(CurrentIndex().value)) ==> IndexOk(CurrentIndex().value)
      ensures r.Success? <==> old(Admits(Kind.Import, record)) && AllWell(o)
    {
      r, script := Provision(Kind.Import, record, data, o);
    }

    /** The common course of Create and Import. */
    method Provision(kind: Kind, record: Record, data: string, o: Outcomes)
      returns (r: Result<Database>, ghost script: seq<Event>)
      requires Valid() && NewRecord(record)
      modifies this
      ensures Valid() && closed == old(closed) && OwnSteps(script)
      ensures View(Serving) == Run(old(View(Serving)), script)
      ensures r.Success? ==> old(!closed) && r.value.record == record.(status := Ready)
                             && rows == old(rows) + {r.value.record}
                             && Publish(old(CurrentIndex()).value, r.value) == CurrentIndex()
      ensures r.Failure? ==> CurrentIndex() == old(CurrentIndex())
      ensures rows == if old(Commits(kind, record)) && UpToCommit(o) then old(rows) + {record.(status := Ready)} else old(rows)
      ensures LeftOnDisk(kind, record, data, o, old(Admitted(record)), old(files), files)
      ensures old(!closed && IndexOk(CurrentIndex().value)) ==> IndexOk(CurrentIndex().value)
      ensures r.Success? <==> old(Admits(kind, record)) && AllWell(o)
    {
      ghost var s := View(Serving);
      script := [];
      FilesLaw(kind, record, data, o, Admitted(record), files);
      if closed { return Failure(ErrClosed), []; }
      var op := Op(kind, record, data, Committed);
      var ok;
      ok, script := CommitTenant(kind, record, data, o, s);
      if !ok { return Failure(ErrOther), script; }
      var pool := poolCount;
      ok, script := OpenTenantPool(op, o, s, script);
      if !ok { return Failure(ErrOther), script; }
      r, script := PublishTenant(op.(at := Opened(pool)), s, script);
    }

    /** From the check of the closed flag to the commit. */
    method CommitTenant(kind: Kind, record: Record, data: string, o: Outcomes, ghost s: Store)
      returns (ok: bool, ghost script: seq<Event>)
      requires Valid() && !closed && NewRecord(record) && s == View(Serving)
      modifies this
      ensures Valid() && !closed && OwnSteps(script) && CurrentIndex() == old(CurrentIndex())
      ensures (if ok then Busy(Op(kind, record, data, Committed)) else View(Serving)) == Run(s, script)
      ensures rows == if ok then old(rows) + {record.(status := Ready)} else old(rows)
      ensures ok <==> old(Commits(kind, record)) && UpToCommit(o)
      ensures files == FilesUpToCommit(kind, record, data, o, old(Free(rows, record.name, record.username)), old(files))
    {
      var op := Op(kind, record, data, Checked);
      Took(s, [], s, StartOp(kind, record, data), Busy(op));
      script := [] + [StartOp(kind, record, data)];
      ok, script := Reserve(op, o, s, script);
      if !ok { return; }
      ok, script := MakeFile(op.(at := Inserted), o, s, script);
      if !ok { return; }
      var pool := poolCount;
      ok, script := ValidateFile(op.(at := FileMade), o, s, script);
      if !ok { return; }
      ok, script := CloseValidationPool(op.(at := Validating(pool)), o, s, script);
      if !ok { return; }
      ok, script := MarkReadyRow(op.(at := Validated), o, s, script);
      if !ok { return; }
      ok, script := CommitRow(op.(at := Marked), o, s, script);
    }

    /** The catalog transaction begins and the row is inserted as creating. */
    method Reserve(op: Op, o: Outcomes, ghost s: Store, ghost before: seq<Event>)
      returns (ok: bool, ghost script: seq<Event>)
      requires Valid() && !closed && OwnSteps(before) && Busy(op) == Run(s, before) && op.at.Checked?
      modifies this
      ensures Valid() && !closed && OwnSteps(script) && CurrentIndex() == old(CurrentIndex())
      ensures (if ok then Busy(op.(at := Inserted)) else View(Serving)) == Run(s, script)
      ensures rows == old(rows) && files == old(files)
      ensures ok <==> o.begin && o.insert && Free(rows, op.record.name, op.record.username)
    {
      script := before + [Begin(o.begin)];
      Took(s, before, Busy(op), Begin(o.begin), if o.begin then Busy(op.(at := Began)) else View(Serving));
      if !o.begin { return false, script; }
      ok := o.insert && Free(rows, op.record.name, op.record.username);
      Took(s, script, Busy(op.(at := Began)), Insert(o.insert), if ok then Busy(op.(at := Inserted)) else View(Serving));
      script := script + [Insert(o.insert)];
    }

    /** Create refuses an existing file; Import overwrites it. */
    method MakeFile(op: Op, o: Outcomes, ghost s: Store, ghost before: seq<Event>)
      returns (ok: bool, ghost script: seq<Event>)
      requires Valid() && !closed && OwnSteps(before) && Busy(op) == Run(s, before) && op.at.Inserted?
      modifies this`files
      ensures Valid() && !closed && OwnSteps(script) && CurrentIndex() == old(CurrentIndex())
      ensures (if ok then Busy(op.(at := FileMade)) else View(Serving)) == Run(s, script)
      ensures ok <==> o.write && (op.kind.Import? || DbPath(op.record.name) !in old(files))
      ensures ok ==> files == old(files)[DbPath(op.record.name) := if op.kind.Create? then "" else op.data]
      ensures !ok ==> files == if o.partial.None? || (op.kind.Create? && DbPath(op.record.name) in old(files)) then old(files)
                               else old(files)[DbPath(op.record.name) := if op.kind.Create? then "" else o.partial.value]
    {
      var path := DbPath(op.record.name);
      ghost var busy := Busy(op);
      ghost var e := TenantStore.MakeFile(o.write, o.partial);
      script := before + [e];
      ok := o.write && (op.kind.Import? || path !in files);
      if ok {
        files := files[path := if op.kind.Create? then "" else op.data];
      } else if o.partial.Some? && (op.kind.Import? || path !in files) {
        files := files[path := if op.kind.Create? then "" else o.partial.value];
      }
      Took(s, before, busy, e, if ok then Busy(op.(at := FileMade)) else View(Serving));
    }

    /** A pool is opened on the new file, or the new files are removed. */
    method ValidateFile(op: Op, o: Outcomes, ghost s: Store, ghost before: seq<Event>)
      returns (ok: bool, ghost script: seq<Event>)
      requires Valid() && !closed && OwnSteps(before) && Busy(op) == Run(s, before) && op.at.FileMade?
      modifies this`files, this`poolCount
      ensures Valid() && !closed && OwnSteps(script) && CurrentIndex() == old(CurrentIndex())
      ensures (if ok then Busy(op.(at := Validating(old(poolCount)))) else View(Serving)) == Run(s, script)
      ensures poolCount == old(poolCount) + if ok then 1 else 0
      ensures ok <==> o.validate
      ensures ok ==> files == Touch(old(files), op.record.name, o.validated)
      ensures !ok ==> files == Remove(Touch(old(files), op.record.name, o.validated), TenantPaths(op.record.name), o.stuck)
    {
      ghost var busy := Busy(op);
      ghost var e := Validate(o.validate, o.validated, o.stuck);
      script := before + [e];
      ok := o.validate;
      files := Touch(files, op.record.name, o.validated);
      if ok {
        poolCount := poolCount + 1;
      } else {
        files := Remove(files, TenantPaths(op.record.name), o.stuck);
      }
      Took(s, before, busy, e, if ok then Busy(op.(at := Validating(old(poolCount)))) else View(Serving));
    }

    /** The validation pool is closed; an error leaves the file behind. */
    method CloseValidationPool(op: Op, o: Outcomes, ghost s: Store, ghost before: seq<Event>)
      returns (ok: bool, ghost script: seq<Event>)
      requires Valid() && !closed && OwnSteps(before) && Busy(op) == Run(s, before) && op.at.Validating?
      modifies this`shut
      ensures Valid() && !closed && OwnSteps(script) && CurrentIndex() == old(CurrentIndex())
      ensures (if ok then Busy(op.(at := Validated)) else View(Serving)) == Run(s, script)
      ensures ok <==> o.closeValidation
      ensures shut == old(shut) + {op.at.pool}
    {
      ghost var busy := Busy(op);
      script := before + [CloseValidation(o.closeValidation)];
      shut := shut + {op.at.pool};
      ok := o.closeValidation;
      Took(s, before, busy, CloseValidation(ok), if ok then Busy(op.(at := Validated)) else View(Serving));
    }

    /** The row becomes ready, or the new files are removed. */
    method MarkReadyRow(op: Op, o: Outcomes, ghost s: Store, ghost before: seq<Event>)
      returns (ok: bool, ghost script: seq<Event>)
      requires Valid() && !closed && OwnSteps(before) && Busy(op) == Run(s, before) && op.at.Validated?
      modifies this`files
      ensures Valid() && !closed && OwnSteps(script) && CurrentIndex() == old(CurrentIndex())
      ensures (if ok then Busy(op.(at := Marked)) else View(Serving)) == Run(s, script)
      ensures ok <==> o.mark
      ensures files == if ok then old(files) else Remove(old(files), Abandoned(op), o.stuck)
    {
      ghost var busy := Busy(op);
      script := before + [MarkReady(o.mark, o.stuck)];
      if !o.mark {
        files := Remove(files, Abandoned(op), o.stuck);
      }
      ok := o.mark;
      Took(s, before, busy, MarkReady(o.mark, o.stuck), if ok then Busy(op.(at := Marked)) else View(Serving));
    }

    /** The transaction commits, or the new files are removed. */
    method CommitRow(op: Op, o: Outcomes, ghost s: Store, ghost before: seq<Event>)
      returns (ok: bool, ghost script: seq<Event>)
      requires Valid() && !closed && OwnSteps(before) && Busy(op) == Run(s, before) && op.at.Marked?
      modifies this`files, this`rows
      ensures Valid() && !closed && OwnSteps(script) && CurrentIndex() == old(CurrentIndex())
      ensures (if ok then Busy(op.(at := Committed)) else View(Serving)) == Run(s, script)
      ensures rows == if ok then old(rows) + {op.record.(status := Ready)} else old(rows)
      ensures ok <==> o.commit
      ensures files == if ok then old(files) else Remove(old(files), Abandoned(op), o.stuck)
    {
      ghost var busy := Busy(op);
      script := before + [Commit(o.commit, o.stuck)];
      if o.commit {
        rows := rows + {op.record.(status := Ready)};
      } else {
        files := Remove(files, Abandoned(op), o.stuck);
      }
      ok := o.commit;
      Took(s, before, busy, Commit(o.commit, o.stuck), if ok then Busy(op.(at := Committed)) else View(Serving));
    }

    /** The committed tenant's pool is opened; an error leaves a ready row without an entry. */
    method OpenTenantPool(op: Op, o: Outcomes, ghost s: Store, ghost before: seq<Event>)
      returns (ok: bool, ghost script: seq<Event>)
      requires Valid() && !closed && OwnSteps(before) && Busy(op) == Run(s, before) && op.at.Committed?
      modifies this`files, this`poolCount
      ensures Valid() && !closed && OwnSteps(script) && CurrentIndex() == old(CurrentIndex())
      ensures (if ok then Busy(op.(at := Opened(old(poolCount)))) else View(Serving)) == Run(s, script)
      ensures ok <==> o.open
      ensures files == Touch(old(files), op.record.name, o.image)
    {
      ghost var busy := Busy(op);
      ghost var e := OpenPool(o.open, o.image);
      script := before + [e];
      files := Touch(files, op.record.name, o.image);
      if o.open {
        poolCount := poolCount + 1;
      }
      ok := o.open;
      Took(s, before, busy, e, if ok then Busy(op.(at := Opened(old(poolCount)))) else View(Serving));
    }

    /** A store closed in the meantime, or a key already indexed, closes the pool again. */
    method PublishTenant(op: Op, ghost s: Store, ghost before: seq<Event>)
      returns (r: Result<Database>, ghost script: seq<Event>)
      requires Valid() && OwnSteps(before) && Busy(op) == Run(s, before) && op.at.Opened?
      modifies this`shut, this`byName, this`byUser
      ensures Valid() && OwnSteps(script) && View(Serving) == Run(s, script)
      ensures r.Success? ==> !closed && r.value.record == op.record.(status := Ready)
                             && Publish(old(CurrentIndex()).value, r.value) == CurrentIndex()
      ensures r.Failure? ==> CurrentIndex() == old(CurrentIndex()) && shut == old(shut) + {op.at.final}
      ensures closed ==> r == Failure(ErrClosed)
      ensures r.Success? <==> !closed && old(Unindexed(op.record))
      ensures old(!closed && IndexOk(CurrentIndex().value)) ==> IndexOk(CurrentIndex().value)
    {
      ghost var busy := Busy(op);
      var db := Database(op.record.(status := Ready), DbPath(op.record.name), op.at.final);
      if closed {
        shut := shut + {op.at.final};
        r := Failure(ErrClosed);
      } else {
        var published := PublishLocked(db);
        if !published {
          shut := shut + {op.at.final};
        }
        r := if published then Success(db) else Failure(ErrOther);
      }
      Took(s, before, busy, PublishNew, View(Serving));
      script := before + [PublishNew];
    }
  }

  /** The steps one operation can take by itself. */
  ghost predicate OwnSteps(script: seq<Event>) {
    forall e | e in script ::
      e.StartOp? || e.Begin? || e.Insert? || e.MakeFile? || e.Validate? || e.CloseValidation?
      || e.MarkReady? || e.Commit? || e.OpenPool? || e.PublishNew?
  }

  lemma Took(s: Store, script: seq<Event>, m: Store, e: Event, m': Store)
    requires m == Run(s, script) && Next(m, e) == m'
    ensures Run(s, script + [e]) == m'
  {
    RunThen(s, script, e);
  }

  lemma LoadDoneTaken(s: Store, script: seq<Event>, left: set<Record>, ok: bool)
    requires LoadedBut(Run(s, script), left) && (ok ==> left == {})
    ensures var m := Run(s, script);
            Run(s, script + [LoadDone(ok)])
            == m.(process := Some(if ok then m.process.value.(phase := Serving) else Failed(m.process.value)))
    ensures if ok then AllLoaded(Run(s, script + [LoadDone(ok)])) else AllShut(Run(s, script + [LoadDone(ok)]))
  {
    RunThen(s, script, LoadDone(ok));
  }

  /** The state after a row's pool has opened and the row is published, or Open has failed. */
  function RowTaken(m: Store, row: Record, image: FileImage): Store
    requires m.process.Some? && m.process.value.phase.Loading? && m.process.value.index.Some?
  {
    var p := m.process.value;
    var db := Database(row, DbPath(row.name), p.poolCount);
    var i := Publish(p.index.value, db);
    var q := p.(poolCount := p.poolCount + 1);
    m.(files := Touch(m.files, row.name, image),
       process := Some(if i.Some? then q.(phase := Loading(p.phase.rows - {row}), index := i)
                       else Failed(q.(shut := p.shut + {db.pool}))))
  }

  function RejectingEvent(r: Record, o: Opening): Event {
    if r.name in o.readable then LoadRow(r, o.image(r.name), r.name in o.openable) else LoadDone(false)
  }

  lemma RejectTaken(s: Store, script: seq<Event>, left: set<Record>, r: Record, o: Opening)
    requires LoadedBut(Run(s, script), left) && r in left && !RowLoads(r, Run(s, script).files, o)
    ensures var m := Run(s, script);
            var touched := r.name in o.readable && r.created.Some? && DbPath(r.name) in m.files;
            Run(s, script + [RejectingEvent(r, o)])
            == m.(files := if touched then Touch(m.files, r.name, o.image(r.name)) else m.files,
                  process := Some(Failed(m.process.value)))
    ensures AllShut(Run(s, script + [RejectingEvent(r, o)]))
  {
    RunThen(s, script, RejectingEvent(r, o));
  }

  lemma LoadRowTaken(s: Store, script: seq<Event>, m: Store, row: Record, image: FileImage)
    requires m == Run(s, script) && m.process.Some? && m.process.value.phase.Loading? && m.process.value.index.Some?
    requires row in m.process.value.phase.rows && row.created.Some? && DbPath(row.name) in m.files
    ensures Run(s, script + [LoadRow(row, image, true)] + [PublishRow]) == RowTaken(m, row, image)
  {
    RunThen(s, script, LoadRow(row, image, true));
    RunThen(s, script + [LoadRow(row, image, true)], PublishRow);
  }

  lemma AfterBoot(root: Store, booted: Store, script: seq<Event>)
    requires Next(root, Boot) == booted
    ensures Run(root, [Boot] + script) == Run(booted, script)
  {
    assert ([Boot] + script)[1..] == script;
  }

  // Loading

  /** The row is delivered, can be read back, and has its file and a pool that opens. */
  predicate RowLoads(r: Record, files: Files, o: Opening) {
    r.name in o.readable && r.created.Some? && DbPath(r.name) in files && r.name in o.openable
  }

  /** The files that are not journals. */
  function Databases(files: Files): set<Path> {
    set p | p in files && (p == [] || p[|p| - 1] == [] || Ending(p) == 'e')
  }

  /** The rows that load. */
  function Loadable(rows: set<Record>, files: Files, o: Opening): set<Record> {
    set r | r in rows && RowLoads(r, files, o)
  }

  /** Where loading stands: the rows seen load, or one was met that does not. */
  ghost predicate LoadingWell(ok: bool, ready: set<Record>, left: set<Record>, start: Files, here: Files, o: Opening) {
    if ok then Databases(here) == Databases(start) && left <= ready && ready - left <= Loadable(ready, start, o)
    else !(ready <= Loadable(ready, start, o))
  }

  lemma LoadsOn(ok: bool, ready: set<Record>, left: set<Record>, start: Files, here: Files, after: Files, r: Record, o: Opening)
    requires LoadingWell(true, ready, left, start, here, o) && r in left
    requires ok == RowLoads(r, here, o) && Databases(after) == Databases(here)
    ensures LoadingWell(ok, ready, left - {r}, start, after, o)
  {
    PathEndings(r.name);
    assert DbPath(r.name) in start <==> DbPath(r.name) in Databases(start);
    assert DbPath(r.name) in here <==> DbPath(r.name) in Databases(here);
  }

  lemma LoadedAll(ready: set<Record>, start: Files, here: Files, o: Opening)
    requires LoadingWell(true, ready, {}, start, here, o)
    ensures ready <= Loadable(ready, start, o)
  {
  }

  lemma TouchSameDatabases(files: Files, name: string, image: FileImage)
    requires DbPath(name) in files
    ensures Databases(Touch(files, name, image)) == Databases(files)
  {
    PathEndings(name);
    JournalEndings(DbPath(name));
  }

  /** Loading, with only the rows of `left` still to come: the index holds the other ready rows
      and every pool opened. */
  ghost predicate LoadedBut(m: Store, left: set<Record>) {
    match m.process
    case None => false
    case Some(p) =>
      && p.phase == Loading(left) && p.index.Some? && !p.closed && p.shut == {}
      && Unique(m.rows) && left <= WithStatus(m.rows, Ready) && HoldsExactly(p, WithStatus(m.rows, Ready) - left)
  }

  /** The index is one relation over the given rows, with the pools 0 to poolCount - 1. */
  ghost predicate HoldsExactly(p: Process, rows: set<Record>)
    requires p.index.Some?
  {
    IndexOk(p.index.value) && OwnPools(p.index.value) && Rows(p.index.value) == rows
    && Pools(p.index.value) == Below(p.poolCount)
  }

  ghost predicate AllLoaded(m: Store) {
    && m.process.Some? && m.process.value.phase.Serving? && m.process.value.index.Some?
    && HoldsExactly(m.process.value, WithStatus(m.rows, Ready))
  }

  ghost predicate AllShut(m: Store) {
    m.process.Some? && m.process.value.shut == Below(m.process.value.poolCount)
  }

  lemma RowTakenLoads(m: Store, left: set<Record>, row: Record, image: FileImage)
    requires LoadedBut(m, left) && row in left
    ensures LoadedBut(RowTaken(m, row, image), left - {row})
  {
    var i := m.process.value.index.value;
    var db := Database(row, DbPath(row.name), m.process.value.poolCount);
    NextIsFree(m.rows, Rows(i), left, row);
    FreeIsPublished(i, db);
    PublishKeepsIndex(i, db);
    PublishAdds(i, db);
    assert WithStatus(m.rows, Ready) - (left - {row}) == (WithStatus(m.rows, Ready) - left) + {row};
  }

  lemma NextIsFree(rows: set<Record>, loaded: set<Record>, left: set<Record>, r: Record)
    requires Unique(rows) && loaded == WithStatus(rows, Ready) - left && r in left && left <= WithStatus(rows, Ready)
    ensures Free(loaded, r.name, r.username)
  {
    forall x | x in loaded ensures x.name != r.name && x.username != r.username {
      assert x in rows && r in rows && x != r;
    }
  }

  // What an operation leaves on disk

  /** The files up to the commit of an operation on an open store. */
  function FilesUpToCommit(kind: Kind, record: Record, data: string, o: Outcomes, free: bool, files: Files): Files {
    var path, name := DbPath(record.name), record.name;
    var content := if kind.Create? then "" else data;
    if !o.begin || !o.insert || !free || (kind.Create? && path in files) then files
    else if !o.write then
      if o.partial.None? then files else files[path := if kind.Create? then "" else o.partial.value]
    else
      var validated := Touch(files[path := content], name, o.validated);
      if !o.validate then Remove(validated, TenantPaths(name), o.stuck)
      else if !o.closeValidation || (o.mark && o.commit) then validated
      else Remove(validated, if kind.Create? then {path} else TenantPaths(name), o.stuck)
  }

  /** A file in the storage root. */
  function InRoot(file: string): Path {
    ROOT + [file]
  }

  /** SQLite has left this of a database and its journals. */
  ghost predicate Imaged(files: Files, name: string, image: FileImage) {
    && InRoot(name + ".sqlite") in files && files[InRoot(name + ".sqlite")] == image.main
    && JournalsAre(files, name, image)
  }

  ghost predicate JournalsAre(files: Files, name: string, image: FileImage) {
    && (InRoot(name + ".sqlite-wal") in files <==> image.wal.Some?)
    && (image.wal.Some? ==> files[InRoot(name + ".sqlite-wal")] == image.wal.value)
    && (InRoot(name + ".sqlite-shm") in files <==> image.shm.Some?)
    && (image.shm.Some? ==> files[InRoot(name + ".sqlite-shm")] == image.shm.value)
  }

  /** Gone, or the system refused to remove it. */
  ghost predicate Gone(files: Files, file: string, stuck: set<Path>) {
    InRoot(file) in files ==> InRoot(file) in stuck
  }

  /** What Create and Import leave on disk, by how far they came: no other file changes; a refused
      or unreserved tenant changes none; a failed write leaves at most a partial file; a failed
      validation leaves nothing; an error of closing the validation pool leaves all; a failure to
      mark or commit leaves nothing of an Import and the journals of a Create; after the commit all
      files are there. */
  ghost predicate LeftOnDisk(kind: Kind, record: Record, data: string, o: Outcomes, admitted: bool, before: Files, after: Files) {
    var name := record.name;
    var db := InRoot(name + ".sqlite");
    && (forall q | q !in {db, InRoot(name + ".sqlite-wal"), InRoot(name + ".sqlite-shm")} ::
          (q in before <==> q in after) && (q in before ==> after[q] == before[q]))
    && (if !admitted || !o.begin || !o.insert || (kind.Create? && db in before) then after == before
        else if !o.write then
          after == if o.partial.None? then before else before[db := if kind.Create? then "" else o.partial.value]
        else if !o.validate then
          Gone(after, name + ".sqlite", o.stuck) && Gone(after, name + ".sqlite-wal", o.stuck) && Gone(after, name + ".sqlite-shm", o.stuck)
        else if !o.closeValidation then Imaged(after, name, o.validated)
        else if !o.mark || !o.commit then
          && Gone(after, name + ".sqlite", o.stuck)
          && (if kind.Create? then JournalsAre(after, name, o.validated)
              else Gone(after, name + ".sqlite-wal", o.stuck) && Gone(after, name + ".sqlite-shm", o.stuck))
        else Imaged(after, name, o.image))
  }

  lemma PlainTenantPaths(name: string)
    requires Plain(name)
    ensures DbPath(name) == InRoot(name + ".sqlite")
    ensures WithSuffix(DbPath(name), "-wal") == InRoot(name + ".sqlite-wal")
    ensures WithSuffix(DbPath(name), "-shm") == InRoot(name + ".sqlite-shm")
    ensures TenantPaths(name) == {InRoot(name + ".sqlite"), InRoot(name + ".sqlite-wal"), InRoot(name + ".sqlite-shm")}
  {
    DbPathShape(name);
    PlainParts(name);
    PathEndings(name);
    var p := DbPath(name);
    assert p == ROOT + [name + ".sqlite"] && p[..|p| - 1] == ROOT && p[|p| - 1] == name + ".sqlite";
    assert name + ".sqlite" + "-wal" == name + ".sqlite-wal" && name + ".sqlite" + "-shm" == name + ".sqlite-shm";
  }

  lemma TouchedIsImaged(files: Files, name: string, image: FileImage)
    requires Plain(name)
    ensures Imaged(Touch(files, name, image), name, image)
    ensures forall q | q !in TenantPaths(name) ::
              (q in files <==> q in Touch(files, name, image)) && (q in files ==> Touch(files, name, image)[q] == files[q])
  {
    PlainTenantPaths(name);
    PathEndings(name);
  }

  lemma FilesLaw(kind: Kind, record: Record, data: string, o: Outcomes, admitted: bool, before: Files)
    requires Plain(record.name)
    ensures var committed := FilesUpToCommit(kind, record, data, o, admitted, before);
            var done := admitted && UpToCommit(o) && !(kind.Create? && DbPath(record.name) in before);
            LeftOnDisk(kind, record, data, o, admitted, before, if done then Touch(committed, record.name, o.image) else committed)
  {
    var name, path := record.name, DbPath(record.name);
    PlainTenantPaths(name);
    var written := before[path := if kind.Create? then "" else data];
    TouchedIsImaged(written, name, o.validated);
    TouchedIsImaged(FilesUpToCommit(kind, record, data, o, admitted, before), name, o.image);
  }

  // Reconciliation

  function Names(rows: set<Record>): set<string> {
    set r | r in rows :: r.name
  }

  /** No creating row's name leads to the row's own database file. */
  predicate Apart(rows: set<Record>, r: Record) {
    forall c | c in rows && c.status == Creating :: DbPath(c.name) != DbPath(r.name)
  }

  /** With plain names a ready row is apart from every creating one. */
  lemma PlainRowsApart(rows: set<Record>, r: Record)
    requires Unique(rows) && r in rows && r.status == Ready
    requires forall x | x in rows :: Plain(x.name)
    ensures Apart(rows, r)
  {
    forall c | c in rows && c.status == Creating ensures DbPath(c.name) != DbPath(r.name) {
      TenantPathsDisjoint(c.name, r.name);
    }
  }

  /** The creating rows whose names are no longer to be reconciled. */
  function Done(rows: set<Record>, left: set<string>): set<Record> {
    set r | r in rows && r.status == Creating && r.name !in left
  }

  function Remaining(rows: set<Record>, left: set<string>): set<Record> {
    rows - Done(rows, left)
  }

  lemma NothingDone(rows: set<Record>, files: Files, stuck: set<Path>)
    ensures var names := Names(WithStatus(rows, Creating));
            Done(rows, names) == {} && Remaining(rows, names) == rows
            && Remove(files, AllPaths(Done(rows, names)), stuck) == files
  {
  }

  lemma AllDone(rows: set<Record>)
    ensures Done(rows, {}) == WithStatus(rows, Creating) && Remaining(rows, {}) == WithStatus(rows, Ready)
  {
  }

  lemma OneMoreDone(rows: set<Record>, files: Files, left: set<string>, row: Record, stuck: set<Path>)
    requires row in rows && row.status == Creating && row.name in left
    ensures var now := left - {row.name};
            && Remove(files, AllPaths(Done(rows, now)), stuck)
               == Remove(Remove(files, AllPaths(Done(rows, left)), stuck), TenantPaths(row.name), stuck)
            && DeleteCreating(Remaining(rows, left), row.name) == Remaining(rows, now)
            && forall r | r in Done(rows, now) :: r in Done(rows, left) || r.name == row.name
    ensures WithStatus(Remaining(rows, left), Ready) == WithStatus(rows, Ready)
  {
  }

  lemma ReadyFilesKept(rows: set<Record>, files: Files, left: set<string>, stuck: set<Path>)
    ensures forall r | r in WithStatus(rows, Ready) && Apart(rows, r) ::
              SameFiles(files, Remove(files, AllPaths(Done(rows, left)), stuck), TenantPaths(r.name))
    ensures WithStatus(Remaining(rows, left), Ready) == WithStatus(rows, Ready)
  {
    forall r, c | r in WithStatus(rows, Ready) && Apart(rows, r) && c in Done(rows, left)
      ensures TenantPaths(c.name) !! TenantPaths(r.name)
    {
      DisjointIff(c.name, r.name);
    }
  }

  /** Reconciling keeps the database file of a ready row exactly when no creating row's name leads
      to it, or the system refuses to remove it. */
  lemma ReadyFileKeptIff(rows: set<Record>, files: Files, stuck: set<Path>, r: Record)
    requires r in rows && r.status == Ready && DbPath(r.name) in files
    ensures DbPath(r.name) in Remove(files, AllPaths(WithStatus(rows, Creating)), stuck)
       <==> Apart(rows, r) || DbPath(r.name) in stuck
  {
    forall c | c in rows ensures DbPath(r.name) in TenantPaths(c.name) <==> DbPath(c.name) == DbPath(r.name) {
      PathEndings(c.name);
      PathEndings(r.name);
    }
    if !Apart(rows, r) {
      var c :| c in rows && c.status == Creating && DbPath(c.name) == DbPath(r.name);
      assert c in WithStatus(rows, Creating) && DbPath(r.name) in TenantPaths(c.name);
    }
  }

  lemma AllLoadIff(rows: set<Record>, files: Files, o: Opening)
    ensures WithStatus(rows, Ready) <= Loadable(WithStatus(rows, Ready), Remove(files, AllPaths(WithStatus(rows, Creating)), o.stuck), o)
       <==> forall r | r in rows && r.status == Ready ::
              && r.name in o.readable && r.created.Some? && r.name in o.openable && DbPath(r.name) in files
              && (Apart(rows, r) || DbPath(r.name) in o.stuck)
  {
    var ready, left := WithStatus(rows, Ready), Remove(files, AllPaths(WithStatus(rows, Creating)), o.stuck);
    forall r | r in ready
      ensures r in Loadable(ready, left, o)
         <==> r.name in o.readable && r.created.Some? && r.name in o.openable && DbPath(r.name) in files
              && (Apart(rows, r) || DbPath(r.name) in o.stuck)
    {
      if DbPath(r.name) in files { ReadyFileKeptIff(rows, files, o.stuck, r); }
    }
  }

  /** It happens: a catalog with a creating row `x/../a` loses the file of its ready row `a`. */
  lemma ReadyFileLost(x: string, a: Record, c: Record, content: string)
    requires Plain(x) && x !in {"", ".", ".."} && Plain(a.name) && a.status == Ready
    requires c.status == Creating && c.name == x + "/../" + a.name && c.username != a.username
    ensures var rows, files := {a, c}, map[DbPath(a.name) := content];
            Unique(rows) && DbPath(a.name) in files
            && DbPath(a.name) !in Remove(files, AllPaths(WithStatus(rows, Creating)), {})
  {
    SlashesCollide(x, a.name);
    ReadyFileKeptIff({a, c}, map[DbPath(a.name) := content], {}, a);
    assert c in {a, c};
  }

  function AllPaths(rows: set<Record>): set<Path> {
    set r, p | r in rows && p in TenantPaths(r.name) :: p
  }
}
