/** What the tenant store keeps on disk: catalog rows and the files of each tenant, and the
    in-memory index over the rows. */
module Catalog {
  import opened Options

  datatype Status = Creating | Ready

  /** A catalog row.  `created` is None when the stored time stamp cannot be parsed. */
  datatype Record = Record(name: string, labelText: string, username: string, password: string,
                           status: Status, created: Option<int>)

  /** A cleaned absolute path by its components, and the files by path. */
  type Path = seq<string>
  type Files = map<Path, string>

  // ---------------------------------------------------------------------------------------
  // Paths
  // ---------------------------------------------------------------------------------------

  /** The storage root: any directory. */
  const ROOT: Path

  /** The parts of a path between its slashes. */
  function Split(s: string): (parts: seq<string>)
    ensures parts != []
  {
    if s == [] then [""]
    else
      var rest := Split(s[1..]);
      if s[0] == '/' then [""] + rest else [[s[0]] + rest[0]] + rest[1..]
  }

  /** The cleaning of a path: empty and "." parts are dropped, ".." drops the part before it. */
  function Resolve(dir: Path, parts: seq<string>): Path
    decreases |parts|
  {
    if parts == [] then dir
    else if parts[0] == "" || parts[0] == "." then Resolve(dir, parts[1..])
    else if parts[0] == ".." then Resolve(if dir == [] then [] else dir[..|dir| - 1], parts[1..])
    else Resolve(dir + [parts[0]], parts[1..])
  }

  /** The name joined to the root. */
  function DbPath(name: string): Path {
    Resolve(ROOT, Split(name + ".sqlite"))
  }

  function WithSuffix(p: Path, suffix: string): Path {
    if p == [] then [suffix] else p[..|p| - 1] + [p[|p| - 1] + suffix]
  }

  /** A database file with the journal files SQLite keeps beside it. */
  function WithJournals(p: Path): set<Path> {
    {p, WithSuffix(p, "-wal"), WithSuffix(p, "-shm")}
  }

  function TenantPaths(name: string): set<Path> {
    WithJournals(DbPath(name))
  }

  /** The catalog's own files. */
  function ManagementPaths(): set<Path> {
    WithJournals(ROOT + ["management.db"])
  }

  /** A name without a slash, as the store generates them. */
  predicate Plain(name: string) {
    '/' !in name
  }

  /** The directory and the file name, before its extension, that a name leads to. */
  function Dir(name: string): Path {
    var parts := Split(name);
    Resolve(ROOT, parts[..|parts| - 1])
  }

  function Stem(name: string): string {
    var parts := Split(name);
    parts[|parts| - 1]
  }

  function AppendToLast(parts: seq<string>, suffix: string): seq<string>
    requires parts != []
  {
    parts[..|parts| - 1] + [parts[|parts| - 1] + suffix]
  }

  lemma {:induction false} SplitAppend(s: string, suffix: string)
    requires Plain(suffix)
    ensures Split(s + suffix) == AppendToLast(Split(s), suffix)
  {
    if s == [] {
      assert s + suffix == suffix;
      SplitPlain(suffix);
    } else {
      SplitAppend(s[1..], suffix);
      assert (s + suffix)[1..] == s[1..] + suffix;
      AppendBehindHead(s[0], Split(s[1..]), suffix);
    }
  }

  lemma AppendBehindHead(c: char, rest: seq<string>, suffix: string)
    requires rest != []
    ensures AppendToLast([""] + rest, suffix) == [""] + AppendToLast(rest, suffix)
    ensures var long := AppendToLast(rest, suffix);
            AppendToLast([[c] + rest[0]] + rest[1..], suffix) == [[c] + long[0]] + long[1..]
  {
    if |rest| == 1 {
      assert [c] + rest[0] + suffix == [c] + (rest[0] + suffix);
    }
  }

  lemma {:induction false} SplitPlain(s: string)
    requires Plain(s)
    ensures Split(s) == [s]
  {
    if s != [] {
      assert s == [s[0]] + s[1..] && s[0] in s;
      SplitPlain(s[1..]);
    }
  }

  lemma {:induction false} ResolveLast(dir: Path, parts: seq<string>, last: string)
    requires last != "" && last != "." && last != ".."
    ensures Resolve(dir, parts + [last]) == Resolve(dir, parts) + [last]
    decreases |parts|
  {
    var all := parts + [last];
    if parts == [] {
      assert all[1..] == [];
    } else {
      assert all[1..] == parts[1..] + [last];
      var next := if parts[0] == "" || parts[0] == "." then dir
                  else if parts[0] == ".." then (if dir == [] then [] else dir[..|dir| - 1])
                  else dir + [parts[0]];
      ResolveLast(next, parts[1..], last);
    }
  }

  /** Whatever the name, cleaning never reaches its last part. */
  lemma DbPathShape(name: string)
    ensures DbPath(name) == Dir(name) + [Stem(name) + ".sqlite"]
  {
    SplitAppend(name, ".sqlite");
    var parts := Split(name);
    assert |Stem(name) + ".sqlite"| >= 7;
    ResolveLast(ROOT, parts[..|parts| - 1], Stem(name) + ".sqlite");
  }

  lemma SameSuffix(a: string, b: string, suffix: string)
    ensures a + suffix == b + suffix <==> a == b
  {
    if a + suffix == b + suffix {
      assert a == (a + suffix)[..|a|] && b == (b + suffix)[..|b|];
    }
  }

  lemma SameWithSuffix(p: Path, q: Path, suffix: string)
    requires p != [] && q != []
    ensures WithSuffix(p, suffix) == WithSuffix(q, suffix) <==> p == q
  {
    SameSuffix(p[|p| - 1], q[|q| - 1], suffix);
    var a, b := WithSuffix(p, suffix), WithSuffix(q, suffix);
    if a == b {
      assert |p| == |q| && a[..|p| - 1] == p[..|p| - 1] && b[..|p| - 1] == q[..|p| - 1];
      assert p == p[..|p| - 1] + [p[|p| - 1]] && q == q[..|p| - 1] + [q[|p| - 1]];
    }
  }

  /** The last character of a path. */
  function Ending(p: Path): char
    requires p != [] && p[|p| - 1] != []
  {
    var last := p[|p| - 1];
    last[|last| - 1]
  }

  lemma JournalEndings(p: Path)
    requires p != []
    ensures forall suffix | suffix == "-wal" || suffix == "-shm" ::
              var q := WithSuffix(p, suffix); q != [] && q[|q| - 1] == p[|p| - 1] + suffix
    ensures Ending(WithSuffix(p, "-wal")) == 'l' && Ending(WithSuffix(p, "-shm")) == 'm'
  {
  }

  lemma PathEndings(name: string)
    ensures DbPath(name) != [] && DbPath(name)[|DbPath(name)| - 1] != [] && Ending(DbPath(name)) == 'e'
    ensures Ending(WithSuffix(DbPath(name), "-wal")) == 'l' && Ending(WithSuffix(DbPath(name), "-shm")) == 'm'
  {
    DbPathShape(name);
    JournalEndings(DbPath(name));
  }

  /** Two names share none of their three paths exactly when their database files differ. */
  lemma DisjointIff(a: string, b: string)
    ensures TenantPaths(a) !! TenantPaths(b) <==> DbPath(a) != DbPath(b)
  {
    PathEndings(a);
    PathEndings(b);
    SameWithSuffix(DbPath(a), DbPath(b), "-wal");
    SameWithSuffix(DbPath(a), DbPath(b), "-shm");
    assert DbPath(a) in TenantPaths(a) && DbPath(b) in TenantPaths(b);
  }

  /** They are the same file exactly when cleaning leads both names to the same directory and the
      last parts agree. */
  lemma SamePathIff(a: string, b: string)
    ensures DbPath(a) == DbPath(b) <==> Dir(a) == Dir(b) && Stem(a) == Stem(b)
  {
    DbPathShape(a);
    DbPathShape(b);
    SameSuffix(Stem(a), Stem(b), ".sqlite");
    if DbPath(a) == DbPath(b) {
      assert Dir(a) == DbPath(a)[..|DbPath(a)| - 1] && Dir(b) == DbPath(b)[..|DbPath(b)| - 1];
    }
  }

  lemma PlainParts(name: string)
    requires Plain(name)
    ensures Dir(name) == ROOT && Stem(name) == name
  {
    SplitPlain(name);
  }

  /** Distinct names as the store generates them never share a path. */
  lemma TenantPathsDisjoint(a: string, b: string)
    requires Plain(a) && Plain(b) && a != b
    ensures DbPath(a) != DbPath(b) && TenantPaths(a) !! TenantPaths(b)
  {
    PlainParts(a);
    PlainParts(b);
    SamePathIff(a, b);
    DisjointIff(a, b);
  }

  /** No name leads to the catalog or its journals. */
  lemma CatalogApart(name: string)
    ensures TenantPaths(name) !! ManagementPaths()
  {
    var m := ROOT + ["management.db"];
    assert Ending(m) == 'b';
    PathEndings(name);
    JournalEndings(m);
    SameWithSuffix(DbPath(name), m, "-wal");
    SameWithSuffix(DbPath(name), m, "-shm");
  }

  /** With slashes distinct names can lead to one file: `x/../a` and `a`. */
  lemma SlashesCollide(x: string, a: string)
    requires Plain(x) && x !in {"", ".", ".."} && Plain(a)
    ensures x + "/../" + a != a && DbPath(x + "/../" + a) == DbPath(a)
  {
    var name := x + "/../" + a;
    assert |name| == |x| + 4 + |a|;
    assert name == x + ("/../" + a) && ("/../" + a)[1..] == ".." + ("/" + a) && ("/" + a)[1..] == a;
    SplitSlashed(x, "/../" + a);
    SplitSlashed("..", "/" + a);
    SplitPlain(a);
    assert Split(name) == [x] + ([".."] + [a]) == [x, "..", a];
    assert Dir(name) == Resolve(ROOT, [x, ".."]) && Stem(name) == a by {
      assert [x, "..", a][..2] == [x, ".."];
    }
    UpAgain(x);
    PlainParts(a);
    SamePathIff(name, a);
  }

  lemma UpAgain(x: string)
    requires x !in {"", ".", ".."}
    ensures Resolve(ROOT, [x, ".."]) == ROOT
  {
    assert [x, ".."][1..] == [".."] && [".."][1..] == [];
    assert (ROOT + [x])[..|ROOT + [x]| - 1] == ROOT;
  }

  /** Empty and dot parts make no difference. */
  lemma DotsDropped(a: string)
    requires Plain(a)
    ensures DbPath("./" + a) == DbPath(a) && DbPath("/" + a) == DbPath(a)
  {
    SplitPlain(a);
    PlainParts(a);
    SplitSlashed(".", "/" + a);
    assert "./" + a == "." + ("/" + a) && ("/" + a)[1..] == a;
    assert Split("./" + a) == [".", a] && [".", a][..1] == ["."] && ["."][1..] == [];
    SamePathIff("./" + a, a);
    SplitSlashed("", "/" + a);
    assert "/" + a == "" + ("/" + a);
    assert Split("/" + a) == ["", a] && ["", a][..1] == [""] && [""][1..] == [];
    SamePathIff("/" + a, a);
  }

  lemma {:induction false} SplitSlashed(x: string, rest: string)
    requires Plain(x) && rest != [] && rest[0] == '/'
    ensures Split(x + rest) == [x] + Split(rest[1..])
  {
    if x == [] {
      assert x + rest == rest;
    } else {
      assert (x + rest)[1..] == x[1..] + rest;
      assert x == [x[0]] + x[1..] && x[0] in x;
      SplitSlashed(x[1..], rest);
    }
  }

  // ---------------------------------------------------------------------------------------
  // Files
  // ---------------------------------------------------------------------------------------

  /** What SQLite leaves of a tenant's files after it opened or wrote the database. */
  datatype FileImage = FileImage(main: string, wal: Option<string>, shm: Option<string>)

  function Put(files: Files, path: Path, content: Option<string>): Files {
    match content
    case None => files - {path}
    case Some(c) => files[path := c]
  }

  function Touch(files: Files, name: string, image: FileImage): Files {
    var p := DbPath(name);
    Put(Put(files[p := image.main], WithSuffix(p, "-wal"), image.wal), WithSuffix(p, "-shm"), image.shm)
  }

  /** Removal goes on when the system refuses to remove a path. */
  function Remove(files: Files, paths: set<Path>, stuck: set<Path>): Files {
    files - (paths - stuck)
  }

  /** Same presence and content of every path of the set. */
  predicate SameFiles(a: Files, b: Files, paths: set<Path>) {
    forall p | p in paths :: (p in a <==> p in b) && (p in a ==> a[p] == b[p])
  }

  lemma TouchLeavesOthers(files: Files, name: string, image: FileImage, other: string)
    requires DbPath(other) != DbPath(name)
    ensures SameFiles(files, Touch(files, name, image), TenantPaths(other))
  {
    DisjointIff(name, other);
    assert TenantPaths(name) == WithJournals(DbPath(name));
  }

  /** Journal files are never taken for database files. */
  lemma TouchKeepsMain(files: Files, name: string, image: FileImage, other: string)
    ensures DbPath(other) in files ==> DbPath(other) in Touch(files, name, image)
    ensures DbPath(name) in files ==> (DbPath(other) in files <==> DbPath(other) in Touch(files, name, image))
    ensures DbPath(name) in Touch(files, name, image)
  {
    PathEndings(name);
    PathEndings(other);
  }

  lemma RemoveLeavesOthers(files: Files, paths: set<Path>, name: string, stuck: set<Path>, other: string)
    requires DbPath(other) != DbPath(name) && paths <= TenantPaths(name)
    ensures SameFiles(files, Remove(files, paths, stuck), TenantPaths(other))
  {
    DisjointIff(name, other);
  }

  // ---------------------------------------------------------------------------------------
  // Rows
  // ---------------------------------------------------------------------------------------

  /** The PRIMARY KEY and UNIQUE constraints. */
  ghost predicate Unique(rows: set<Record>) {
    forall a, b | a in rows && b in rows && (a.name == b.name || a.username == b.username) :: a == b
  }

  predicate Free(rows: set<Record>, name: string, username: string) {
    forall r | r in rows :: r.name != name && r.username != username
  }

  /** Every row is ready, can be read back, has a plain name and its file; names and usernames
      are unique. */
  ghost predicate DurableOk(rows: set<Record>, files: Files) {
    && Unique(rows)
    && forall r | r in rows :: r.status == Ready && r.created.Some? && Plain(r.name) && DbPath(r.name) in files
  }

  function WithStatus(rows: set<Record>, status: Status): set<Record> {
    set r | r in rows && r.status == status
  }

  // ---------------------------------------------------------------------------------------
  // The index
  // ---------------------------------------------------------------------------------------

  /** A ready tenant with its open pool; pools are numbered in the order they were opened. */
  datatype Database = Database(record: Record, path: Path, pool: nat)

  datatype Index = Index(byName: map<string, Database>, byUser: map<string, Database>)

  const EMPTY_INDEX := Index(map[], map[])

  /** The two maps are one relation, keyed by the record's own fields. */
  ghost predicate IndexOk(i: Index) {
    && (forall n | n in i.byName ::
          var db := i.byName[n];
          db.record.name == n && db.record.username in i.byUser && i.byUser[db.record.username] == db
          && db.path == DbPath(n))
    && (forall u | u in i.byUser ::
          var db := i.byUser[u];
          db.record.username == u && db.record.name in i.byName && i.byName[db.record.name] == db)
  }

  function Publish(i: Index, db: Database): Option<Index> {
    if db.record.name in i.byName || db.record.username in i.byUser then None
    else Some(Index(i.byName[db.record.name := db], i.byUser[db.record.username := db]))
  }

  function Rows(i: Index): set<Record> {
    set n | n in i.byName :: i.byName[n].record
  }

  function Pools(i: Index): set<nat> {
    set n | n in i.byName :: i.byName[n].pool
  }

  /** The two lookups and the listing agree: an entry found under one key is found under the
      other, and the listed rows are those found under their own name, or their own username. */
  lemma LookupsAgree(i: Index)
    requires IndexOk(i)
    ensures forall n | n in i.byName :: i.byName[n].record.username in i.byUser && i.byUser[i.byName[n].record.username] == i.byName[n]
    ensures forall u | u in i.byUser :: i.byUser[u].record.name in i.byName && i.byName[i.byUser[u].record.name] == i.byUser[u]
    ensures forall r :: r in Rows(i) <==> r.name in i.byName && i.byName[r.name].record == r
    ensures forall r :: r in Rows(i) <==> r.username in i.byUser && i.byUser[r.username].record == r
  {
  }

  /** No two entries share a pool. */
  ghost predicate OwnPools(i: Index) {
    forall m, n | m in i.byName && n in i.byName && i.byName[m].pool == i.byName[n].pool :: m == n
  }

  /** Publishing keeps the two maps one relation. */
  lemma PublishKeepsIndex(i: Index, db: Database)
    requires IndexOk(i) && db.path == DbPath(db.record.name)
    requires Publish(i, db).Some?
    ensures IndexOk(Publish(i, db).value)
  {
  }

  /** Publishing adds exactly the new row and the new pool. */
  lemma PublishAdds(i: Index, db: Database)
    requires Publish(i, db).Some?
    ensures Rows(Publish(i, db).value) == Rows(i) + {db.record}
    ensures Pools(Publish(i, db).value) == Pools(i) + {db.pool}
    ensures OwnPools(i) && db.pool !in Pools(i) ==> OwnPools(Publish(i, db).value)
  {
    var m := Publish(i, db).value.byName;
    AddedEntry(i.byName, m, db.record.name, db);
    assert forall n | n in i.byName :: i.byName[n].pool in Pools(i);
  }

  lemma AddedEntry(m: map<string, Database>, m': map<string, Database>, name: string, db: Database)
    requires name !in m && m' == m[name := db]
    ensures (set n | n in m' :: m'[n].record) == (set n | n in m :: m[n].record) + {db.record}
    ensures (set n | n in m' :: m'[n].pool) == (set n | n in m :: m[n].pool) + {db.pool}
  {
    assert m'[name] == db && forall n | n in m :: m'[n] == m[n];
    var a, b := set n | n in m :: m[n].record, set n | n in m' :: m'[n].record;
    assert forall r | r in a + {db.record} :: r in b;
    var c, d := set n | n in m :: m[n].pool, set n | n in m' :: m'[n].pool;
    assert forall p | p in c + {db.pool} :: p in d;
  }

  /** A row whose name and username no indexed row has can be published. */
  lemma FreeIsPublished(i: Index, db: Database)
    requires IndexOk(i) && Free(Rows(i), db.record.name, db.record.username)
    ensures Publish(i, db).Some?
  {
  }
}
