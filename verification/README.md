# A model of the multi-tenant MySQL-to-SQLite proxy

The proxy speaks the MySQL protocol, keeps one SQLite file per tenant and a catalog of tenants
beside them. This project models the parts of it whose correctness spans many functions, steps or
interleavings, and proves what they promise on every input and every run.

| part | modules | form |
|---|---|---|
| tenant store, with crash recovery | `Catalog`, `TenantStore`, `StoreProperties`, `StoreObject` | a transition system whose steps are those of Open, Create, Import and Close, with a crash possible between any two; and the store as a class whose methods are proved to take those steps |
| handshake of one connection | `Handshake` | events in any order beside a store that goes on working |
| sessions and transactions | `Transactions`, `SessionProperties`, `StatementLaws`, `Sessions`, `Handler` | any number of sessions over tenant databases; session, manager, binding, credential provider and handler as classes refining it |
| accept, serve, shut down | `Shutdown`, `ShutdownProperties`, `ProxyObject` | one program counter per actor, any number of connection goroutines, every interleaving; the shared fields as a class |
| SQL dialect rewriting | `Escapes`, `ColumnTypes`, `TypeLaws`, `LimitClause` | scanners over characters, loops where the translator loops |
| information_schema queries | `InfoSchema` | expression trees with SQL's three-valued meaning |

`dafny verify dfyconfig.toml` checks everything.

## What the model takes for granted

- SQLite and the driver: one writer at a time; a transaction reads the snapshot taken by its first
  statement; a write has its whole effect on the contents or fails without any, but inside a
  transaction a failing statement may keep the snapshot, a failing write also the lock; a commit or
  rollback ends the transaction whether or not it reports success; a commit reported as failed did
  not happen. Which statements fail is arbitrary.
- The catalog's uniqueness constraints (storage/store.go:126-142), and that a committed
  transaction survives a crash. Everything in memory is lost in a crash, files are not.
- The `creating` insert and the `ready` update are one transaction (storage/store.go:284-324). So
  a crash in the middle of provisioning leaves at most an orphan file and never a committed
  `creating` row. What holds is that rows have files, not that files have rows.
- One process at a time works on a storage root, which may be any directory. The names Create and
  Import make up hold no slash (`Plain`), and a time stamp the store wrote can be read back. What
  is said of an arbitrary catalog assumes neither.
- How a system call, a query of the catalog or a statement turns out is an argument of the step or
  method that makes it (`Outcomes`, `Opening`, `ok`, `read`, `acquire`, `stuck`, `image`), so a
  statement about all runs covers every pattern of failure. A pool whose Close reports an error
  counts as closed.
- MySQL's comparisons in `InfoSchema`: NULL makes a comparison unknown, two strings or two numbers are
  compared as they are, a string and a number as numbers. What number a string reads as is left open,
  except that the exact results use that every number is read from more than one string (`Rich`) and
  speak of rows whose columns hold text (`TextRow`), as the ones that matter do. What an expression
  other than a column, a literal or a connective evaluates to is left open.
- The client's bytes: a closed socket delivers nothing new, but commands that had arrived before are
  still read and run.

## Where the code falls short of a natural claim

- Session ids come from the clock (proxy.go:212) and registering an id replaces a session with the
  same id (server/session.go:215). Conservation of pooled connections holds across a registration
  exactly when the id is not that of a session with a connection (`ConnectConservesIff`, with
  `ConnectionLost` as a run that loses one). Only the results about sessions ask for unused ids
  (`AllFresh`); those about connections, the wait group, the sweep and the drain do not.
- `s.mgmt` is read outside the lock (storage/store.go:284) and set to nil by Close
  (storage/store.go:425). `NilHandleIff` and, for whole runs, `NilHandleRunIff` say exactly when the
  nil handle is dereferenced; `NilHandleHappens` is such a run.
- The path of a tenant is cleaned by filepath.Join (storage/store.go:251), so names with slashes can
  lead to one file: `SlashesCollide`. `DisjointIff` and `SamePathIff` say when; names without a
  slash never do (`TenantPathsDisjoint`). Reconciling a catalog with such names can remove a ready
  tenant's file: `ReadyFileKeptIff`, `ReadyFileLost`.
- With the ten-second limit the store can close while a client's session is registered and its
  connection out: `TimeoutClosesEarly`, `StoreClosedUnderSession`.
- Create and Import can fail after their commit (storage/store.go:329-356). The row is then ready
  but not in memory until the next Open, which finds it (`ReopenSucceeds`). `Create` says when the
  row is committed; `MissingIff` says, for whole runs, exactly which committed rows are not in
  memory, and `MissingHappens` is a run that ends with one.
- SQLite rejects the rewritten LIMIT when a number does not fit 63 bits, MySQL's idiom for all rows
  included: `SameRowsIff`, `AllRowsIdiomRejected`.
- The escape scanner does not know the double backslash, so it agrees with MySQL exactly on the
  texts of `MySqlMeaningPreservedIff` and is idempotent exactly on those of `SecondPassUnchangedIff`;
  `LineBreakLost` and `SecondPassChanges` are texts outside.
- Go's `(?i)` lets the long s (U+017F) match S, while `\b` does not take it for a letter. On texts
  with it the result of the type pass depends on the map's iteration order: `LongSOrderMatters`
  shows the text, `DefaultMapDeterministicIff` says over which alphabets the order never matters.
- The literal of an extracted equality is read with `GetString`, which is empty for a number or NULL.
  `PairHoldsIff` says when the pair is true. The qualifier of the column is dropped, so over a join
  the pair can be that of another table: `PairHoldsOfTableIff` says of which tables it holds,
  `TablesPlanKeepsJoinIff` and `ColumnsPlanKeepsJoinIff` when no row of the tenant is lost by it.
  Without an extracted table name the columns query answers nothing although rows may satisfy the
  clause: `ColumnsPlanKeepsRowsIff`, `ColumnsPlanLosesRows`.
- README.md:225 calls `USE` a no-op and README.md:263-270 shows a partial rollback to a savepoint.
  The handler refuses any database but the bound one (server/handler.go:312-322) and turns every
  rollback into a full one (server/handler.go:146-147). The model follows the code.

## Model

| member | source | states |
|---|---|---|
| Escapes.TranslateStringEscapes | translator/translator.go:598-632 | the index loop with its two-character skips computes the rewriting that the lemmas below are about |
| Escapes.LiteralMeaningPreserved | translator/translator.go:598-632 | on every text, unterminated literals included, SQLite's reading of the output is the reading of the input in which `''` and `\'` are the escapes: same outside text, same decoded values |
| Escapes.MySqlMeaningPreservedIff | translator/translator.go:598-632 | SQLite's reading of the output is MySQL's full reading of the input if and only if every in-literal backslash escapes a quote, a `%` or a `_`, or ends the text |
| Escapes.LineBreakLost | translator/translator.go:618-628 | a quoted `\n` is a line break to MySQL and, after the pass, a backslash and an n to SQLite |
| Escapes.DialectsAgreeIff | translator/translator.go:618-625 | the narrow escape rules and MySQL's rules read a text alike from either scanner state exactly under that condition |
| Escapes.OutputShape | translator/translator.go:598-632 | the output has the input's length and differs from it exactly at in-literal backslashes directly before a quote, where it holds a quote; "in-literal" is judged by a separate automaton |
| Escapes.SecondPassUnchangedIff | translator/translator.go:598-632 | the pass is idempotent on a text if and only if no double backslash stands before a quote inside a literal |
| Escapes.SecondPassChanges | translator/translator.go:618-623 | a literal with two backslashes before a quote, which the second pass rewrites anew |
| ColumnTypes.ReplaceAllIsSubstitute | translator/translator.go:330-334 | one case-insensitive whole-word regular-expression replacement is a substitution on the words of the text |
| ColumnTypes.Confluent | translator/translator.go:327-336 | replacing any keys one after the other, in any order and with repetitions, is one simultaneous word-by-word substitution of those keys |
| ColumnTypes.SubstituteTokenwise | translator/translator.go:327-336 | tokens of the result are the translated tokens of the text: words outside the map and all other characters stay |
| ColumnTypes.DeterministicAndIdempotent | translator/translator.go:327-336 | any two complete iteration orders give the same text, with the translated token structure, and a second pass in any order changes nothing |
| ColumnTypes.ReplaceTypes | translator/translator.go:327-336 | the loop over the map in unspecified order ends with the replacements of some order that visits each key once and, under the guard, with the simultaneous substitution |
| ColumnTypes.TranslateColumnTypes | translator/translator.go:327-336 | with the translator's own map the result is the simultaneous substitution on every text without a long s, hence on every ASCII text |
| ColumnTypes.DefaultTypeMapMeetsConditions | translator/translator.go:634-682 | the real map is well-formed (a type it produces and also translates stands for itself) and meets the guard on every text without a long s |
| ColumnTypes.LongSOrderMatters | translator/translator.go:330-334 | for every such map, a text with a long s ends differently when INT is replaced before SET and when SET is replaced before INT |
| ColumnTypes.DeterministicIff | translator/translator.go:327-336 | over an alphabet with I, N, T and E, every text is translated alike in all iteration orders if and only if the long s is not in the alphabet |
| ColumnTypes.DefaultMapDeterministicIff | translator/translator.go:634-682 | the same if and only if for the translator's own map |
| TypeLaws.WordReplaced | translator/translator.go:327-336 | on text: a whole word of letters, digits and underscores that spells a type name in any case becomes its type, any other word stays, and the text on both sides is translated by itself |
| TypeLaws.NonWordsKept | translator/translator.go:327-336 | text without letters, digits and underscores stays |
| TypeLaws.DefaultTypes | translator/translator.go:634-682 | the 32 names of the map, no more, and the type of each |
| LimitClause.MatchHeadIff | translator/translator.go:549-553 | the matcher finds a match exactly when the text splits into keyword, spaces, digits, spaces, comma, spaces and a maximal run of digits |
| LimitClause.LeftmostReplaced | translator/translator.go:549-553 | the leftmost match becomes `LIMIT b OFFSET a`, the text before it is kept, the rest is rewritten from its end |
| LimitClause.AnyCaseRewritten | translator/translator.go:549-553 | on text: the five letters in any case, a run of the five white-space characters, digits, a comma and digits, with white space around the comma or not, become `LIMIT b OFFSET a`, and the translation goes on behind the last digit |
| LimitClause.OnlyClausesMatch | translator/translator.go:549-553 | and every match is such a text |
| LimitClause.NoMatchLeft | translator/translator.go:549-553 | at no position of the output does the pattern match again, also across the seams of replaced and kept text |
| LimitClause.TranslateIdempotent | translator/translator.go:549-553 | a second pass changes nothing |
| LimitClause.SameRowsIff | translator/translator.go:549-553 | SQLite, reading count and offset from the rewritten text, selects from every list of rows what MySQL selects from the original if and only if both numbers are below 2^63, or one is beyond MySQL's 2^64 as well |
| LimitClause.AllRowsIdiomRejected | translator/translator.go:549-553 | `LIMIT 95, 18446744073709551615` selects all rows from the 95th on in MySQL and is an error in SQLite after the rewriting |
| InfoSchema.FindsLeftmost | server/infoschema.go:85-104 | whatever the nesting of joins, the table found is the leftmost named table of information_schema |
| InfoSchema.SchemaInAnyCase | server/infoschema.go:98-100 | the schema is recognised in any case, the table's name given in lower case |
| InfoSchema.EqualityCollector.CollectEqualities | server/infoschema.go:116-138 | the recursion that writes into a shared map leaves it as the collected map, later equalities over earlier ones |
| InfoSchema.ExtractWhereEqualities | server/infoschema.go:107-114 | an absent clause gives an empty map, a clause what is collected from it |
| InfoSchema.ExtractionComplete | server/infoschema.go:116-138 | for a WHERE tree of any shape a name is extracted if and only if some operand of its top-level ANDs compares a column of that name, in any case and on either side, with a literal; the value is the text of the last such literal from left to right |
| InfoSchema.ExtractionSound | server/infoschema.go:116-138 | for a WHERE tree of any shape, with function calls and parentheses as operands too, every non-empty extracted value compares equal in every row that satisfies the clause, and with string literals the empty ones too; over joins it does under some qualifier |
| InfoSchema.ComparisonSoundIff | server/infoschema.go:121-134 | for one comparison the extracted pair holds in all satisfying text rows if and only if the literal is a string or NULL |
| InfoSchema.PairHoldsOfTableIff | server/infoschema.go:121-134 | over a join, for a conjunction of comparisons with any literals: the pair extracted for a column holds of a table in every satisfying text row if and only if a conjunct compares that table's column with that string, or two literals compared with one column exclude each other, a string and a number doing so when the string reads as another number |
| InfoSchema.JoinedColumnIff | server/infoschema.go:121-134 | for one comparison the pair holds of a table if and only if it is the table compared |
| InfoSchema.PairHoldsIff | server/infoschema.go:116-138 | the same over one table, where qualifiers make no difference: it holds if and only if some conjunct compares the column with that string (numbers and NULL are extracted as the empty string), or the conjunction contradicts itself |
| InfoSchema.ExtractionExactIff | server/infoschema.go:107-138 | for a conjunction of string equalities the extracted map is equivalent to the clause on every row if and only if no column is compared with two different strings |
| InfoSchema.TablesPlanKeepsRows | server/infoschema.go:141-166 | if a row of the bound tenant satisfies the clause, the tables query neither answers with nothing nor asks about another table |
| InfoSchema.PlansFollowClause | server/infoschema.go:141-207 | both queries answer nothing exactly for another schema than the bound tenant, or for columns without a table name; otherwise they are about the table the clause names last, and the tables query about all without one |
| InfoSchema.ColumnsPlanKeepsRowsIff | server/infoschema.go:197-207 | if a row of the bound tenant satisfies the clause, the columns query asks about that row's table if and only if a table name was extracted |
| InfoSchema.FunctionClauseHolds | server/infoschema.go:119-134 | clauses such as `table_schema = DATABASE() AND table_name = 't'` are among those covered: rows of the tenant satisfy them, and only the table name is extracted |
| InfoSchema.ColumnsPlanLosesRows | server/infoschema.go:205-207 | a clause and a row of the tenant satisfying it for which the columns query answers nothing |
| InfoSchema.TablesPlanKeepsJoinIff | server/infoschema.go:144-149 | over a join, for a conjunction of comparisons: the tables query keeps every row that a given table contributes for the tenant if and only if the extracted schema is absent or the tenant and the extracted table name is absent or compared with that very table's column, or no such row satisfies the clause |
| InfoSchema.ColumnsPlanKeepsJoinIff | server/infoschema.go:198-207 | the columns query needs in addition that a table name was extracted |
| Catalog.DisjointIff | storage/store.go:250-252 | two names share none of their `.sqlite`, `-wal` and `-shm` paths if and only if their cleaned database paths differ |
| Catalog.SamePathIff | storage/store.go:250-252 | they differ unless cleaning leads both names to one directory and their last parts agree |
| Catalog.TenantPathsDisjoint | storage/store.go:250-252 | distinct names without a slash never share a path |
| Catalog.SlashesCollide | storage/store.go:250-252 | `x/../a` and `a` are one file |
| Catalog.DotsDropped | storage/store.go:250-252 | empty and dot parts of a name make no difference |
| Catalog.CatalogApart | storage/store.go:250-252 | no name at all leads to the catalog's file or its journals |
| Catalog.LookupsAgree | storage/store.go:361-401 | in an index that is one relation the two lookups and the listing find the same rows |
| Catalog.PublishKeepsIndex | storage/store.go:227-237 | publishing keeps the maps by name and by username one relation whose keys are the records' own fields |
| Catalog.PublishAdds | storage/store.go:227-237 | a successful publish adds exactly the new record and its pool |
| TenantStore.NextKeeps | storage/store.go:144-358 | every step, of any actor and with any outcome, keeps the invariant over rows, files, index, pools and the operation in flight |
| TenantStore.RunKeeps | storage/store.go:54-549 | so does every run |
| TenantStore.NewRowIsPublished | storage/store.go:347-356 | while the store is open the row just committed is never rejected as a duplicate |
| TenantStore.LoadedRowIsPublished | storage/store.go:212-220 | nor is a row read from the catalog by Open |
| StoreProperties.CrashSafety | storage/store.go:260-549 | after any steps, failures, closes, crashes and restarts from an empty root every committed row is ready and has its file, and names and usernames are unique |
| StoreProperties.LoadAllSucceeds | storage/store.go:175-225 | from any reachable loading state, loading the remaining rows in any order with pools that open ends serving exactly the committed rows |
| StoreProperties.ReopenSucceeds | storage/store.go:54-124 | after any history, opening again succeeds if the pools open, loses no row, and indexes exactly the committed rows in whatever order the catalog lists them |
| StoreProperties.PoolsAccountedFor | storage/store.go:404-428 | at every step each pool ever opened is published, in the hand of Open or of the one operation, or closed, and only one of these; after Close, or a failed Open, with nothing in hand all are closed |
| StoreProperties.ClosedForGood | storage/store.go:404-428 | once closed, no step publishes anything, reopens a pool or writes a nil map |
| StoreProperties.NilHandleIff | storage/store.go:270-287 | the next step dereferences the nil catalog handle exactly when Close fell between an operation's check of the closed flag and its Begin |
| StoreProperties.NilHandleRunIff | storage/store.go:270-287 | over every run, the running process has dereferenced it if and only if such a Begin came since it started |
| StoreProperties.NilHandleHappens | storage/store.go:270-287 | the run Open, start of a Create, Close, Begin from an empty root ends so |
| StoreProperties.IndexIsCommitted | storage/store.go:227-237 | in every reachable open state the two maps are one relation over committed ready rows whose files exist |
| StoreProperties.MissingIff | storage/store.go:324-357 | over every run that ends with the store open, a committed row is not in the index if and only if its operation has not published it yet, or has ended since the process started because the tenant's pool did not open |
| StoreProperties.MissingHappens | storage/store.go:329-332 | a run from an empty root after which the committed row of a failed Create is not in memory |
| StoreProperties.RowKept | storage/store.go:144-358 | no step removes a committed row |
| StoreProperties.TenantUntouched | storage/store.go:260-358 | no step but SQLite working on the tenant itself changes the tenant's three files, and none removes its row |
| StoreProperties.ProvisioningLeavesTenants | storage/store.go:260-358 | any sequence of Creates and Imports, even with the tenant's own name, failing, closing or crashing anywhere, with other tenants writing in between, leaves a committed tenant's row and files as they were |
| StoreObject.StoreState.Get | storage/store.go:376-387 | closed, not found, or the entry of the index, which then is a listed row of that name |
| StoreObject.StoreState.GetByUsername | storage/store.go:390-401 | closed, not found, or the entry of the other index, which then is a listed row of that username |
| StoreObject.StoreState.List | storage/store.go:361-373 | closed, or the rows of the index, each once |
| StoreObject.StoreState.PublishLocked | storage/store.go:227-237 | a rejected publish changes neither map, an accepted one is the publish of the transition system, and the maps stay one relation |
| StoreObject.StoreState.Close | storage/store.go:404-428 | exactly the published pools are closed, maps and handle become nil, rows and files stay; a second Close does nothing |
| StoreObject.StoreState.Reconcile | storage/store.go:144-173 | on an arbitrary catalog the loop is a run of the transition system; it succeeds iff the listing and every delete do, then no creating row is left nor any of its removable files; ready rows stay in every case, and so do the files of those that share no path with a creating row |
| StoreObject.PlainRowsApart | storage/store.go:144-173 | with names that hold no slash these are all ready rows |
| StoreObject.ReadyFileKeptIff | storage/store.go:161-171 | on any catalog, reconciling keeps a ready row's database file if and only if no creating row's name leads to it or the system refuses to remove it |
| StoreObject.ReadyFileLost | storage/store.go:161-171 | a catalog with a creating row `x/../a` loses the file of its ready row `a` |
| StoreObject.StoreState.LoadRow | storage/store.go:188-222 | one row is indexed iff it is delivered and its time stamp, file and pool are fine; a failure leaves every pool closed once Open gives up |
| StoreObject.StoreState.RejectRow | storage/store.go:188-209 | a row that cannot be loaded ends Open, with its files touched only if its pool was tried |
| StoreObject.StoreState.IndexRow | storage/store.go:201-220 | the row's pool opens and is published, or is closed again and the index stays |
| StoreObject.StoreState.LoadReady | storage/store.go:175-225 | a run of the transition system that succeeds iff the rows are listed to the end and every ready row is loadable, and then the index holds exactly the ready rows |
| StoreObject.StoreState.LoadRows | storage/store.go:188-223 | the loop over the listed rows, in any order |
| StoreObject.StoreState.Open | storage/store.go:54-124 | on an arbitrary catalog, after Boot a run of the transition system; succeeds iff the catalog could be prepared, both listings and every delete succeed and every ready row is loadable from the files that reconciling leaves; success serves exactly the ready rows, failure leaves every pool closed |
| StoreObject.StoreState.Create | storage/store.go:260-358 | run alone, Create is a run of the transition system; it succeeds iff the store admits the tenant and every call succeeds; exactly the ready record is committed iff catalog and files admit it and every call up to the commit succeeds, whatever fails later; it is published iff Create succeeds, else the index is as before; no file but its own three changes, and each failing call leaves of these exactly what the source leaves, a failed validation none that could be removed, a failed mark or commit the journals |
| StoreObject.StoreState.Import | storage/store.go:458-558 | the same for Import, which overwrites an orphan file where Create refuses it, and removes the journals too when marking or committing fails |
| StoreObject.StoreState.Provision | storage/store.go:260-358 | the common course of both, early returns included |
| StoreObject.StoreState.CommitTenant | storage/store.go:284-327 | its part up to the commit: it succeeds iff the row is committed, which is iff catalog, files and calls allow it |
| StoreObject.StoreState.Reserve | storage/store.go:284-296 | begin and insert: either the row is reserved in the transaction or the store is unchanged |
| StoreObject.StoreState.MakeFile | storage/store.go:298-306 | the file is created (Create refuses an existing one) or written (Import); a failure may leave a partial file |
| StoreObject.StoreState.ValidateFile | storage/store.go:308-314 | a pool opens on the file, or all three files that SQLite may have made of it are removed |
| StoreObject.FilesLaw | storage/store.go:298-332 | what each outcome of an operation leaves on disk, path by path, as Create and Import state it |
| StoreObject.StoreState.CloseValidationPool | storage/store.go:315-317 | the validation pool is closed in either case; an error ends the operation and leaves the file |
| StoreObject.StoreState.MarkReadyRow | storage/store.go:319-323 | the row becomes ready in the transaction, or the abandoned files are removed |
| StoreObject.StoreState.CommitRow | storage/store.go:324-327 | exactly the ready row is committed, or nothing and the abandoned files are removed |
| StoreObject.StoreState.OpenTenantPool | storage/store.go:329-332 | the tenant's pool opens, or the committed row stays without an entry |
| StoreObject.StoreState.PublishTenant | storage/store.go:347-357 | succeeds iff the store is open and neither key is indexed; otherwise the pool is closed and the index stays |
| Handshake.NextKeeps | server/handler.go:49-59 | any event of the handshake or of the store keeps binding, session and handler on one committed tenant |
| Handshake.RunKeeps | server/auth.go:25-71 | so does every sequence of events |
| Handshake.OneTenant | server/handler.go:49-59 | whenever a handler is bound, binding, session and handler name one committed ready tenant, the session has its username, and the requested name was empty or equal |
| Handshake.ConnectionIsHistory | server/auth.go:25-71 | after any events the requested name is the last one before binding, the candidate the tenant whose credentials were handed out last, the bound tenant the one of the first Finalize that fits both |
| Handshake.BoundAsRequested | server/auth.go:63-65 | a bound connection is that of the database its client asked for last before binding, if it asked |
| Handshake.AuthenticateAnswer | server/auth.go:108-124 | after any events, a lookup fails exactly when the store is closed and hands out the password exactly when the username is indexed and no other database was asked for last |
| Handshake.FinalizeAnswer | server/auth.go:54-71 | before binding, Finalize succeeds exactly when credentials were handed out last for that username and no other database was asked for last, and binds that tenant |
| Handshake.UseAnswer | server/handler.go:312-322 | a request for a database is refused exactly when the connection is bound to another |
| Handshake.BoundForGood | server/session.go:46-62 | no later USE, lookup, Finalize or store step moves a bound connection |
| Handshake.SelectedIffBound | server/handler.go:312-322 | a bound connection can select a database if and only if it is its own, and selecting changes nothing |
| Handshake.FinalizedOnce | server/auth.go:57-59 | after binding, Finalize succeeds for any username and changes nothing |
| Handshake.RowsOnlyGrow | storage/store.go:144-358 | no sequence of events loses a committed row |
| Handshake.PasswordGuardsTenant | server/auth.go:108-124 | the password handed out for a username is that of the tenant which finalizing with this username binds, whatever requests, lookups, new tenants, closes, crashes and restarts come in between |
| Transactions.StepKept | server/handler.go:135-158 | one statement of one session keeps the session in order, the tenant's contents equal to the replayed log, and the connection count |
| Transactions.NextKeeps | server/handler.go:106-158 | every event of any session keeps the invariant of the whole server |
| Transactions.RunKeeps | server/handler.go:106-158 | so does every run with fresh session ids |
| SessionProperties.CommittedIsReplay | server/handler.go:582-606 | after any interleaving of sessions and any failures each tenant's contents are its initial contents with exactly the acknowledged autocommit writes and the writes of acknowledged transactions replayed, each transaction in one piece, in commit order |
| StatementLaws.HistoryIsClientRecord | server/handler.go:135-158 | the history used there is what clients can note of the run from their statements and the answers alone |
| StatementLaws.ContentsAreWhatWasTold | server/handler.go:582-606 | so each tenant's contents are its initial contents with exactly the writes replayed that clients were told had happened, outside transactions and in committed ones |
| StatementLaws.BeginLaw | server/handler.go:324-341 | when BEGIN is acknowledged, and that a transaction is open exactly then |
| StatementLaws.ExecLaw | server/handler.go:595-606 | when a write is acknowledged, and that its effect then is the new contents, or inside a transaction the new view under the lock |
| StatementLaws.QueryLaw | server/handler.go:582-593 | when a query is answered, that it reads the committed contents or the transaction's view, and changes no contents |
| StatementLaws.CommitLaw | server/handler.go:343-350 | when COMMIT is acknowledged, and that the view then is the contents; the transaction is over in either case |
| StatementLaws.RollbackLaw | server/handler.go:352-363 | a rollback restores the state without a transaction and reports what the driver reports |
| StatementLaws.DisconnectLaw | server/session.go:172-194 | a session that leaves gives up transaction, lock and connection, and nothing else changes |
| StatementLaws.ConnectionLaw | server/handler.go:494-509 | the first statement that needs a connection takes one, later ones keep it |
| SessionProperties.OnlyCommitsChange | server/handler.go:324-363 | contents change only by an acknowledged write outside a transaction or an acknowledged commit, of a session bound to that tenant |
| SessionProperties.AbandonedLeavesNothing | server/session.go:112-141 | a rollback, a failed commit or a disconnect leaves contents and log as they were, nothing pending and no lock |
| SessionProperties.ReadsOwnWrites | server/handler.go:582-593 | inside a transaction a query reads the committed contents with the transaction's own writes replayed |
| SessionProperties.RepeatableRead | server/handler.go:582-593 | what a transaction reads does not change by its reading or by anything other sessions do |
| SessionProperties.OtherTenantsUntouched | server/handler.go:494-509 | a session's event leaves every tenant but its own as it was |
| SessionProperties.ConnectionsConserved | server/session.go:172-240 | in every run the connections handed out by a tenant's pool are those of the registered sessions bound to it, at most one each; a session is in a transaction iff it has one, and then holds a connection |
| SessionProperties.DisconnectReturns | server/session.go:231-240 | removing a session returns exactly the connection it held |
| SessionProperties.ConnectConservesIff | server/session.go:210-219 | registering an id conserves connections if and only if no session with a connection is registered under it |
| SessionProperties.ConnectionLost | server/session.go:210-219 | a run in which the id of a session with a connection is drawn again and a connection is out that no session holds |
| SessionProperties.EmptyReleasesAll | server/session.go:172-194 | with no session left no connection is handed out and no tenant is locked |
| Sessions.Session.Bind | server/session.go:46-62 | first call binds tenant, username and database name, later ones only compare |
| Sessions.Session.BeginTransaction | server/session.go:103-109 | flag and transaction are set together |
| Sessions.Session.CommitTransaction | server/session.go:112-125 | without a transaction nothing; else the commit of the abstract session, ended whether or not it succeeds |
| Sessions.Session.RollbackTransaction | server/session.go:128-141 | without a transaction nothing; else the rollback of the abstract session |
| Sessions.Session.Close | server/session.go:172-194 | rolls back, gives the connection back, and leaves neither |
| Sessions.SessionManager.Create | server/session.go:210-219 | registers a new session over whatever had the id |
| Sessions.SessionManager.Remove | server/session.go:231-240 | closes and forgets one session, leaves the others |
| Handler.ConnectionBinding.SetRequestedDB | server/auth.go:25-37 | records the name before binding, compares it afterwards |
| Handler.ConnectionBinding.Finalize | server/auth.go:54-71 | binds the staged candidate iff the username is its own and the requested name is empty or its own |
| Handler.CredentialProvider.CheckUsername | server/auth.go:95-104 | found iff the open store indexes the username, an error iff the store is closed |
| Handler.CredentialProvider.GetCredential | server/auth.go:108-124 | an error iff the store is closed; a mismatch with the requested name looks like an unknown user and stages nothing; else the found tenant is staged and its password returned |
| Handler.SessionHandler.Finalize | server/handler.go:49-59 | the three objects move as the abstract connection does, and success leaves a bound handler |
| Handler.SessionHandler.SelectDatabase | server/handler.go:312-322 | as the abstract connection does |
| Handler.SessionHandler.EnsureConnection | server/handler.go:494-509 | a connection is taken from the handler's own pool at most once; an unbound handler gets none |
| Handler.SessionHandler.HandleBegin | server/handler.go:324-341 | refuses a nested transaction, else the begin of the abstract session |
| Handler.SessionHandler.HandleCommit | server/handler.go:343-350 | the commit of the abstract session |
| Handler.SessionHandler.HandleRollback | server/handler.go:352-363 | succeeds without a transaction, else the rollback of the abstract session |
| Handler.SessionHandler.QueryRows | server/handler.go:582-593 | a query reads through the transaction if there is one, else through the connection; it can fail before or after it has read |
| Handler.SessionHandler.ExecResult | server/handler.go:595-606 | a write goes through the transaction if there is one, else it commits by itself |
| Handler.SessionHandler.ExecuteTranslated | server/handler.go:135-158 | each statement kind takes its own step of the abstract session; an unbound handler fails all but a rollback |
| Handler.SessionHandler.HandleTranslated | server/handler.go:106-132 | the loop runs the statements in order up to the first error and keeps what ran before it |
| Handler.BatchIsRun | server/handler.go:106-132 | such a batch is a run of its statements on the whole server up to the first that is not acknowledged |
| Shutdown.ConnNextKeeps | proxy.go:138-289 | every step of every actor, whatever session id it draws, keeps the invariant over wait group, connections, goroutines and the progress of Stop |
| Shutdown.ConnRunKeeps | proxy.go:138-289 | so does every interleaving |
| Shutdown.NextKeeps | proxy.go:138-289 | with unused ids every step also keeps session map and tenants in order |
| Shutdown.RunKeeps | proxy.go:138-289 | so does every interleaving with unused ids |
| ShutdownProperties.WaitGroupCounts | proxy.go:138-205 | in every interleaving the wait group is the number of live accept loop, management goroutine and connection goroutines between Add and Done, and the listed connections are those between registration and removal |
| ShutdownProperties.SessionsOfGoroutines | proxy.go:209-241 | with unused ids the registered sessions are exactly those of the running goroutines, one each |
| ShutdownProperties.AddWhilePositive | proxy.go:196 | in no interleaving is the wait group incremented from zero |
| ShutdownProperties.LoopSurvivesErrors | proxy.go:174-185 | in no interleaving does the accept loop return before Stop has cancelled it |
| ShutdownProperties.CommandTakesEffect | proxy.go:234-240 | the statements of a command take effect on the server, all of them and in their order |
| ShutdownProperties.CommandsInOrder | proxy.go:234-240 | commands are read in the order in which they arrived |
| ShutdownProperties.CommandEnds | proxy.go:234-240 | the end of a command keeps those behind it |
| ShutdownProperties.ZeroForGood | proxy.go:269-273 | at zero it stays zero, and no connection, goroutine or session appears again |
| ShutdownProperties.ZeroMeansReleased | server/session.go:231-240 | at zero no connection is listed, no session registered, every pooled connection is back and no tenant is locked |
| ShutdownProperties.StoreClosesLast | proxy.go:269-285 | unless the drain timed out, the store closes only after all that, with every accepted connection closed |
| ShutdownProperties.TimeoutClosesEarly | proxy.go:244-285 | from every reachable state with Stop not called, Stop alone can go on until the store is closed, with sessions, connections and goroutines just as they were |
| ShutdownProperties.StoreClosedUnderSession | proxy.go:275-285 | a run in which the store is closed while a client's session is registered and its connection out |
| ShutdownProperties.NothingRegisteredLater | proxy.go:187-194 | once stopping is set no connection is registered any more |
| ShutdownProperties.NoneSurvivesSweep | proxy.go:263-267 | in every interleaving, after the sweep every connection ever registered is closed, and every one ever accepted but the one about to be rejected |
| ShutdownProperties.StepDecreases | proxy.go:187-205 | after the sweep each goroutine step leaves less to do, the commands still buffered included |
| ShutdownProperties.SomeoneMoves | proxy.go:209-241 | while the wait group is positive after the sweep some goroutine can move |
| ShutdownProperties.DrainEnds | proxy.go:269-278 | the drain takes boundedly many goroutine steps in any order and with any session ids, and where none is left the wait group is zero |
| ProxyObject.Proxy.Admit | proxy.go:187-205 | an accepted connection is closed if stopping is set, else registered, counted and handed over, as steps of the accept loop |
| ProxyObject.Proxy.Leave | proxy.go:197-210 | the deferred calls close the socket, take it off the list and count the goroutine out |
| ProxyObject.Proxy.RefuseConnections | proxy.go:247-255 | Stop sets the flag, cancels and closes the listener, in this order |
| ProxyObject.Proxy.Sweep | proxy.go:263-267 | the loop closes exactly the listed connections and takes none off the list, as steps of the sweep |

## Left out

- Sessions.SessionManager.Create: does not require an unused id, because the code does not; what an id in use does to conservation is `ConnectConservesIff`.
- ColumnTypes.TranslateColumnTypes: says nothing of a single text with a long s, because some such texts depend on the order and others do not; the condition is exact for alphabets, in `DeterministicIff`.
- ProxyObject.Proxy.Sweep: like `Admit`, `Leave` and `RefuseConnections` it describes the code run without interruption; interleavings are the subject of `Shutdown`, whose steps these methods take. Start, Stop and the goroutines as concurrent Go code are not written as Dafny methods.
- StoreObject.StoreState.Create: like `Import` it describes an undisturbed call; Close and crashes in the middle of it are steps of `TenantStore`.
- Symbolic links below the storage root, and path separators other than the slash.
- Literals in double quotes, backquoted identifiers and comments: `Escapes` reads single-quoted literals only, as the scanner does.
- Collations: string comparison in `InfoSchema` is exact; names are lower-cased for the letters A to Z only. Result rows of information_schema and the sqlite_master queries behind them are not built.
- Savepoints, prepared statements and the raw-text fallback for unparsable queries (server/handler.go:107-110).
- The rebuilding of a table for MODIFY COLUMN (server/handler.go:173-266), which uses the pool and not the session's transaction.
- The rest of the translation pipeline (functions, DDL options, boolean words, whitespace) and its idempotence as a whole, which does not hold.
- A connection request that blocks on an exhausted pool; it appears as one that fails.
- More than one call of Stop, wall-clock limits of the HTTP shutdown and of the drain (the timeout is a step that may happen at any time).
- SessionManager.Cleanup, which nothing calls, and the statistics, Export and Query of the store.
- HTTP and JSON, configuration, the client, the packet layer, password and name generation, label normalisation, file permissions and SQLite's authorizer.
