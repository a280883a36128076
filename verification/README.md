# Verification of the vignemale runtime

A Dafny model of the parts of the vignemale runtime whose correctness spans several functions
or many steps, and proofs about it. Check it with `dafny verify dfyconfig.toml`.

| file | what it models |
|---|---|
| TxRegistry.dfy, TxBlocks.dfy | the transaction registry of the core, any interleaving of its operations; `with db.transaction()` blocks on top |
| Migrations.dfy | the migration runner: crashes, restarts, concurrent runners |
| Orm.dfy | tables, `where`, additive `ensure` with its statements interleaved |
| Gdpr.dfy, GdprReports.dfy | erasure and export of a person; what they return |
| SqlParams.dfy | `sql()`: from named to positional placeholders |
| Routing.dfy, RouteTable.dfy | route tables, longest-prefix selection, the service filter |
| SvcAuth.dfy, EdgeTrust.dfy | signatures, edge authentication, signed forwarding, the backend's check |
| CallTree.dfy | trees of local and HTTP calls: trace id, identity, failures, the context variable |
| EndToEnd.dfy | a public request from the route table to the last call of its tree |
| StreamChannel.dfy | the bounded channel of a streaming response |
| Chunking.dfy, LinkToml.dfy, DeviceFlow.dfy | `chunk_text`, the edit of `link`, the polling loop of `login` |
| Text.dfy, Decimals.dfy, Wrappers.dfy | splitting and joining, decimal numbers, Option and Result |

Concurrent and asynchronous code (registry, migrations, stream) is a machine of events: one
event is a stretch of code that runs without interruption, a run is any sequence of enabled
events, and the classes beside the machine have one method a stretch, each proved to do what
its event does. Code that loops or updates fields is a method or a class, proved against a
specification function; the theorems are about that function.

## Assumptions

- Postgres: a rejected statement aborts its transaction; COMMIT of an aborted transaction
  publishes nothing, and reports success; an answer that reports success is right, but the answer
  to a COMMIT that was carried out may get lost; a failed migration batch commits nothing;
  migration scripts contain no COMMIT of their own.
- A pooled connection is clean when it is taken again. The pool recycles with
  `RecyclingMethod::Fast` (runtimes/core/src/sqldb/manager.rs), which does not roll back: a
  migration batch that fails after its BEGIN leaves its connection in an aborted transaction,
  and later statements on that connection are refused until it is closed. The models allow a
  refusal of any BEGIN, batch or `ensure` statement, but not of the statements of an erasure.
- `information_schema.columns` lists the columns of this table only: `ensure` asks by table
  name, so a table of the same name in another schema would hide a missing column. `null()`
  undoes an earlier `not_null()` in the column definition of an ALTER.
- Writes of one transaction are private until COMMIT, and published all at once.
- The channel of tokio is first in, first out; a send waits for room and fails when the
  receiver is gone.
- HMAC-SHA256 and SHA-256 are arbitrary functions. Absence of collisions is assumed only by
  SvcAuth.VerifiesExactlyWhatWasSigned and by EdgeTrust.ForwardedVerifiesExactly,
  UpstreamBasePath and SignatureIsForOneRequest, which state the "only if".
- Header names arrive in lower case, header values are visible ASCII without blanks at the
  ends, and the JSON text of an identity reads back as the identity.

## Where the code and its documentation or a stated property differ

- Transaction ids come from a 64-bit counter: after 2^64 begins they repeat, and registering a
  repeated id drops the older transaction's connection. The theorems bound the number of
  begins; TxRegistry.IdsRepeatOnlyByWrapping and RegisterKeepsConnections give the exact cases.
- A statement can fail on our side (a result that cannot be read, a parameter that cannot be
  bound) without aborting the transaction, so a block that catches that error still commits:
  AtomicityOfBlocks speaks of rejected statements.
- `sql()` takes a raw `$1` over as it is next to named parameters; the meaning is preserved
  exactly without one. Surplus positional arguments are dropped in silence.
- `forget_subject` is not one transaction: when a table cannot be erased it raises with the
  later declared tables already erased. Any `__on_forget__` but "anonymize" deletes.
- The clock check of a release build also accepts the one date that lies 2^63 seconds before
  the present, where the difference overflows; a debug build panics there.
- An HTTP hop to an endpoint without authentication drops the identity. If the call (or the path
  of a public route) has a parameter named `auth`, that endpoint takes its text as the
  identity, and passes it on: CallTree.AuthParameterIsTaken shows it, RootIdentityOrNone says
  exactly when it does not happen. A local callee keeps its caller's identity instead.
- "The same code works in both worlds" has conditions. Over HTTP a call also needs a secret and a
  reachable service; the callee gets its arguments as text; the result passes JSON, which makes
  the integer keys of a dict strings and refuses a date; and every exception comes back as an
  APIError, so that `except APIError` catches over HTTP what goes through it in one process
  (CallTree.OtherErrorIsDisguised shows it), and `except HTTPError` catches in one process what
  goes through it over HTTP. A local call to an endpoint that requires authentication is not
  refused when there is no identity. Where a run does not depend on any of that (arguments as
  text make no difference, results pass JSON unchanged, and no handler tells a disguised
  exception from an APIError), and the request has an identity, CallTree.ProviderSwitch says
  exactly when nothing else changes.
- A path without a leading slash ("*" in an OPTIONS request) can match both `/` and a prefix of
  one character, and then the order of the routes decides.
- An anonymised row can fail its model's validation: a personal field with a default, such as
  `age: int = PII(0)`, is nullable in the table but not in the model, so a later
  `export_subject` of the same person raises (GdprReports.DefaultIsNotOptional).
  Gdpr.ForgottenIsExportable says exactly when.
- The report of `forget_subject` and the dict of `export_subject` are keyed by `__tablename__`
  alone (gdpr.py:59 and 80), which tables of two databases can share. Then the report counts one
  of them, which one depends on the declaration order, and the export has the rows of one:
  GdprReports.SameNameLosesEntries shows it, ReportIgnoresOrder and ExportIsComplete say exactly
  when it does not happen.
- Two concurrent `ensure` calls can list the same missing column; the second ALTER is refused,
  since it has no IF NOT EXISTS, and its call raises (Orm.AlterRefused).
- A COMMIT that was carried out can still fail for the caller, when its answer gets lost: the
  block raises and its writes are published (TxBlocks.LostAnswerStillCommits).
- `_gateway_routes` does not stop at `*` segments, unlike `_literal_prefix`; a wildcard
  endpoint then gets a prefix that only paths with that very segment match
  (RouteTable.OwnPrefixMatches). Two services may have the same prefix in its table; the first
  one declared is chosen. `build_routes` does not leave private endpoints out.
- `_apply` adds the section to a text with other line endings without rewriting them, and the
  next call rewrites them all, so the second edit is not the same as a single one.
- The fallback on the last line of `chunk_text` is unreachable.

## Model

| member | source | states |
|---|---|---|
| TxRegistry.StepInv | runtimes/core/src/sqldb/transaction.rs:23-107 | every uninterrupted stretch of begin, query, execute, commit or rollback keeps the invariant: each connection in exactly one of pool, registry and tasks, each drawn id in exactly one of registry, task and finished list, a session open exactly while its transaction is numbered |
| TxRegistry.RunInv | runtimes/core/src/sqldb/transaction.rs:23-107 | the invariant holds over every interleaving that begins at most 2^64 transactions, so at most one operation an id is in flight and each id is finished at most once |
| TxRegistry.IdsRepeatOnlyByWrapping | runtimes/core/src/sqldb/transaction.rs:17-45 | two begins draw the same id if and only if they are a multiple of 2^64 apart |
| TxRegistry.RegisterKeepsConnections | runtimes/core/src/sqldb/transaction.rs:32-45 | registering a new id loses no connection if and only if the id is not in use (after a wrap the map insert drops the older transaction) |
| TxRegistry.TerminatedIsRefused | runtimes/core/src/sqldb/transaction.rs:90-107 | once a commit or rollback of an id has taken the connection, every later operation on the id is refused, in every run |
| TxRegistry.TakenExactlyWhenIdle | runtimes/core/src/sqldb/transaction.rs:23-58 | an operation gets the connection of an id if and only if the id is begun, not finished or finishing, and no other operation on it is in flight |
| TxRegistry.Registry.TakeTx | runtimes/core/src/sqldb/transaction.rs:23-29 | removes and returns the connection of the id, or reports it missing and changes nothing |
| TxRegistry.Registry.GetConn | runtimes/core/src/sqldb/transaction.rs:32-38 | the stretch up to BEGIN is the event Acquire |
| TxRegistry.Registry.Begun | runtimes/core/src/sqldb/transaction.rs:36-43 | the answer of BEGIN draws an id from the counter, which wraps, or gives the connection back |
| TxRegistry.Registry.Insert | runtimes/core/src/sqldb/transaction.rs:44-45 | the registry gets the connection under the id that is returned |
| TxRegistry.Registry.StartStatement | runtimes/core/src/sqldb/transaction.rs:47-52 | takes the connection of the id out of the registry, or refuses |
| TxRegistry.Registry.EndStatement | runtimes/core/src/sqldb/transaction.rs:53-58 | the connection goes back under its id whatever the statement gave |
| TxRegistry.Registry.StartFinish | runtimes/core/src/sqldb/transaction.rs:90-91 | commit and rollback consume the registry entry |
| TxRegistry.Registry.EndFinish | runtimes/core/src/sqldb/transaction.rs:92-100 | publishes the private writes exactly for a COMMIT that Postgres carries out on a transaction not aborted, whether or not its answer arrives, and returns the connection to the pool; fails exactly when the answer is an error or is lost |
| TxBlocks.AtomicityOfBlocks | runtimes/python/python/vignemale/sqldb.py:152-198 | however `with` blocks interleave, the database is the replay, in commit order, of the complete write lists of exactly the blocks that exited normally with no rejected statement and whose COMMIT was carried out, each once |
| TxBlocks.SilentExitIsCommitted | runtimes/python/python/vignemale/sqldb.py:166-178 | a block that exits normally and raises nothing is committed if and only if none of its statements was rejected |
| TxBlocks.ClientErrorStillCommits | runtimes/python/python/vignemale/sqldb.py:180-198 | a run in which a statement fails on our side only and the block goes on: it commits, with the writes of that statement |
| TxBlocks.LostAnswerStillCommits | runtimes/core/src/sqldb/transaction.rs:90-100 | a run in which the answer of a COMMIT is lost: the block raises, and its writes are published |
| TxBlocks.OneTerminalPerBlock | runtimes/python/python/vignemale/sqldb.py:166-178 | a block that has left got exactly one terminal statement: COMMIT if its body ended normally, ROLLBACK otherwise |
| TxBlocks.NoSpuriousRefusal | runtimes/python/python/vignemale/sqldb.py:159-198 | a block that uses its own id from its own thread can always go on, and is never told its transaction is unknown |
| TxBlocks.NothingLeaks | runtimes/python/python/vignemale/sqldb.py:159-178 | when all blocks are done every connection is back in the pool and the registry is empty |
| TxBlocks.Transaction.Enter | runtimes/python/python/vignemale/sqldb.py:159-164 | `__enter__` emits acquire, begin and register, and sets the id exactly when BEGIN succeeds |
| TxBlocks.Transaction.Execute | runtimes/python/python/vignemale/sqldb.py:180-198 | `query` and `execute` emit take and return, or a refusal; both failures surface as an error |
| TxBlocks.Transaction.Exit | runtimes/python/python/vignemale/sqldb.py:166-178 | `__exit__` emits the one terminal statement, clears the id in every case, and raises its own failure only when no exception crossed the block |
| Migrations.AlwaysAPrefix | runtimes/python/python/vignemale/sqldb.py:78-109 | over every run with crashes, restarts and concurrent runners the recorded migrations are a prefix of the sorted files and the schema is the fold of exactly that prefix |
| Migrations.ACompleteRunIsTheWholeFold | runtimes/python/python/vignemale/sqldb.py:78-109 | once some `migrate` has returned, whatever happened before or beside it, all files are recorded and the schema is their fold |
| Migrations.AFurtherRunAppliesNothing | runtimes/python/python/vignemale/sqldb.py:88-109 | once everything is recorded no run changes anything, and a further run sends no batch and can only return 0 |
| Migrations.UninterruptedRun | runtimes/python/python/vignemale/sqldb.py:92-109 | a lone runner whose batches succeed returns the number of missing files and completes the fold, from any recorded prefix |
| Migrations.SQLDatabase.Batch | runtimes/python/python/vignemale/sqldb.py:105-116 | one batch applies the script and records the name, or neither; a name already recorded is refused |
| Migrations.SQLDatabase.Migrate | runtimes/python/python/vignemale/sqldb.py:78-109 | keeps the prefix in every case; returns exactly when the CREATE TABLE, the SELECT and all its batches succeed, then with every file recorded and the count of the missing ones |
| Migrations.RecordsTheName | runtimes/python/python/vignemale/sqldb.py:101-107 | the doubled quotes make the INSERT record exactly the file name, whatever characters it holds |
| Orm.MatchingMembers | runtimes/core/src/sqldb/orm.rs:115-129 | a row is among the selected ones only if all criteria of the `where` map hold under SQL null rules, and among the others only if one does not |
| Orm.MatchingPartition | runtimes/core/src/sqldb/orm.rs:269-317 | update and delete split the table: every row is either selected or left, once |
| Orm.DeletesExactly | runtimes/core/src/sqldb/orm.rs:303-316 | delete_where needs a criterion and known columns; then it removes exactly the rows with the values asked for, NULL for a null criterion, which are those find returns |
| Orm.UpdatesExactly | runtimes/core/src/sqldb/orm.rs:268-288 | update_where does nothing without values, needs a criterion and known columns, is refused for a forbidden NULL, and otherwise gives exactly the rows that meet the criteria the new values, and keeps all else |
| Orm.AddMissingExtends | runtimes/core/src/sqldb/orm.rs:165-176 | adding columns makes the columns the union, keeps every row and value, and reads NULL in the new columns |
| Orm.MissingInOrder | runtimes/core/src/sqldb/orm.rs:165-167 | the missing columns come in declared order |
| Orm.EnsureStep | runtimes/core/src/sqldb/orm.rs:146-178 | an `ensure` cut short after any number of statements still only extends the table, adds only declared columns, and a complete one leaves all of them declared |
| Orm.TableOnlyGrows | runtimes/core/src/sqldb/orm.rs:146-178 | however the statements of `ensure` calls by any schema versions interleave, wherever calls are cut short, and with inserts between them: no row or value is lost, old rows read NULL in added columns, NOT NULL flags stay, and a set flag implies all columns of the version |
| Orm.ColumnsAreTheUnion | runtimes/core/src/sqldb/orm.rs:146-178 | from no table, under any interleaving of the statements, the columns are columns of versions only, and once every version is ensured they are exactly the union |
| Orm.RepeatAddsNothing | runtimes/core/src/sqldb/orm.rs:165-176 | a call whose columns all exist lists nothing to add, plans no ALTER, and changes nothing |
| Orm.EnsureAlone | runtimes/core/src/sqldb/orm.rs:146-178 | a call that no other one disturbs sends its plan statement by statement: the first k ALTERs add the first k missing columns, and the flag can be set exactly after the last |
| Orm.AlterRefused | runtimes/core/src/sqldb/orm.rs:165-176 | of two calls that listed the same column to add, the second to alter is refused and cannot set its flag |
| Orm.ModelClass.EnsureColumns | runtimes/core/src/sqldb/orm.rs:146-178 | for any database answers: it gets through exactly the statements before the first refused one (CREATE, the column query, an ALTER for each missing column in order), the table is the one they make (for its NOT NULL columns see FirstEnsure), and it succeeds exactly when all types are known and none is refused |
| Orm.FirstEnsure | runtimes/core/src/sqldb/orm.rs:88-110 | an ensure without a table makes an empty one with the declared columns, of which exactly the int primary key and the not nullable ones forbid NULL; an INSERT is accepted exactly when it has these columns and gives those values |
| Orm.AlterAllowsNull | runtimes/core/src/sqldb/orm.rs:165-176 | a column added by ALTER allows NULL, with rows in the table or without: the rows read NULL in it, and an INSERT may say NULL |
| Orm.CreatorDecides | runtimes/core/src/sqldb/orm.rs:88-178 | in any run without a table at the start, however the calls interleave, the NOT NULL columns are those of the version that created it |
| Orm.ModelClass.EnsureOnce | runtimes/python/python/vignemale/datamodel.py:231-236 | sends nothing once the flag is set; else does the core's `ensure`, and sets the flag exactly when that succeeds |
| Gdpr.RedactionFits | runtimes/core/src/sqldb/orm.rs:269-289 | the database refuses the redaction exactly when a personal column that is not text is NOT NULL |
| Gdpr.ForgetTableErases | runtimes/python/python/vignemale/gdpr.py:69-80 | one round erases the person from the table if and only if the table is erasable: the subject column is declared, and no row of the person would need a forbidden NULL |
| Gdpr.ForgetTableIdempotent | runtimes/python/python/vignemale/gdpr.py:69-94 | a second round leaves the table as the first one left it |
| Gdpr.ForgetSubjectErases | runtimes/python/python/vignemale/gdpr.py:62-81 | over all tables: those reached are erased (rows of the person deleted, or exactly their personal columns redacted), all other rows, columns and tables are unchanged, and it succeeds exactly when all are reached |
| Gdpr.StopsWhereNotErasable | runtimes/python/python/vignemale/gdpr.py:62-81 | all tables are reached if and only if all are erasable; else it stops at the last declared table that is not: that one is not erasable, all after it are |
| Gdpr.SuccessIffErasable | runtimes/python/python/vignemale/gdpr.py:62-81 | forget_subject returns without an error if and only if every subject table is erasable |
| Gdpr.OrderDoesNotMatter | runtimes/python/python/vignemale/gdpr.py:62-81 | any two declaration orders of the same tables succeed together and leave the same database; for what they report see GdprReports.ReportIgnoresOrder |
| Gdpr.ForgetTwice | runtimes/python/python/vignemale/gdpr.py:62-81 | a second run for the same person succeeds and changes nothing |
| Gdpr.DryRunForetells | runtimes/python/python/vignemale/gdpr.py:62-81 | a dry run changes nothing, succeeds exactly when every subject column is declared, and reports the rows and actions of the real run whenever that one succeeds |
| Gdpr.ExportAfterForget | runtimes/python/python/vignemale/gdpr.py:52-81 | after erasure an export of the person that succeeds shows only rows of anonymized tables, all personal data in them redacted |
| Gdpr.ExportSucceedsExactly | runtimes/python/python/vignemale/gdpr.py:52-59 | the export succeeds exactly when every subject column is declared and every selected row validates |
| Gdpr.ForgottenIsExportable | runtimes/python/python/vignemale/gdpr.py:52-94 | a person who could be exported before they were forgotten still can exactly when, in every table that still has rows of theirs, every field accepts what its personal data was replaced with; the tables that still have rows are those anonymized tables with rows of the person whose subject column, if personal itself, is redacted to the very id |
| GdprReports.ReportIs | runtimes/python/python/vignemale/gdpr.py:68-81 | a report has an entry for a name exactly when a table of that name held rows of the person, and it is the one of the first declared such table |
| GdprReports.ReportIgnoresOrder | runtimes/python/python/vignemale/gdpr.py:69-81 | the report is the same for every declaration order, dry run or not, if and only if no two tables of one name hold rows of the person and differ in number or action |
| GdprReports.ExportIsComplete | runtimes/python/python/vignemale/gdpr.py:52-59 | a returned export has the person's rows of every table under its name, if and only if no two tables of one name hold different rows of the person |
| GdprReports.SameNameLosesEntries | runtimes/python/python/vignemale/gdpr.py:52-81 | the input that shows it: two databases with a table users, two orders, two reports, and an export without the rows of the first |
| GdprReports.DefaultIsNotOptional | runtimes/python/python/vignemale/gdpr.py:84-94 | the input for `age: int = PII(0)`: exported, forgotten, and not exported again |
| GdprReports.StopsHalfway | runtimes/python/python/vignemale/gdpr.py:69-79 | the input for a NOT NULL personal number: forget_subject raises, the table declared later is erased, this one untouched |
| Gdpr.Store.AnonymizeRows | runtimes/python/python/vignemale/gdpr.py:84-94 | the dict of redacted values, filled field by field, leads to exactly one update_where, or to none without personal columns |
| Gdpr.Store.DeleteRows | runtimes/python/python/vignemale/datamodel.py:285-289 | delete_where on the subject column |
| Gdpr.Store.ForgetOne | runtimes/python/python/vignemale/gdpr.py:71-80 | one round: count, then nothing, redaction or deletion; the report entry is the count before it |
| Gdpr.Store.ForgetSubject | runtimes/python/python/vignemale/gdpr.py:62-81 | the loop over the reversed tables leaves the database, report and error of the specification the lemmas are about |
| Gdpr.Store.ExportSubject | runtimes/python/python/vignemale/gdpr.py:52-59 | the loop fills the export the specification gives; it raises exactly when some subject column is not declared or some selected row does not validate, with the error of the first such table |
| Decimals.DecimalRoundTrip | runtimes/python/python/vignemale/datamodel.py:108-113 | the decimal text of a number is made of digits and reads back as the number |
| Decimals.TensAreTens | runtimes/python/python/vignemale/datamodel.py:108-113 | the text is the decimal one: ten times a number and a digit is its text and that digit |
| SqlParams.NumberReadsBack | runtimes/python/python/vignemale/datamodel.py:108-113 | a printed placeholder number is read back whole, whatever non-digit follows |
| SqlParams.NameIsRead | runtimes/python/python/vignemale/datamodel.py:95-95 | a dollar sign, a letter or underscore and the letters, digits and underscores after it are read as one name, whatever else follows |
| SqlParams.CompileErrors | runtimes/python/python/vignemale/datamodel.py:93-107 | compiling fails for a name that is not declared, then for a declared name that is not used, and for nothing else |
| SqlParams.RewritePreservesMeaning | runtimes/python/python/vignemale/datamodel.py:88-113 | expanding the compiled text with the bound list equals expanding the query with the named values, for all values, if and only if the query holds no raw `$digit` |
| SqlParams.CompiledNumbers | runtimes/python/python/vignemale/datamodel.py:93-113 | a compiled query uses exactly the numbers 1 to n, and the occurrences of a name share one number |
| SqlParams.Run | runtimes/python/python/vignemale/datamodel.py:115-128 | the arguments either raise one of the four errors, exactly when its condition holds, or slot i holds the coerced value of the i-th declared name |
| SqlParams.CompiledCallMeansTheQuery | runtimes/python/python/vignemale/datamodel.py:88-130 | whenever `run` does not raise and there is no raw number, what goes to Postgres means the query with every name standing for its coerced value |
| SqlParams.RawNumberIsNotRejected | runtimes/python/python/vignemale/datamodel.py:93-113 | a concrete query mixing a raw number with a name compiles, and then means something else, whatever the values |
| Routing.StableSortSorts | runtimes/core/src/api/gateway/mod.rs:51-52 | the sort puts longer prefixes first and keeps the routes of each length in declared order |
| Routing.StableSortIsUnique | runtimes/core/src/api/gateway/mod.rs:51-52 | there is only one such order, so the library sort gives this one |
| Routing.SortThenFirstMatch | runtimes/core/src/api/gateway/routing.rs:7-13 | sort then first match is none exactly when nothing matches, otherwise the longest prefix on a segment boundary, the first declared among equals |
| Routing.SameLengthSamePrefix | runtimes/core/src/api/gateway/routing.rs:7-13 | two different matching prefixes of one length are the catch-all and the first character of a path without a leading slash |
| Routing.OrderIrrelevantExactly | runtimes/core/src/api/gateway/mod.rs:51-52 | with distinct prefixes every permutation of the routes gives the same pick, if and only if they are not ambiguous for the path: not both `/` and the first character of a path without a leading slash are declared and match with nothing longer |
| Routing.AmbiguousMatters | runtimes/core/src/api/gateway/routing.rs:7-13 | where they are ambiguous, exchanging the two routes changes the pick |
| Routing.OrderCanMatter | runtimes/core/src/api/gateway/routing.rs:7-13 | for the path `*` the catch-all and the prefix `*` both match, and order decides |
| Routing.GwState.constructor | runtimes/core/src/api/gateway/mod.rs:51-60 | the shared state holds the routes in that order |
| Routing.GwState.PickRoute | runtimes/core/src/api/gateway/routing.rs:7-13 | the search returns the first route that matches |
| RouteTable.StaticPrefixOfPath | runtimes/python/python/vignemale/api.py:321-327 | the static prefix of a path is the path of its segments before the first dynamic one |
| RouteTable.StaticLen | runtimes/python/python/vignemale/api.py:322-326 | the static segments are those before the first that is empty or starts with a colon or a brace |
| RouteTable.LiteralLen | runtimes/python/python/vignemale_cli/gateway.py:17-22 | the literal segments are those before the first that starts with a colon or a star |
| RouteTable.BuildersAgree | runtimes/python/python/vignemale_cli/gateway.py:15-23 | the two prefix functions agree on an endpoint if and only if its first dynamic segment is a `:param` or it has none |
| RouteTable.OwnPrefixMatches | runtimes/python/python/vignemale/api.py:321-327 | a concrete path matches the endpoint's own prefix if and only if it starts with the static segments as written, a `*` segment included |
| RouteTable.TableMeaning | runtimes/python/python/vignemale/api.py:329-342 | the dict has one route a key, exactly the keys put, and a route requires authentication exactly when something put under its key does |
| RouteTable.FirstWins | runtimes/python/python/vignemale_cli/gateway.py:38-45 | of the endpoints put under one key the first gives the service, the upstream and the place in the table |
| RouteTable.ServedExactly | runtimes/python/python/vignemale/api.py:418-445 | a container serves exactly the endpoints of its service, and all of them without a service name or with one nobody declared |
| RouteTable.ServedByItsService | runtimes/python/python/vignemale/api.py:418-445 | the container of the service an endpoint is routed to serves that endpoint |
| RouteTable.GatewayTable | runtimes/python/python/vignemale/api.py:305-342 | the table has one route a key, exactly the keys of the endpoints that are exposed and belong to a service with a known URL, and a route requires authentication exactly when some such endpoint under its key does |
| RouteTable.PrivateIsNotRouted | runtimes/python/python/vignemale/api.py:332-333 | private endpoints never change the table, and without an exposed one it is empty |
| RouteTable.DeclaredFirstGoesFirst | runtimes/python/python/vignemale/api.py:329-342 | of two endpoints that are the first of their keys, the one declared first has the route that comes first |
| RouteTable.InModuleIs | runtimes/python/python/vignemale/api.py:315-319 | a module belongs to a service when the parts of the service's dotted module name are the first parts of its own |
| RouteTable.ServiceOfIsFirst | runtimes/python/python/vignemale/api.py:315-319 | the service of a module is the first declared one it belongs to, or none when there is none |
| RouteTable.EndpointIsRouted | runtimes/python/python/vignemale/api.py:305-342 | every concrete path of such an endpoint gets a route with a prefix at least as long as its static prefix; if it is the endpoint's own, its container serves it and the route requires authentication if the endpoint does |
| RouteTable.OwnRouteIsPicked | runtimes/core/src/api/gateway/routing.rs:7-13 | a route of the table is picked if and only if no longer prefix matches and no route declared before has the same prefix |
| RouteTable.CliTable | runtimes/python/python/vignemale_cli/gateway.py:26-46 | the command line's table has one route a prefix, and its order does not matter for any path |
| RouteTable.CliAuth | runtimes/python/python/vignemale_cli/gateway.py:36-46 | the command line's table has a route for exactly the prefixes of the endpoints, private ones included, and it requires authentication exactly when some endpoint of the prefix does |
| RouteTable.CliFirstServiceWins | runtimes/python/python/vignemale_cli/gateway.py:38-45 | of the services with an endpoint of a prefix, the first one and its URL get the route |
| RouteTable.FindStaticPrefix | runtimes/python/python/vignemale/api.py:321-327 | the loop computes the static prefix |
| RouteTable.FindLiteralPrefix | runtimes/python/python/vignemale_cli/gateway.py:15-23 | the loop computes the literal prefix |
| RouteTable.BuildGatewayRoutes | runtimes/python/python/vignemale/api.py:305-342 | the loop, with its three skips, fills the table of GatewayTable and PrivateIsNotRouted |
| RouteTable.BuildRoutes | runtimes/python/python/vignemale_cli/gateway.py:26-46 | fails exactly when a service has no URL, naming the first; otherwise fills the table the lemmas are about |
| SvcAuth.MessageIsInjective | runtimes/core/src/api/svcauth.rs:20-34 | the signed message determines date, caller, endpoint and both hashes when date and caller are single lines |
| SvcAuth.SignedText | runtimes/python/python/vignemale/call.py:84-93 | what is signed are five lines: date, caller, endpoint, the hash of the body, the hash of the identity |
| SvcAuth.TwoLineCaller | runtimes/python/python/vignemale/call.py:84-93 | with a two-line caller it does not |
| SvcAuth.CtEqIsEquality | runtimes/core/src/api/svcauth.rs:58-62 | the constant-time xor-fold is equality |
| SvcAuth.DateReadsBack | runtimes/core/src/api/svcauth.rs:100-100 | a date as the signer prints it parses back to the same second |
| SvcAuth.ParsesExactly64Bits | runtimes/core/src/api/svcauth.rs:100-100 | of the decimal numbers, signed or not, exactly those of 64 bits are read, and as what they denote |
| SvcAuth.ToleranceIs120 | runtimes/core/src/api/svcauth.rs:101-103 | the clock check of a release build accepts exactly the dates within 120 seconds and the one 2^63 seconds ago |
| SvcAuth.VerifyAny | runtimes/core/src/api/svcauth.rs:90-111 | accepts exactly when the date parses, is in tolerance, and some accepted secret gives the signature; otherwise the error of the first check that fails |
| SvcAuth.VerifiesExactlyWhatWasSigned | runtimes/core/src/api/svcauth.rs:20-111 | without collisions, a signature verifies if and only if its secret is accepted, the date is in tolerance, and date, caller, endpoint, body and identity are the signed ones |
| SvcAuth.AcceptedAre | runtimes/core/src/api/svcauth.rs:43-56 | a secret is accepted if and only if it is not empty and is the current one or a trimmed previous one |
| SvcAuth.TrimMeaning | runtimes/core/src/api/svcauth.rs:50-54 | trimming a previous secret takes white space off both ends and nothing else |
| SvcAuth.AcceptedSecretsFromEnv | runtimes/core/src/api/svcauth.rs:43-56 | the loop returns the current secret, then the previous ones in order |
| EdgeTrust.KeptNames | runtimes/core/src/api/gateway/proxy.rs:83-88 | a client header is kept if and only if it is not hop-by-hop, not `x-vignemale-` and not traceparent |
| EdgeTrust.ForwardsExactly | runtimes/core/src/api/gateway/proxy.rs:51-88 | for every header name the values that are sent, in order: the client's own for all names that are not hop-by-hop, `x-vignemale-`, traceparent or X-Auth-Token; behind the gateway's token for X-Auth-Token; none for hop-by-hop and other `x-vignemale-` names; the gateway's single date, caller, signature, traceparent and identity. Method, path, query and body are the request's, the upstream is the picked route's without slashes at its end |
| EdgeTrust.RefusedExactly | runtimes/core/src/api/gateway/proxy.rs:31-50 | a refused request gets 404 without a route; on a protected route 500 without an auth handler, 401 without a token, else the auth handler's status; and 500 without a secret |
| EdgeTrust.BackendRefuses | runtimes/core/src/api/server.rs:169-232 | a mesh backend refuses with 401 only |
| EdgeTrust.BearerTokenIsRead | runtimes/core/src/api/server.rs:109-120 | a bearer token reaches the auth handler as the client sent it, in three spellings and whatever the query says; without one the query token counts |
| EdgeTrust.SentExactly | runtimes/core/src/api/gateway/proxy.rs:31-49 | the edge forwards exactly when a route matches, there is a secret, and on a protected route the auth handler accepts the token |
| EdgeTrust.OwnHeadersRead | runtimes/core/src/api/gateway/proxy.rs:68-88 | whatever the client sent, the backend reads the gateway's date, caller, signature, traceparent and identity |
| EdgeTrust.ForwardedVerifies | runtimes/core/src/api/gateway/proxy.rs:35-88 | every forwarded request verifies at a mesh backend that accepts the secret, within 120 seconds, if the path arrives as signed; its identity is what the edge auth handler returned, or none |
| EdgeTrust.ForwardedVerifiesExactly | runtimes/core/src/api/server.rs:169-232 | without collisions, it is accepted if and only if the secret is accepted, the date is in tolerance, the path is the signed one, and no required identity is missing |
| EdgeTrust.UpstreamBasePath | runtimes/core/src/api/gateway/proxy.rs:61-66 | with a base path in the upstream URL no forwarded request verifies |
| EdgeTrust.TraceGoesOn | runtimes/core/src/api/gateway/proxy.rs:27-88 | the backend continues the gateway's trace: the client's traceparent if that was valid, else the one the gateway made, whatever ids the backend draws |
| EdgeTrust.AcceptedIsSigned | runtimes/core/src/api/server.rs:169-232 | whatever arrives, what is accepted is signed for this path, body and identity, and a protected endpoint never starts without an identity |
| EdgeTrust.SignatureIsForOneRequest | runtimes/core/src/api/server.rs:169-232 | without collisions, whoever sends a signature of the gateway again, a backend accepts it for the same path, body and identity only, and while the gateway's date is in tolerance |
| EdgeTrust.HandleRequest | runtimes/core/src/api/gateway/proxy.rs:16-88 | the handler, loop by loop, gives the reply that ForwardsExactly and RefusedExactly describe |
| EndToEnd.EdgeToLeaf | runtimes/core/src/api/gateway/proxy.rs:16-88 | whatever the client sends, every handler that a public request starts, in any tree of calls behind the gateway, carries the trace id of the edge, and acts for the caller the edge authenticated or for nobody, given that no path parameter and no HTTP call to an unprotected endpoint uses the name auth |
| EndToEnd.ProtectedEndpointRuns | runtimes/core/src/api/gateway/proxy.rs:31-66 | on a path whose own route is picked, a request for a protected endpoint is forwarded if and only if the auth handler accepts its token; it goes to the service that serves the endpoint, and the endpoint runs there with what the handler returned (unless that is empty text: 401) |
| CallTree.FormatReadsBack | runtimes/python/python/vignemale/call.py:96-101 | a traceparent that was formatted is valid and its trace id reads back |
| CallTree.TraceparentFields | runtimes/core/src/api/server.rs:283-289 | a header of at least four fields is valid exactly when the second has 32 characters, one of three fields never |
| CallTree.RequestHasTrace | runtimes/core/src/api/server.rs:283-293 | a request always has a valid traceparent: its own if valid, else a new one |
| CallTree.TraceAndIdentity | runtimes/python/python/vignemale/call.py:52-131 | in any tree of local and HTTP calls, whatever handlers catch and however they go on, every handler carries the request's trace id, and sees exactly the identity its path leaves: a local hop and an HTTP hop to a protected endpoint keep it, any other HTTP hop replaces it by the text of a parameter named auth, or by none |
| CallTree.RootIdentityOrNone | runtimes/core/src/api/server.rs:696-733 | every handler sees the request's identity or none, if and only if no handler is started over HTTP, at an endpoint without authentication, with a parameter named auth (other than one that spells the request's identity) |
| CallTree.NoAuthParameterNoSurprise | runtimes/core/src/api/server.rs:696-733 | what an application can check beforehand: no HTTP call in the tree to an unprotected endpoint has a parameter named auth; then every handler sees the request's identity or none |
| CallTree.AuthParameterIsTaken | runtimes/python/src/lib.rs:599-621 | the input that shows it: in a request without identity, a parameter named auth becomes the identity of an unprotected callee, and of the protected endpoint that one calls |
| CallTree.RequestContext | runtimes/python/src/lib.rs:596-633 | a request's handler has the request's traceparent, and as identity the authentication data, or without any the text of a parameter named auth, or none; only a body that is no JSON keeps it from starting here |
| CallTree.LocalContext | runtimes/python/python/vignemale/call.py:70-77 | a local callee has its caller's context, whatever its arguments are called |
| CallTree.LocalPathKeepsIdentity | runtimes/python/python/vignemale/call.py:52-78 | a path of local calls only leaves the identity as it is |
| CallTree.ProviderSwitch | runtimes/python/python/vignemale/call.py:36-46 | where the run apart does not depend on how calls travel (each HTTP call gets through exactly if the endpoint is found in one process, the endpoint does the same with arguments as text, results pass JSON unchanged, and no handler tells a disguised exception from an APIError), a request with an identity gives the same handlers, identities, traces and failure apart as in one process, if and only if every hop that starts a handler leaves the identity |
| CallTree.DifferentStartShows | runtimes/python/python/vignemale/call.py:104-117 | the agreement is needed: a call that starts its handler in one way only, for want of a secret or because an argument is refused as text, shows |
| CallTree.OtherErrorIsDisguised | runtimes/python/python/vignemale/call.py:121-131 | so is that of failures: a handler that catches APIErrors only, and calls one that raises another exception, succeeds over HTTP and fails in one process, though every hop keeps the identity |
| CallTree.ChangedResultShows | runtimes/python/python/vignemale/call.py:141-142 | and that of results: a handler that does something else with a result from JSON shows |
| CallTree.Thread.Wrapper | runtimes/python/python/vignemale/api.py:254-285 | the context variable after the wrapper equals its value before, on return, on raise and on refusal; during it, the variable holds the traceparent and the auth argument as they came |
| CallTree.Thread.Execute | runtimes/python/python/vignemale/api.py:280-284 | a handler makes its calls one after the other, each in the context it was started with, whatever the earlier ones ran in this thread, and goes on as it reacts to their outcomes |
| CallTree.Thread.Invoke | runtimes/python/python/vignemale/call.py:36-131 | a call runs the callee on its arguments in this context, or over HTTP on their texts with the child traceparent and the identity header, turns every failure into an APIError over HTTP only, and leaves the variable as it was |
| CallTree.Thread.Internal | runtimes/core/src/api/server.rs:603-733 | the internal route passes the identity to endpoints that require one only, and refuses those without; parameters and body go to every endpoint (CallTree.CalleeGets says what arrives) |
| CallTree.BuildKwargs | runtimes/python/src/lib.rs:596-633 | fails exactly for a body that is no JSON; otherwise the arguments hold the query, the headers, the authentication data and the body as given, of every other name the text of its last parameter, and nothing else |
| CallTree.RequestArguments | runtimes/python/src/lib.rs:599-634 | the same of the specification, over the request's own fields: with a body, `body` is its JSON; without one it is there only if a parameter has that name |
| CallTree.LocalArguments | runtimes/python/python/vignemale/call.py:70-77 | a local call passes its arguments as they are, its body unless that is None, the caller's identity or None as `auth`, the caller's traceparent and an empty query, and nothing else |
| CallTree.CalleeGets | runtimes/python/python/vignemale/call.py:52-142 | what a started callee's wrapper is called with: in the process the arguments and the body as they are; over HTTP the texts of the arguments, the same body, the caller's trace id with a new span, and the identity if and only if the endpoint requires one |
| CallTree.CallOutsideHandlers | runtimes/python/python/vignemale/call.py:73-131 | a call outside of any handler has no identity: a local callee gets None, an HTTP callee a new trace, and an endpoint that requires an identity does not start |
| CallTree.ServedGets | runtimes/python/src/lib.rs:636-644 | a public request starts its handler with its own arguments, or answers with an API error when its body is no JSON |
| CallTree.HandlerGoesOn | runtimes/python/python/vignemale/call.py:121-154 | what a call started comes first; then the handler does what it does after that outcome, and a failure it does not catch is its own |
| StreamChannel.RunInv | runtimes/python/src/lib.rs:649-712 | over every interleaving at most 64 chunks are buffered, the received chunks are a prefix of the accepted ones in order, and the end is sent only after every accepted chunk |
| StreamChannel.WaitsAt64 | runtimes/core/src/api/server.rs:563-563 | a write waits exactly when 64 chunks are buffered |
| StreamChannel.OnlyWhatWasWritten | runtimes/core/src/api/server.rs:60-65 | every accepted or waiting chunk is the chunk of a write that began |
| StreamChannel.ClosedStaysClosed | runtimes/python/src/lib.rs:660-672 | after the close no write begins: every later write returns false |
| StreamChannel.EndIsFinal | runtimes/core/src/api/server.rs:563-583 | after the end nothing is accepted and nothing goes out |
| StreamChannel.NeverStuck | runtimes/core/src/api/server.rs:563-583 | with a live client and a closed sink there is always a step towards the end |
| StreamChannel.DrainingEnds | runtimes/core/src/api/server.rs:563-583 | draining ends after boundedly many steps, and then everything accepted and the end were sent |
| StreamChannel.PyStreamSink.constructor | runtimes/python/src/lib.rs:695-704 | a request starts with an open sink and an empty channel |
| StreamChannel.PyStreamSink.StartWrite | runtimes/python/src/lib.rs:660-663 | a write clones the sender, or returns false when the sink is closed |
| StreamChannel.PyStreamSink.FinishWrite | runtimes/core/src/api/server.rs:60-65 | a write returns true exactly when the receiver is alive, and then its chunk is the last of the queue |
| StreamChannel.PyStreamSink.DoClose | runtimes/python/src/lib.rs:669-673 | close empties the sink, twice as well as once |
| StreamChannel.PyStreamSink.Next | runtimes/core/src/api/server.rs:563-583 | the stream yields the oldest chunk, or the end when no sender is left |
| Chunking.SepLenIsGreedyMatch | examples/corpus/embedding.py:33-33 | the separator found is the longest match of the regular expression |
| Chunking.GreedyIsValid | examples/corpus/embedding.py:34-42 | every chunk of several paragraphs fits in the size, and the chunks are the paragraphs in order |
| Chunking.ChunksAreFewest | examples/corpus/embedding.py:33-42 | no order-preserving grouping within the size uses fewer groups |
| Chunking.ChunksAreLossless | examples/corpus/embedding.py:33-43 | the characters of the chunks that are not white space are those of the text, in order |
| Chunking.NoChunksExactlyForBlankText | examples/corpus/embedding.py:33-43 | there is no chunk if and only if the text is all white space |
| Chunking.RechunkingIsStable | examples/corpus/embedding.py:33-43 | chunking the chunks, joined by blank lines, at the same size gives the same chunks |
| Chunking.GroupParas | examples/corpus/embedding.py:34-42 | the loop with its running chunk computes the greedy grouping |
| Chunking.ChunkText | examples/corpus/embedding.py:31-43 | the result is the chunks; the fallback on the last line is never reached |
| LinkToml.LastWriterWins | runtimes/python/python/vignemale_cli/link.py:23-52 | a second edit undoes the first, and an edit repeats itself, if and only if the text has the section or newline is its only line ending |
| LinkToml.AppliesExactly | runtimes/python/python/vignemale_cli/link.py:23-52 | the edit line by line: the first header line, the next line that opens a table, the first app line between them, which is replaced; without one the line goes directly behind the header; without a header the section goes behind the text |
| LinkToml.AppLineForms | runtimes/python/python/vignemale_cli/link.py:46-47 | an app line may be indented and have white space before the equals sign |
| LinkToml.EditTwice | runtimes/python/python/vignemale_cli/link.py:39-52 | on the lines of any text with the section, a second edit undoes the first |
| LinkToml.ReadsBack | runtimes/python/python/vignemale_cli/link.py:23-52 | on any text, the first app line of the section reads back as the given name |
| LinkToml.OtherLinesKept | runtimes/python/python/vignemale_cli/link.py:39-52 | every other line is kept, in order |
| LinkToml.SectionComesAfter | runtimes/python/python/vignemale_cli/link.py:34-37 | without the section the text stays as it is, and the section follows it behind a blank line |
| LinkToml.FinalNewlineExactly | runtimes/python/python/vignemale_cli/link.py:47-52 | with a section, the edited text ends in a newline exactly when the text did, or when its last line is an empty one without a newline |
| LinkToml.FinalNewlineKept | runtimes/python/python/vignemale_cli/link.py:47-52 | so the end of a newline-separated text stays as it was |
| LinkToml.FindHeader | runtimes/python/python/vignemale_cli/link.py:27-32 | the first loop finds the first header, or none |
| LinkToml.EditSection | runtimes/python/python/vignemale_cli/link.py:39-52 | the other loops replace the first app line of the section, or insert one after the header |
| LinkToml.ApplyText | runtimes/python/python/vignemale_cli/link.py:23-52 | the method computes the edit the lemmas are about |
| DeviceFlow.Cli.Login | runtimes/python/python/vignemale_cli/auth.py:76-117 | over the fields of the replies: every reply but the last carries no token and says authorization_pending or slow_down; the last one decides (a status below 400 with a token logs in with that token, another error is a refusal, a raised request a failure, and otherwise the time is up); the sleeps are the first interval and 5 seconds more after each slow_down; each poll began before the deadline; the token is stored exactly on a login |
| DeviceFlow.Cli.PollToken | runtimes/python/python/vignemale_cli/auth.py:97-117 | the polling loop does the same for any interval and deadline |
| DeviceFlow.SlowDownLastsForever | runtimes/python/python/vignemale_cli/auth.py:113-115 | the wait before a round is the first interval and 5 seconds for each earlier reply without a token that says slow_down (section 3.5 of RFC 8628), so it never shrinks and nothing else changes it |
| DeviceFlow.PollsAreBounded | runtimes/python/python/vignemale_cli/auth.py:95-117 | the waits before the last sum to less than expires_in, so with an interval of at least one second the polls are bounded by it |

## Left out

- Docker, MinIO and Postgres provisioning, image builds, scaffolding, object storage, TLS, CORS,
  logging, static files and health checks: plumbing without a hard invariant.
- Graceful shutdown, worker processes, request timeouts and body limits: wall clock and OS.
- SQL text, query planning and type coercions in `val.rs`; `find` returns rows in stored order
  here, not by primary key; uniqueness constraints other than the migration name.
- Key columns that are added to an existing table: versions share the `id` key.
- Every ORM operation calls `ensure` first; the erasure theorems start from tables that are
  ready, which Orm.TableOnlyGrows gives for a version whose flag is set. A dry run may
  therefore still create a table or add a column.
- Nothing is cancelled while it waits: the registry operations are awaited by a blocked thread.
- Which migration file a listing gives first: the list is a parameter, sorted, with distinct
  names. A migration script that ends in a line comment is outside the model of a batch: the
  comment swallows the semicolon that `migrate` appends, and the INSERT joins the last statement
  unless that one was already ended.
- Reading the environment: service URLs are a function of the service name, secrets and the
  query token are parameters. Two names that share an environment variable share their URL.
- URL normalisation between gateway and backend: the path that arrives is a parameter.
- Matching of requests to endpoints inside a service beyond RouteTable.Fits; trailing slashes.
- `call()` finds the endpoint by name and service; here a call names its callee, or raises
  before reaching one. That a local call finds the same in a deployed process as in one with all
  services is assumed. What a handler does is a tree of calls and of reactions to their outcomes:
  for each call one reaction to a result, to an APIError and to any other exception.
- Of the headers a handler gets only traceparent is modelled, and the content of its `query` dict is
  not: both are dicts copied like the parameters.
- `login`: time is counted in ticks, and a round takes at least one.
- `link`: the application name is taken from the alphabet `_slug` leaves; the file is a text.
- Data maps, error codes, client generation, configuration and the example applications other
  than `chunk_text`: they would only add easy members.
