# Data Connect Hub: a verified model

This project models the parts of Data Connect Hub whose correctness is not evident from reading
one function, and proves what they promise. `dafny verify dfyconfig.toml` checks all of it.

| module | what it models |
|---|---|
| `MetaStore`, `MetaTx`, `MetaRuns`, `MetaLaws`, `MetaProgress`, `MetaHistory` | the metadata store: its operations applied at once, the same operations as interleaved PostgreSQL transactions with row locks and unique-index waits, and whole runs of them |
| `LikeMatch`, `LikeAlign` | the LIKE matcher of the S3 connector and the prefix that narrows its listing |
| `DecodeStream` | the chunked decode loop of the format readers, over any push decoder |
| `EsSort`, `EsPages`, `EsPaging` | Elasticsearch paging by `search_after` over a point in time (PIT) |
| `EsMapping`, `EsReorder`, `EsPaths`, `EsDeclared` | merging index mappings into columns, and looking a column up in a document |
| `ResourceOrder`, `ApplyResources` | applying rendered manifests in priority order |
| `Promotion` | promoting ConfigMaps and InitDataConnectionTypes to the REST service, one API call at a time |
| `ServiceStatus` | phase, conditions and releases of a DataConnectService over runs of reconciles |
| `PgVector`, `FlightCommand` | two binary codecs: pgvector values and the Flight SQL command of the SDK |
| `ByteStrings`, `Text`, `Sequences`, `Options` | bytes in big-endian order, splitting and joining text, regrouping concatenations, optional values |

## What is proved, in short

**Metadata store.** In every interleaving of creates, updates, status updates and deletes, with
connections failing at any point, the committed tables are consistent: every connection names an
existing type of its own tenant or of the global tenant, names are unique per tenant. Every run
gives the tables and replies of the one-at-a-time run in the order in which the calls commit or
are refused. No waits form a circle, every finite set of calls ends after at most four statements
per call, and the stored rows are the fold of the successful calls, so no update is lost. In every
run each call succeeds, or is refused in its own way, exactly if the rows at the moment it finishes
ask for that; and a tenant for whom no call acts keeps its connections and the specifications of its
types.

**LIKE.** The matcher accepts a value exactly if it can be cut into pieces, one per character of the
pattern, each of which that character stands for, with the `%` of a pattern taking just a `%` where
the piece begins with one. Without that last clause the cuts are those of SQL. It never accepts what SQL (section 8.5 of ISO/IEC 9075-2)
rejects. It agrees with SQL on a value under every pattern if and only if the value has no `%`, and
under a pattern on every value if and only if the pattern has no `%`. Pattern `%` misses the key
`%x`. Narrowing the listing to the literal prefix loses nothing.

**Decoding.** The batches are a function of the bytes alone, whatever the chunks. Decoding succeeds
if and only if no byte is malformed and no record is cut off at the end. Then the batches hold all
records, all but the last batch are full and none is empty; otherwise all are full, and fewer
records than a batch are missing of those before the error. The inner `break` is never taken.

**Paging.** For one page size and limit, reading a sorted snapshot returns its first hits without
gap or repeat if and only if no page before their end is cut between two hits with the same sort
values; for every page size, if and only if no two hits have the same sort values. The tie-break
ensures that unless the user's sort is a single object or string. Whatever fails, the pages handed
on are the first ones of an undisturbed reading, the PIT is closed once, under the id last heard
of, and an error comes only after that. How many replies have come by then, and whether there is an
error, is determined by the first fault and by whether the last page was short or the limit reached.

**Mapping.** Paths are distinct, in the order of their first leaves, with the type of all their
leaves or `text` if these differ. The leaves are exactly the places where a mapping declares a type,
each with the type declared there, over all indices, or in a mapping at the top if these have none.
Responses that differ only in the order of members, at any depth,
merge to the same fields. The lookup of a path finds the value its names lead to, in every document
that has it, if and only if no name contains a dot and the path does not begin with an empty name
followed by others.

**Applying manifests.** Every pass writes in nondecreasing priority and in rendered order within a
priority: service accounts first, infrastructure before workloads. A pass ends well if and only if
every manifest can be owned, every get succeeds, every write that is needed succeeds, and no object
of another controller has a different hash; otherwise it stops at the first manifest that fails.
Which calls it has made, and what each object is then, follows from the objects before the pass. An
undisturbed pass is silent if and only if every object has the right hash and a
controller. A pass without error leaves that state, so that the next one is silent, if and only if
no create was overtaken by another writer's object with the wrong hash or without a controller:
an overtaken create counts as success.

**Promotion.** In every run with restarts between any two API calls, outages and lost replies,
there is at most one type per namespace and name, a ConfigMap is marked only after a 201 or a 409
for its type (unless a built-in type covers it), and terminal phases are earned and never left.
A reconcile that meets no fault marks its ConfigMap and leaves the service with the type it
describes, a registration ends with the phase of its reply, and a lost reply is made up for by the
next post.

**Status.** The phase is that of the finding, with one exception: all ready with HTTP/2 disabled is
Not Ready. After every run phase Ready and condition Ready agree and are never contradicted, and
there is one entry per type of condition. The version in the status is that of the last stored
reconcile that was called with phase Ready, or empty if one without a platform version was stored
after it. The comment at
dc-controller/internal/controller/dataconnectservice_controller.go:373-374 says the version is only
advanced when the module is ready, but it is set before the gateway check; the model follows the
code. A new version is taken over only by a status that is Ready if and only if it is not the case
that all is found ready while HTTP/2 is known to be disabled. While HTTP/2 is disabled the gateway
check takes back what the reconcile has just set, which moves the time of the last change of a
condition that is reported as before: the time moves only with the condition if and only if this
does not happen.

**Codecs.** Exactly the encodings of a vector are accepted as that vector; sparse text reads back;
varints are the shortest encodings and are read back; a wire parser recovers every command.

## How the source is represented

- Generated ids, clock readings, network outcomes and replies of other systems are parameters. New
  ids are assumed to be unused (they are version-4 UUIDs).
- An update function passed to the store is any function that may fail.
- The database runs at READ COMMITTED: each statement reads the latest committed rows; a row lock
  or an uncommitted index entry of another transaction makes it wait. Locks are held to the end of
  the transaction. The unique indexes are those of libs/pg-meta-store/schema/connections.sql.
- A push decoder is any machine that reads bytes and emits records. It takes no bytes while a batch
  is full, and reading nothing means the end of input.
- A search returns the first hits after a sort key of a fixed snapshot. Sort values are represented
  by their rank.
- A JSON object is a list of named members.
- The server refuses a second controller of an object, so that a patch of another controller's
  object fails.
- `Reconcile` of the ConfigMap watcher posts even if the ConfigMap is already marked, unlike what
  its type's comment says (dc-controller/internal/controller/configmap_watcher_controller.go:47-51); the model follows the code.
- Floats are given by their bits.
- Setting a condition changes the first entry of its type where it stands, or adds one; the time of
  the last change moves only if the entry's status does (the contract of the Kubernetes helper that
  is called). A reconcile sets all its conditions at one time.

## Model

| member | source | states |
|---|---|---|
| MetaStore.ApplyKeepsConsistent | libs/pg-meta-store/src/store/meta.rs:344-947 | every operation applied at once keeps rows under their ids, names unique per tenant and every connection's type in existence |
| MetaStore.PutTypeKeepsConsistent | libs/pg-meta-store/src/store/meta.rs:657-853 | a new or renamed type whose name is free, with its tenant kept, disturbs no connection |
| MetaStore.DropTypeKeepsConsistent | libs/pg-meta-store/src/store/meta.rs:882-947 | deleting a type that no connection references leaves no orphan |
| MetaTx.StatementRefines | libs/pg-meta-store/src/store/meta.rs:344-947 | a statement leaves the tables alone, or ends its transaction and then does and replies what the whole operation does at once; what that is, is stated by `MetaLaws.ApplyAnswersRightly`, `ApplyChangesRightly` and `ApplyStoresRightly` |
| MetaTx.StatementKeepsOwn | libs/pg-meta-store/src/store/meta.rs:344-947 | after its own statement, what a transaction has read is still so |
| MetaTx.StatementKeepsConsistent | libs/pg-meta-store/src/store/meta.rs:344-947 | no single statement makes the committed tables inconsistent |
| MetaTx.PutConnKeepsOther | libs/pg-meta-store/src/store/meta.rs:344-565 | committing a connection disturbs nothing another transaction has read, a deleter's zero count included |
| MetaTx.DropConnKeepsOther | libs/pg-meta-store/src/store/meta.rs:577-597 | so does deleting a connection that nobody else has locked |
| MetaTx.PutTypeKeepsOther | libs/pg-meta-store/src/store/meta.rs:657-853 | so does committing a type |
| MetaTx.DropTypeKeepsOther | libs/pg-meta-store/src/store/meta.rs:865-947 | so does deleting a type: nobody holds a share lock on it |
| MetaTx.StatementKeepsOther | libs/pg-meta-store/src/store/meta.rs:344-947 | a statement that need not wait keeps true what every other transaction has read |
| MetaTx.StatementKeepsCompatible | libs/pg-meta-store/src/store/meta.rs:344-947 | two transactions never come to hold conflicting row locks or the same index entry |
| MetaRuns.MoveKeepsInv | libs/pg-meta-store/src/store/meta.rs:344-947 | the invariant over all transactions, locks and tables is kept by every statement and every rollback |
| MetaRuns.ReachableIsConsistent | libs/pg-meta-store/src/store/meta.rs:97-119 | in every reachable state each committed connection names a type of its own or the global tenant, and names are unique |
| MetaRuns.RunsAreLinearizable | libs/pg-meta-store/src/store/meta.rs:344-947 | every run has the tables and replies of the one-at-a-time run in the order the calls finish, and exactly the finished calls are in it; `MetaLaws.EveryCallIsRight` says what each reply means |
| MetaRuns.DeleteTypeDecidesAtItsEnd | libs/pg-meta-store/src/store/meta.rs:882-947 | a delete succeeds exactly if the type is its tenant's and no connection references it at the moment it finishes; otherwise it reports the number that do |
| MetaProgress.BlockerIsAhead | libs/pg-meta-store/src/store/meta.rs:407-485 | whoever is waited for is running and asks for nothing or for something later in the lock order |
| MetaProgress.NoDeadlock | libs/pg-meta-store/src/store/meta.rs:407-947 | in no reachable state do calls wait in a circle, and no chain of waits has more than four calls |
| MetaProgress.SomeCallCanRun | libs/pg-meta-store/src/store/meta.rs:344-947 | while a call runs, some call can take a step |
| MetaProgress.RunsAreBounded | libs/pg-meta-store/src/store/meta.rs:344-947 | a run has at most four statements per call |
| MetaProgress.RunsComplete | libs/pg-meta-store/src/store/meta.rs:344-947 | a run can go on exactly while a call has not ended, so every finite set of calls completes |
| MetaHistory.ApplyMovesParts | libs/pg-meta-store/src/store/meta.rs:407-853 | a successful operation changes only its half of its row, never the tenant or creation time; a refused one changes nothing |
| MetaHistory.NothingIsLost | libs/pg-meta-store/src/store/meta.rs:407-853 | after every run each row's specification, status and origin are the fold of the successful calls in the order they finished |
| MetaLaws.ConnOpsAnswerRightly | libs/pg-meta-store/src/store/meta.rs:344-597 | creating, updating and deleting a connection succeed, or are refused as not found, unprocessable, in conflict or rejected, each exactly under its own condition on the rows; a row of another tenant is not found |
| MetaLaws.TypeOpsAnswerRightly | libs/pg-meta-store/src/store/meta.rs:657-947 | the same for types, with the number of connections a refused delete reports |
| MetaLaws.ApplyAnswersRightly | libs/pg-meta-store/src/store/meta.rs:344-947 | so for all eight operations success and each refusal have their exact condition |
| MetaLaws.ApplyChangesRightly | libs/pg-meta-store/src/store/meta.rs:344-947 | a success stores the row it returns, or removes the row it names, and nothing else; a refusal changes nothing |
| MetaLaws.ApplyStoresRightly | libs/pg-meta-store/src/store/meta.rs:344-853 | the row stored: the given or edited half, the other half as it was, and the time of the update |
| MetaLaws.OtherTenantsKeepTheirRows | libs/pg-meta-store/src/store/meta.rs:344-947 | an operation for one tenant leaves the connections and types of every other tenant exactly as they are |
| MetaLaws.StatusReportsKeepSpecs | libs/pg-meta-store/src/store/meta.rs:784-853 | a status report about a type, which acts for no tenant, changes no connection and no specification |
| MetaLaws.EveryCallIsRight | libs/pg-meta-store/src/store/meta.rs:344-947 | in every run each call answers, changes and stores what the tables at the moment it finishes ask for |
| MetaLaws.TenantsAreIsolated | libs/pg-meta-store/src/store/meta.rs:344-947 | after every run a tenant for whom no call acts has its connections and the specifications of its types as before |
| LikeMatch.LaterStartEndsLater | connectors/s3/src/connector.rs:433-440 | the exchange argument: a match from a later start reaches the end of what was met no earlier |
| LikeMatch.WildcardRound | connectors/s3/src/connector.rs:433-440 | only the last `%` has to be remembered |
| LikeMatch.SqlLikeMatch | connectors/s3/src/connector.rs:422-450 | the loop decides the matcher's reading of the pattern for every value and pattern, in fewer than (value length + 1) * (pattern length + 1) rounds |
| LikeMatch.SkipWildcards | connectors/s3/src/connector.rs:446-449 | the trailing loop skips exactly the wildcards |
| LikeMatch.TimesIsProduct | connectors/s3/src/connector.rs:426-445 | the bound on the rounds is a product |
| LikeMatch.Sound | connectors/s3/src/connector.rs:422-450 | whatever the matcher accepts, SQL does |
| LikeMatch.Complete | connectors/s3/src/connector.rs:422-450 | if value or pattern has no `%`, the matcher accepts what SQL does |
| LikeMatch.AgreesOnValue | connectors/s3/src/connector.rs:430-440 | agreement with SQL under every pattern if and only if the value has no `%` |
| LikeMatch.AgreesUnderPattern | connectors/s3/src/connector.rs:430-440 | agreement with SQL on every value if and only if the pattern has no `%` |
| LikeMatch.SelectAllMissesPercentKey | connectors/s3/src/connector.rs:430-440 | the value `%x` is rejected under the pattern `%` |
| LikeMatch.LikePrefix | connectors/s3/src/connector.rs:417-420 | the longest beginning of the pattern without a wildcard |
| LikeMatch.AcceptedHasPrefix | connectors/s3/src/connector.rs:417-450 | every accepted value begins with the literal prefix |
| LikeMatch.NarrowingLosesNothing | connectors/s3/src/connector.rs:362-386 | filtering the narrowed listing gives the tables of filtering the whole one, in the same order |
| LikeMatch.ListTables | connectors/s3/src/connector.rs:357-408 | the listed tables are the readable files of the whole bucket whose path the filter accepts, in listing order |
| LikeMatch.TablesAre | connectors/s3/src/connector.rs:357-408 | a path is among the tables exactly if a readable file with that path passes the filter |
| LikeMatch.TablesInOrder | connectors/s3/src/connector.rs:373-408 | tables come in the order of the listing |
| LikeMatch.ListWithIs | connectors/s3/src/connector.rs:362-375 | a narrowed listing has exactly the entries that begin with the prefix |
| LikeAlign.LikeExactlyIfCut | connectors/s3/src/connector.rs:422-450 | the SQL meaning: a value is like a pattern exactly if it can be cut into one piece per pattern character, any piece for `%`, any one character for `_`, and itself for every other |
| LikeAlign.AcceptsExactlyIfPercentCut | connectors/s3/src/connector.rs:422-450 | the matcher accepts exactly the values with such a cut in which a `%` of the pattern at a `%` of the value takes just that |
| DecodeStream.BatchesAreExact | libs/format-readers/src/lib.rs:39-87 | batches lose no record and keep the order; all but the last are full, none is empty |
| DecodeStream.FeedInParts | libs/format-readers/src/lib.rs:39-87 | reading bytes in two parts is reading them at once |
| DecodeStream.FeedGoesWell | libs/format-readers/src/lib.rs:52-60 | reading goes well exactly if no byte is malformed in the state the bytes before it lead to |
| DecodeStream.FullBatchesAreExact | libs/format-readers/src/lib.rs:52-73 | the batches handed on before an error are full and lack fewer than one batch of records, at the end |
| DecodeStream.DecodedIsDecoding | libs/format-readers/src/lib.rs:39-87 | decoding succeeds exactly if no byte is malformed and no record is cut off, and what the batches hold in either case |
| DecodeStream.Decoder.Decode | libs/format-readers/src/lib.rs:24-29 | the push decoder's contract: how much it takes, and nothing only if a batch is full |
| DecodeStream.Decoder.Flush | libs/format-readers/src/lib.rs:31-36 | a flush hands on the collected records and empties the batch |
| DecodeStream.DecodeChunk | libs/format-readers/src/lib.rs:52-73 | a chunk advances the decoder by its bytes, the batches handed on are full, and the inner loop is never broken off |
| DecodeStream.Decode | libs/format-readers/src/lib.rs:39-87 | for every chunking, empty chunks included, batches and success are a function of the concatenated bytes: it succeeds exactly if no byte is malformed and no record cut off, with all records in the batches, and otherwise hands on full batches that lack fewer than one batch of the records before the error |
| DecodeStream.RowsRoundTrip | libs/format-readers/src/lib.rs:76-84 | the text of rows decodes to the rows, with or without a last newline |
| DecodeStream.DecodeRows | libs/format-readers/src/lib.rs:39-87 | rows that arrive in any chunks come back in order and in batches |
| DecodeStream.WholeRows | libs/format-readers/src/lib.rs:108-113 | everything up to the last newline, or all if there is none |
| DecodeStream.ReadSample | libs/format-readers/src/lib.rs:89-117 | the sample is the first chunks, as many as reach the limit, cut after their last newline if the limit was reached; all of a short stream |
| EsSort.SentSort | connectors/elasticsearch/src/query.rs:66-76 | the sort sent ends ties by `_shard_doc` unless the user's sort is a single clause, which is sent alone; the user's clauses stay first and nothing else is added |
| EsSort.DistinctDocsDistinctKeys | connectors/elasticsearch/src/query.rs:66-76 | with a `_shard_doc` clause, different documents have different sort values |
| EsSort.LessIsStrictTotal | connectors/elasticsearch/src/query.rs:66-76 | sort values are totally ordered |
| EsPages.TieBreakMakesStrict | connectors/elasticsearch/src/query.rs:51-83 | with no user sort or a list, the snapshot has no ties |
| EsPages.SortedCourse | connectors/elasticsearch/src/connector.rs:279-288 | after a page, the hits after the last hit's sort values begin behind that hit and its ties |
| EsPages.SearchIs | connectors/elasticsearch/src/connector.rs:246-256 | a search returns the hits after the given sort values, from the first one on, as many as asked for or all there are |
| EsPages.FirstAboveIs | connectors/elasticsearch/src/connector.rs:279-288 | where the hits after given sort values begin |
| EsPages.PagesAreFull | connectors/elasticsearch/src/connector.rs:240-289 | no page is empty and every page but the last is full |
| EsPages.PagesAreExact | connectors/elasticsearch/src/connector.rs:240-289 | without ties the pages are the first hits up to the limit, without gap or repeat |
| EsPages.TiesAreLost | connectors/elasticsearch/src/connector.rs:279-288 | a page that ends between two ties loses the second |
| EsPages.CompleteForSizeExactly | connectors/elasticsearch/src/connector.rs:240-289 | for one page size and limit, a reading returns the first hits exactly if no multiple of the page size before their end falls between two ties |
| EsPages.CompleteExactlyWithoutTies | connectors/elasticsearch/src/connector.rs:240-289 | a reading to the end is complete for every page size if and only if the snapshot has no ties |
| EsPages.AsksFromIs | connectors/elasticsearch/src/connector.rs:240-289 | one more page is asked for after the last one exactly if that was full and the limit is not reached |
| EsPaging.RequestsGoAhead | connectors/elasticsearch/src/connector.rs:240-289 | each request returns the next page of the undisturbed reading, and the last if it is short |
| EsPaging.SearchMovesOn | connectors/elasticsearch/src/connector.rs:279-288 | the place a reading has reached grows with every page, so it ends |
| EsPaging.ReadPages | connectors/elasticsearch/src/connector.rs:235-289 | the loop hands on the first pages, stops at the first fault or the end, and follows the PIT id through every reply that came |
| EsPaging.ReadTabular | connectors/elasticsearch/src/connector.rs:211-296 | whatever fails, pages first, then one closing of the PIT under the id last heard of, then the error; the number of replies and the error are determined by the first fault and by whether a page is asked for after the last one |
| EsPaging.FaultlessReadsAll | connectors/elasticsearch/src/connector.rs:240-296 | without a fault every page is handed on and no error is reported |
| EsPaging.LastHeardIs | connectors/elasticsearch/src/connector.rs:258-260 | the id last heard of is that of the last reply that brought one, or the first |
| EsPaging.ReadingInOrder | connectors/elasticsearch/src/connector.rs:211-296 | event by event: the pages, then the closing of the PIT, then the error if there is one |
| EsReorder.ResponsesHaveSameLeaves | connectors/elasticsearch/src/types.rs:27-86 | responses that differ only in the order of members, at any depth and indices included, have the same leaves |
| EsReorder.ResponsesMergeAlike | connectors/elasticsearch/src/types.rs:27-86 | and so merge to the same fields |
| EsReorder.LookupSame | connectors/elasticsearch/src/types.rs:67-69 | looking up a member does not depend on the order either |
| EsMapping.Firsts | connectors/elasticsearch/src/types.rs:70-77 | the paths that occur, each once |
| EsMapping.FirstsGrow | connectors/elasticsearch/src/types.rs:70-77 | later leaves only add paths behind those of earlier ones |
| EsMapping.OrderDoesNotMatter | connectors/elasticsearch/src/types.rs:27-86 | the same leaves in another order merge to the same fields |
| EsMapping.NewPath | connectors/elasticsearch/src/types.rs:71-77 | a leaf with a new path adds a field with its type |
| EsMapping.KnownPath | connectors/elasticsearch/src/types.rs:78-82 | a leaf with a known path makes the field text if the types differ |
| EsMapping.Merger.Note | connectors/elasticsearch/src/types.rs:70-83 | list and side index stay in step, and the fields stay those of all leaves seen |
| EsMapping.Merger.MergeProperties | connectors/elasticsearch/src/types.rs:51-86 | the leaves of a mapping are noted in order, at every depth |
| EsMapping.Merger.MergeProperty | connectors/elasticsearch/src/types.rs:67-84 | a property with properties of its own contributes theirs, otherwise its type if that is a string; `EsDeclared.LeavesAreTheDeclared` ties these to the mapping |
| EsMapping.ParseMapping | connectors/elasticsearch/src/types.rs:27-49 | distinct paths in the order of first leaves, each with the type of all its leaves or text; which leaves these are, and of what type, is stated by `EsDeclared.ResponseLeavesAre` and `EsDeclared.LeavesAreTheDeclared` |
| EsDeclared.LeavesAreTheDeclared | connectors/elasticsearch/src/types.rs:60-86 | the leaves are exactly the places where the mapping, read by names, declares a type string, and each has the type declared there |
| EsDeclared.ColumnsAreTheDeclared | connectors/elasticsearch/src/types.rs:51-86 | with names that can be split back, the merged columns are exactly those places with their declared types |
| EsDeclared.IndexLeavesAre | connectors/elasticsearch/src/types.rs:27-40 | the leaves over all indices are those of each index's mapping |
| EsDeclared.ResponseLeavesAre | connectors/elasticsearch/src/types.rs:27-49 | a response has the leaves of its indices, or of a mapping at its top exactly if the indices have none |
| EsDeclared.SmallMapping | connectors/elasticsearch/src/types.rs:60-86 | a property of type long, a nested keyword and a property without a type give `age: long` and `user.name: keyword` |
| EsPaths.SplitUndoesJoin | connectors/elasticsearch/src/types.rs:61-65 | splitting at dots gives the joined names back if and only if no name has a dot and the path does not begin with an empty name followed by others |
| EsPaths.ResolvePath | connectors/elasticsearch/src/connector.rs:383-389 | the walk follows the pieces between the dots, and finds nothing if one is missing |
| EsPaths.LeavesFollowTraces | connectors/elasticsearch/src/types.rs:60-85 | flattened paths are, leaf by leaf, the joined names that lead to the leaves |
| EsPaths.TraceIsWalkable | connectors/elasticsearch/src/connector.rs:383-389 | the names of a leaf lead to a value in every document shaped by the mapping |
| EsPaths.LookupFindsLeaf | connectors/elasticsearch/src/connector.rs:383-389 | the lookup of a path finds what its names lead to, in every document that has it, if and only if no name has a dot and the path does not begin with an empty name followed by others |
| EsPaths.PathsResolve | connectors/elasticsearch/src/connector.rs:383-389 | under that condition every path resolves, in a document shaped by the mapping, to the value of its own leaf, and different leaves have different paths |
| EsPaths.ColumnsResolve | connectors/elasticsearch/src/connector.rs:365-389 | every merged column then has the value of the one leaf whose names make up its path |
| EsPaths.DottedNameIsMissed | connectors/elasticsearch/src/connector.rs:383-389 | a name with a dot is not found |
| ResourceOrder.SortIsStable | dc-controller/internal/controller/resources.go:724-748 | the sorted manifests are ordered by priority and keep, for each priority, the manifests and their order |
| ResourceOrder.SortIsUnique | dc-controller/internal/controller/resources.go:746-748 | there is only one such order |
| ApplyResources.WritesInOrder | dc-controller/internal/controller/resources.go:738-818 | every pass, even one stopped by an error, writes in nondecreasing priority and in rendered order within a priority |
| ApplyResources.AccountsBeforeWorkloads | dc-controller/internal/controller/resources.go:720-748 | no service account is written after another kind, no infrastructure after a workload, and other kinds come last |
| ApplyResources.QuietExactlyIfSettled | dc-controller/internal/controller/resources.go:794-807 | an undisturbed pass makes no write if and only if every object has the right hash and a controller |
| ApplyResources.PassKeepsOthers | dc-controller/internal/controller/resources.go:738-818 | objects without a manifest are not touched |
| ApplyResources.PassIsStepwise | dc-controller/internal/controller/resources.go:750-816 | after a pass without error each object is as its own step leaves it |
| ApplyResources.StepEndsWell | dc-controller/internal/controller/resources.go:750-816 | one manifest ends well exactly if it can be owned, the get succeeds, the object is not another controller's with a different hash, and no write it needs fails |
| ApplyResources.StepCalls | dc-controller/internal/controller/resources.go:750-816 | the call made: create what is missing, patch a different hash, repair a missing controller, or none |
| ApplyResources.EndsWellExactlyIf | dc-controller/internal/controller/resources.go:738-818 | with distinct keys a pass returns no error exactly if every manifest ends well, judged by the objects before the pass, whatever the faults |
| ApplyResources.CallsAreTheNeeded | dc-controller/internal/controller/resources.go:750-816 | a pass without error makes exactly the calls the objects need, in order |
| ApplyResources.StopsAtTheFirst | dc-controller/internal/controller/resources.go:750-816 | a pass with an error makes the calls needed before the first manifest that fails, and its own if the object was read |
| ApplyResources.PassLeaves | dc-controller/internal/controller/resources.go:738-818 | after every pass, failed ones included, an object is as its own step leaves it if the pass reached it, and as it was if not |
| ApplyResources.NilPassSettles | dc-controller/internal/controller/resources.go:738-818 | a pass without error leaves every object with the right hash and a controller if and only if no create was overtaken by an object without them |
| ApplyResources.SecondPassIsQuiet | dc-controller/internal/controller/resources.go:738-818 | after a pass without error a second pass over the same rendering writes nothing if and only if no create was so overtaken |
| ApplyResources.AloneIsQuiet | dc-controller/internal/controller/resources.go:738-818 | in particular without another writer |
| ApplyResources.OvertakenIsNotSettled | dc-controller/internal/controller/resources.go:780-789 | an AlreadyExists is taken as success and may leave a patch to the next pass |
| ApplyResources.NilPassOwns | dc-controller/internal/controller/resources.go:780-807 | after a pass without error the service controls every object, or it is another controller's and was left as it was, or it came first |
| ApplyResources.ClusterIsAsRendered | dc-controller/internal/controller/resources.go:829-844 | with a hash free of collisions an object then has the rendered content if and only if no object with another content came first |
| ApplyResources.Cluster.ApplyOne | dc-controller/internal/controller/resources.go:750-816 | one manifest: created, repaired, patched or left, with the call made and the error returned as `StepEndsWell` and `StepCalls` state them |
| ApplyResources.Cluster.ApplyNext | dc-controller/internal/controller/resources.go:750-816 | one turn of the loop takes its calls off those of the pass |
| ApplyResources.Cluster.ApplyResources | dc-controller/internal/controller/resources.go:738-818 | the loop over the sorted manifests is the pass the lemmas are about; `EndsWellExactlyIf` says when it returns no error, `PassLeaves` what it leaves |
| Promotion.CreateIsTheStores | dc-controller/internal/controller/restclient.go:265-300 | a delivered create is the metadata store's create, 409 for a conflict and 201 otherwise |
| Promotion.CreateLeavesType | libs/pg-meta-store/src/store/meta.rs:657-692 | after a 201 or a 409 the type exists, and no other type is lost |
| Promotion.MoveKeepsMarks | dc-controller/internal/controller/configmap_watcher_controller.go:60-139 | no step marks a ConfigMap, or prepares to, before a 201 or 409 for its type, built-in aliases aside |
| Promotion.MoveKeepsStatus | dc-controller/internal/controller/initdataconnectiontype_controller.go:55-111 | a status about to be stored follows from a copy that was not terminal and from the reply to its post |
| Promotion.MoveKeepsInv | dc-controller/internal/controller/configmap_watcher_controller.go:60-139 | every step of the controller, its environment and the service keeps the invariant |
| Promotion.ReachableIsEarned | dc-controller/internal/controller/configmap_watcher_controller.go:60-139 | in every run at most one type per namespace and name, and marked only after a 201 or 409 |
| Promotion.TerminalIsEarnedAndKept | dc-controller/internal/controller/initdataconnectiontype_controller.go:66-111 | Completed only after a 201, AlreadyExists only after a 409, and neither is ever changed by a step |
| Promotion.TerminalIsForever | dc-controller/internal/controller/initdataconnectiontype_controller.go:66-69 | a terminal phase stays through every run that does not delete the resource |
| Promotion.MarkedHasItsType | dc-controller/internal/controller/configmap_watcher_controller.go:104-139 | while no other client changes types, every marked ConfigMap has its type, exactly one |
| Promotion.CreateIs | dc-controller/internal/controller/restclient.go:265-300 | the reply tells whether the type was there, and a type is stored exactly if the request arrives and the name is free, reply or not |
| Promotion.PromotionCompletes | dc-controller/internal/controller/configmap_watcher_controller.go:60-139 | a ConfigMap read, posted and marked without a fault is marked, and the service has its type, with its name, namespace and body |
| Promotion.PostIs | dc-controller/internal/controller/configmap_watcher_controller.go:104-125 | after a post a ConfigMap is about to be marked exactly if there was a 201, or a 409 and it was not marked before |
| Promotion.NothingIsPosted | dc-controller/internal/controller/configmap_watcher_controller.go:78-102 | a built-in alias or a ConfigMap without readable fields is not posted; an alias is marked unless it is |
| Promotion.RegistrationEnds | dc-controller/internal/controller/initdataconnectiontype_controller.go:55-111 | a registration without a conflict ends with Completed, AlreadyExists, Pending or Error as its reply was, and keeps its specification |
| Promotion.LostReplyIsMadeUp | dc-controller/internal/controller/restclient.go:265-300 | after a reply that was lost the next post finds the type and stores nothing |
| ServiceStatus.ReconcileIsCoherent | dc-controller/internal/controller/dataconnectservice_controller.go:250-336 | after a reconcile phase and conditions agree, and it is Ready exactly if all is ready and HTTP/2 is not known to be disabled |
| ServiceStatus.ReconcileReports | dc-controller/internal/controller/dataconnectservice_controller.go:250-336 | whether each condition holds after a reconcile, for what reason, and since when: as before only if it held so all along |
| ServiceStatus.PhaseIs | dc-controller/internal/controller/dataconnectservice_controller.go:250-336 | the phase exactly: Failed for the four errors, Progressing while waiting, Ready if all is ready, Not Ready if then HTTP/2 is disabled |
| ServiceStatus.RestIs | dc-controller/internal/controller/dataconnectservice_controller.go:338-354 | generation and distribution as read, the two services' releases, and the platform's exactly if it names a version |
| ServiceStatus.VersionFromIs | dc-controller/internal/controller/dataconnectservice_controller.go:391-401 | the version kept is that of the first platform release, or empty if there is none |
| ServiceStatus.RunsAreCoherent | dc-controller/internal/controller/dataconnectservice_controller.go:211-404 | over all runs phase Ready iff condition Ready, and then Degraded False, ProvisioningSucceeded True, GRPCGatewaySupported not False; one entry per type of condition |
| ServiceStatus.VersionIsLastReady | dc-controller/internal/controller/dataconnectservice_controller.go:372-404 | over all runs the version is that of the last stored reconcile called with phase Ready, or empty since one without a platform version |
| ServiceStatus.AdvancesThoughNotReady | dc-controller/internal/controller/dataconnectservice_controller.go:350-354 | the version can advance in a reconcile that ends Not Ready |
| ServiceStatus.AdvancesExactlyWhenCalledReady | dc-controller/internal/controller/dataconnectservice_controller.go:350-354 | a new version is taken over if and only if all is found ready |
| ServiceStatus.WaitsForReadyExactlyUnlessDisabled | dc-controller/internal/controller/dataconnectservice_controller.go:350-354 | a new version is taken over only by a status that is Ready if and only if it is not the case that all is found ready with HTTP/2 disabled |
| ServiceStatus.VersionIsForgotten | dc-controller/internal/controller/dataconnectservice_controller.go:384-386 | once a reconcile without a platform version is stored, the version is gone until one is called with phase Ready |
| ServiceStatus.TimeMovesOnlyWithCondition | dc-controller/internal/controller/dataconnectservice_controller.go:288-333 | the time of the last change of a condition moves only with the condition if and only if the reconcile does not set its opposite first and take it back |
| ServiceStatus.TimeMovesThoughReadyStaysFalse | dc-controller/internal/controller/dataconnectservice_controller.go:319-333 | while HTTP/2 stays disabled every reconcile that finds all ready moves the time of Ready, which stays false |
| ServiceStatus.FindSet | dc-controller/internal/controller/dataconnectservice_controller.go:1018-1026 | setting a condition changes what is found for its type and for no other |
| ServiceStatus.Resource.SetCondition | dc-controller/internal/controller/dataconnectservice_controller.go:1018-1026 | the search for the entry of a type, changed where it stands or added at the end |
| ServiceStatus.Resource.RemoveCondition | dc-controller/internal/controller/dataconnectservice_controller.go:814-817 | all entries of a type are removed and the others keep their order |
| ServiceStatus.Resource.CheckGrpcGatewaySupport | dc-controller/internal/controller/dataconnectservice_controller.go:812-833 | removes, sets or fails the gateway condition; if HTTP/2 is disabled it degrades the status and demotes phase Ready |
| ServiceStatus.Resource.BuildReleases | dc-controller/internal/controller/dataconnectservice_controller.go:375-404 | the loop finds the first platform entry, whose version is kept unless the phase is Ready |
| ServiceStatus.Resource.Report | dc-controller/internal/controller/dataconnectservice_controller.go:250-327 | the conditions each outcome sets, in the order of the code |
| ServiceStatus.Resource.UpdateStatus | dc-controller/internal/controller/dataconnectservice_controller.go:338-354 | the status becomes that of `PhaseIs`, `RestIs` and `ReconcileReports`: phase, generation, distribution and releases are set before the conditions |
| ServiceStatus.Examine | dc-controller/internal/controller/dataconnectservice_controller.go:250-319 | each outcome is reached exactly if all checks before it pass and its own does not |
| ServiceStatus.Reconcile | dc-controller/internal/controller/dataconnectservice_controller.go:338-370 | the stored status is replaced by the reconciled one, whose phase `PhaseIs` gives for every finding, or kept if the update fails |
| PgVector.DecodeUndoesEncode | connectors/postgres/src/pgvector.rs:70-79 | every vector of dimension at most 65535 is decoded from its encoding, whatever the unused bytes |
| PgVector.AcceptsExactlyEncodings | connectors/postgres/src/pgvector.rs:47-79 | bytes are accepted as a vector if and only if they are its encoding |
| PgVector.ReadSparse | connectors/postgres/src/pgvector.rs:97-104 | an accepted value has as many indices as values |
| PgVector.ReadSparseUndoesEncode | connectors/postgres/src/pgvector.rs:97-112 | every encodable sparse vector is read from its encoding |
| PgVector.AcceptsExactlySparse | connectors/postgres/src/pgvector.rs:55-112 | bytes are accepted as a sparse vector if and only if they are its encoding |
| PgVector.DecodeSparseReadsBack | connectors/postgres/src/pgvector.rs:97-113 | the text decoded from bytes reads back to the dimension, the indices from 1 and the value texts read from them, if floats print without the delimiters |
| PgVector.EncodedReadsBack | connectors/postgres/src/pgvector.rs:97-113 | every encodable sparse vector is decoded from its encoding to a text that reads as that vector |
| PgVector.TextReadsBack | connectors/postgres/src/pgvector.rs:104-113 | the printed form of a sparse vector reads back, braces and slash included |
| PgVector.TextsDiffer | connectors/postgres/src/pgvector.rs:104-113 | if different floats print differently, different values have different texts |
| PgVector.BuildListArray | connectors/postgres/src/pgvector.rs:145-158 | the column has the decoded rows in order, null where the value is; it is built if and only if every value decodes |
| PgVector.SmallVector | connectors/postgres/src/pgvector.rs:70-79 | the bytes of a vector of two floats |
| PgVector.SmallSparse | connectors/postgres/src/pgvector.rs:104-112 | the text of a sparse vector with two elements |
| PgVector.SmallSparseBytes | connectors/postgres/src/pgvector.rs:97-104 | the bytes of a sparse vector with one element |
| ByteStrings.U32IsBigEndian | connectors/postgres/src/pgvector.rs:51-53 | a word is read with its high byte first |
| ByteStrings.ReadUndoesWords | connectors/postgres/src/pgvector.rs:51-53 | big-endian words are read back |
| ByteStrings.WordsUndoRead | connectors/postgres/src/pgvector.rs:51-53 | bytes are the encoding of the words read from them |
| FlightCommand.EncodeVarint | sdk/python/src/data_connect_hub/_flight.py:308-314 | the loop gives groups of seven bits, lowest first, the last without the high bit |
| FlightCommand.ReadUndoesWrite | sdk/python/src/data_connect_hub/_flight.py:308-314 | every number is read back from its encoding, whatever follows |
| FlightCommand.VarintIsMinimal | sdk/python/src/data_connect_hub/_flight.py:308-314 | no encoding of a number is shorter, and none of that length is different |
| FlightCommand.BuildCommandGetTables | sdk/python/src/data_connect_hub/_flight.py:322-335 | the filter part, if there is a filter, then the schema part, if it is asked for |
| FlightCommand.CommandIsRecovered | sdk/python/src/data_connect_hub/_flight.py:322-335 | a wire parser finds exactly the given filter, as field 3, and the flag, as field 5 |
| FlightCommand.CommandsDiffer | sdk/python/src/data_connect_hub/_flight.py:322-335 | different requests have different messages |
| FlightCommand.SmallCommand | sdk/python/src/data_connect_hub/_flight.py:308-335 | the bytes of a command with filter `a` and schemas |

## Left out

- The store's reads, lists and flight service table: single statements without the interplay above.
- JSON (de)serialisation of rows and the text of error messages.
- Failures of the byte stream itself in `decode_stream`: they end decoding with an error after the full batches handed on so far.
- A reading dropped before its end: the stream is then never polled again and does not close the PIT.
- Building Arrow arrays from hits, rows and records, the tables of type names, and the schemas `list_tables` may add.
- The contents of the search request other than page size, sort and `search_after`.
- Rendering manifests and setting namespace, labels, subjects and annotations on them: a manifest is what is hashed.
- Fields that server-side apply leaves to other field managers: `applied` is what the service last applied.
- Messages and observed generations of conditions, the gateway address, requeue delays.
- ServiceStatus.Reconcile: makes no claim about the generation that was reconciled, because the observed generation is that of the object read again before the update.
- The Secret watcher, the finalizer's cleanup beyond clearing marks, and the conversion of fields between APIs.
- `decode_halfvec`: the widening to single precision is done by a library.
- The `Any` wrapper around the command: it is serialised by the Protocol Buffers library.
- Encoding of negative numbers by `_encode_varint`: it is called with tags, lengths and 1 only.
- The URI, Milvus, Neo4j and SQLite connectors, authentication, TLS, configuration and metrics.
