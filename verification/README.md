# GuildNet: verified models of its state machines and data paths

GuildNet's host application manages clusters, runs background jobs, publishes
services over a tailnet, serves RethinkDB tables with role-based masking and live
changefeeds, and reconciles workspaces on Kubernetes. This project models the parts
of it that carry state across calls or across processes, and proves what they keep.

Two forms are used, often side by side:

* **Machines.** Code that interleaves (job workers, EnsureRDB calls and monitors,
  accept loops and DELETE handlers, the changefeed goroutine and its SSE handler, the
  browser's callbacks) is a state, a set of atomic actions and the runs they make; an
  action is one critical section, channel operation or store call. Theorems hold
  after every sequence of enabled actions.
* **Code.** Loops and objects that update their fields are methods and classes
  proved against functions of the old state, or against those same actions, so that
  the theorems about the machine are theorems about the code.

| file | models |
|---|---|
| `Dispatch.dfy`, `Workers.dfy` | job queues and workers: the machine, and Submit and the worker loop as code |
| `JobRecords.dfy` | one job's record in memory, in the store and in its worker's hands |
| `LogFanout.dfy` | log subscriptions and non-blocking publish |
| `Registry.dfy` | the cluster registry and its normal form of ids |
| `RdbLifecycle.dfy`, `RdbInstance.dfy` | the RethinkDB connection: the machine, and EnsureRDB and the monitor as code |
| `Published.dfy` | published listeners, their persisted mirror, DELETE and restore |
| `Paging.dfy`, `ExportMasking.dfy`, `RowListing.dfy` | cursor paging and export, what an export shows of masked columns, and the row listing |
| `Rbac.dfy` | role bindings, role resolution, masking |
| `Changefeed.dfy` | classification, channel, SSE handler and the grid's view |
| `Reconcile.dfy` | the workspace reconciler |
| `Reconnect.dfy` | the SSE reconnect manager |
| `Capabilities.dfy` | the capability cache |
| `Naming.dfy` | physical database names |
| `ProxyPaths.dfy` | proxy paths, base prefixes and Location rewriting |
| `Strings.dfy`, `Options.dfy` | the string operations and the optional values the others need |

`dafny verify dfyconfig.toml` checks everything.

## Where the code does not do what one would expect

The models follow the code. Each of these is stated as a lemma, with the exact
condition where there is one:

* For nginx images the verification of Reconcile looks for an image and a cleared
  security context that never reach the pod spec, although the comments say they do:
  the container is copied into the pod spec before it is edited. The check fails on
  every attempt and the deployment is written five more times in every Reconcile
  (`DesiredPassesUnlessNginx`, `Cluster.VerifyLoop`).
* Reconcile overwrites the spec of a deployment that another controller owns, and only
  then fails to adopt it (`Cluster.Reconcile`).
* A canceled job is marked only until its worker's next put, and a job canceled while
  queued runs all the same (`CancelLastsUntilNextPut`, `CanceledJobRuns`). A Cancel
  between the taking of a copy and its save, by Submit or by the worker, leaves memory
  and store different (`SubmitSaveDiverges`, `StoreDiverges`), and nothing else does
  (`StoreAgreesUnlessOvertaken`).
* A comment in Submit speaks of one worker per kind; the code starts one per call,
  and the accounting of `Dispatch.Balanced` depends on it. A worker uses the handler of
  the call that started it for every job it receives (`HandlerIsOfTheKind`,
  `AnotherCallsHandlerRuns`); `AnotherHandlerPossible` says exactly when a job can meet
  another call's handler, and after the first finished job of a kind it always can
  (`NoneSureAfterTheFirst`).
* Overlapping EnsureRDB calls can leak a connection and start a second monitor
  (`OverlapLeaks`), exactly when one installs where a connection is set
  (`LeaksExactly`); without overlap that never happens (`SerialCallsLeakNothing`).
* A cleanup overtaken by a new publish of its key erases the new one's persisted
  entry (`OvertakenCleanup`), and restore can overwrite a listener published between
  its check and its insert (`OverwriteIsTheRace`, `RestoreLosesListener`); the cleanup of
  the overwritten one then unmaps the newer one (`CleanupUnmapsAnother`). A
  publish that follows a DELETE before the accept loop has cleaned up reuses the closed
  listener, and nothing listens (`ReusesClosedListener`, `ListeningExactly`).
* Ascending one-row paging stops after the empty key (`TraversalComplete`).
* The next cursor of a row listing is the raw id of the last row even where "id" is a
  masked column, and listings and exports whose GetTables fails are served unmasked,
  since its error is ignored (`ListingBlindExactly`, `ExportBlindExactly`).
* When the browser reconnects its changefeed, rows the grid shows already keep their
  old contents, or stay although deleted, until they are updated or deleted again
  (`GridShowsTable`, `MissedDeleteStays`).
* A deployment created by a Reconcile and deleted by its fallback is not created again
  in that run (`Cluster.Recreate`); five failing reads in the verification are enough
  for Reconcile to report success with no deployment (`Cluster.Reconcile`).
* The probe of a failed event source can come back after the next one has opened, and
  ends that one (`LateProbeExactly`, `LateProbeEndsHealthyConnection`).
* A table binding with an empty role hides the database binding
  (`ResolveIsTableThenDbThenOrg`).
* ListDatabases neither sanitises nor defaults the organisation as dbName does, and
  underscores let names of different organisations coincide (`ListedExactlyWhenSafe`,
  `ListsExactly`, `ClashesExactly`).
* Redirects of a legacy proxy path that contains a server form further down, and of
  `/proxy/server` without an id, do not come back to their target, and a relative
  Location is taken from the upstream's root, not from the path of the request
  (`RedirectComesBack`).

## Model

| member | source | states |
|---|---|---|
| `Dispatch.EveryJobInOnePlace` | internal/jobs/runner.go:82-147 | After every interleaving a recorded job is in exactly one place: with its Submit call, in its own kind's queue (once), with one worker, or run to the end; no job is ever run twice |
| `Dispatch.QueueIsServed` | internal/jobs/runner.go:82-116 | There are always at least as many waiting workers of a kind as queued jobs, so a non-empty queue always has a worker that can receive its head, whatever handlers do |
| `Dispatch.BlockedSubmitCanProceed` | internal/jobs/runner.go:90-105 | A Submit blocked on a full queue can send as soon as one receive, which is enabled, happens |
| `Dispatch.FirstInFirstOut` | internal/jobs/runner.go:82-116 | Over every run the ids sent to a kind's queue are, in order, those its workers received followed by those still queued |
| `Dispatch.NoJobIsStuck` | internal/jobs/runner.go:82-116 | In every reachable state each job is run to the end or has an enabled step that brings it on: of its own Submit call, of its kind's queue or of the worker running it |
| `Dispatch.EveryJobCanStart` | internal/jobs/runner.go:82-116 | From every reachable state each job reaches its handler by a run of enabled steps of its own Submit call, its kind's queue and its worker, in which no handler has to return and nothing else is submitted: no job waits for the run of another |
| `Dispatch.HandlerIsOfTheKind` | internal/jobs/runner.go:82-116 | A job is run with the handler of the Submit call that started its worker: some call of the job's own kind past its go statement; a worker runs one job at a time |
| `Dispatch.AnotherCallsHandlerRuns` | internal/jobs/runner.go:90-116 | A run in which a job is run with the handler of another call, whose own job is not even queued |
| `Dispatch.AnotherHandlerPossible` | internal/jobs/runner.go:90-116 | In every reachable state the head of a queue can be received by a worker with another call's handler if and only if its own call's worker is not waiting, more ids are queued, a Submit of the kind is about to send, or a job of the kind has finished |
| `Dispatch.NoneSureAfterTheFirst` | internal/jobs/runner.go:90-116 | Once a job of a kind has finished, at every later moment the head of the kind's queue can go to a worker with another call's handler |
| `Dispatch.BalanceStep` | internal/jobs/runner.go:82-116 | Every step keeps: waiting workers = sends in progress + queued jobs + finished jobs, per kind |
| `Dispatch.InvHolds` | internal/jobs/runner.go:82-147 | The whole invariant (tables, queues, workers, jobs, balance) holds along every run |
| `Workers.Runner.EnsureQueue` | internal/jobs/runner.go:98-105 | The kind has a queue afterwards and no queue's contents change |
| `Workers.Runner.Submit` | internal/jobs/runner.go:82-96 | Submit is a run of the machine, keeps the invariant, starts a waiting worker of the kind, appends the id to its queue, and blocks exactly when 64 ids are queued |
| `Workers.Runner.WorkerTurn` | internal/jobs/runner.go:107-116 | A worker's turn is a run of the machine that runs the head of its queue, a recorded job of its kind never run before, so the skip of an unknown id is never taken |
| `JobRecords.WriteBehind` | internal/jobs/runner.go:82-147 | The stored record is always one that was in memory. For a job never canceled, whenever the most recent save went through, it is the one in memory or its immediate predecessor, and they agree when no put is being saved; before Submit's own save nothing is stored |
| `JobRecords.StoreAgreesUnlessOvertaken` | internal/jobs/runner.go:82-147 | With any cancellations, outside a save and with the most recent save gone through, store and memory agree if and only if the last write to memory was not a Cancel between the taking of a copy (Submit's, or a put of the worker) and the save of that copy; if it was, they differ in the Canceled mark only |
| `JobRecords.SubmitSaveDiverges` | internal/jobs/runner.go:86-90 | A run, all saves going through, after which a waiting job is Canceled in memory and Queued in the store |
| `JobRecords.StoreDiverges` | internal/jobs/runner.go:118-147 | A run, all saves going through, that ends with memory Canceled and store Failed |
| `JobRecords.StatusLifecycle` | internal/jobs/runner.go:118-147 | Unless canceled or edited by the handler, versions go Queued, Running, then Succeeded or Failed; Succeeded is last and has progress 1; Failed stays Failed; a finished run is one or the other |
| `JobRecords.SpecIsKept` | internal/jobs/runner.go:82-92 | Over every run the first version of a record is queued with the submitted spec and nothing else, and no version has another spec |
| `JobRecords.RunOutcome` | internal/jobs/runner.go:118-147 | What runOne leaves for a handler that assigns no field itself: Failed with the message of a panic, else Failed with the last error given to Fail, else Succeeded with progress 1; spec and result unchanged, otherwise the progress of the last WithStep |
| `JobRecords.CancelLastsUntilNextPut` | internal/jobs/runner.go:264-277 | A Canceled mark survives a step if and only if the step is not a put of the worker |
| `JobRecords.CanceledJobRuns` | internal/jobs/runner.go:107-122 | A run in which a job canceled while waiting is Running afterwards |
| `JobRecords.Runner.CancelJob` | internal/jobs/runner.go:265-277 | Cancel is the machine's Cancel action on a job in memory, where it changes the status to Canceled and nothing else, and only a mark on any other id; no other job's record changes |
| `JobRecords.Runner.HandlerCall` | internal/jobs/runner.go:232-250 | WithStep sets the progress and Fail the status and error of the worker's copy, which is then the record in memory and, if saved, in the store; as the machine says, other jobs untouched |
| `JobRecords.Runner.EndRun` | internal/jobs/runner.go:130-146 | After the handler a running job has Succeeded with progress 1 and any other keeps its record; after a recovered panic it has Failed with its message; memory and store as the machine says |
| `JobRecords.Runner.RunOne` | internal/jobs/runner.go:118-147 | runOne with any handler script, each save going through or not, is a run of the machine from the loaded copy to the end, with memory and store as it says; no other job's record changes |
| `JobRecords.Runner.Serve` | internal/jobs/runner.go:107-163 | A worker's turn on an id runs the record in memory where there is one, as a run of the machine from where the job waits, whatever the store holds; else the stored one, if it can be read; else nothing happens |
| `LogFanout.ListedChannelsAreOpen` | internal/jobs/runner.go:199-229 | In every reachable state every channel on a list is open and belongs to that job, so publish never sends on a closed channel |
| `LogFanout.SubscriberSeesItsStream` | internal/jobs/runner.go:199-229 | What a subscriber has received or finds in its buffer is, in order, its job's events since it subscribed, less exactly those that found 128 events waiting |
| `LogFanout.SubscribersAreIndependent` | internal/jobs/runner.go:199-229 | A channel's whole history is a function of its job's events and its own receives and cancel; other subscribers cannot change it |
| `LogFanout.LogHub.TrySend` | internal/jobs/runner.go:223-228 | A send appends to the buffer exactly when fewer than 128 events wait, and never blocks |
| `LogFanout.LogHub.SendAll` | internal/jobs/runner.go:223-228 | The loop offers the event once to each listed channel and touches no other |
| `LogFanout.LogHub.PublishEvent` | internal/jobs/runner.go:220-229 | publish is the machine's Publish action and keeps the invariant |
| `LogFanout.LogHub.SubscribeLogs` | internal/jobs/runner.go:199-203 | A subscription puts an empty channel at the end of the job's list, is the machine's Subscribe action and keeps the invariant |
| `LogFanout.LogHub.RemoveFromList` | internal/jobs/runner.go:204-214 | The locked part of cancel is the machine's Remove action and keeps the invariant |
| `LogFanout.CutFirst` | internal/jobs/runner.go:206-212 | The loop removes the first occurrence, if there is one, and keeps the order of the rest |
| `Registry.SanitizeID` | internal/cluster/registry.go:364-386 | The loop computes the normal form |
| `Registry.NormCharIs` | internal/cluster/registry.go:364-380 | Small letters and digits are kept, capitals become the same small letter, dash, underscore and dot become a dash, everything else is dropped |
| `Registry.NormIsCharacterwise` | internal/cluster/registry.go:364-386 | The normal form is put together character by character, and is "default" exactly when every character is dropped |
| `Registry.NormIsFixedPoint` | internal/cluster/registry.go:364-386 | A normal form is never empty, has only lower-case letters, digits and dashes, and is its own normal form; an id is its own normal form if and only if it is of that shape |
| `Registry.RegistryCoherent` | internal/cluster/registry.go:105-205 | Over any Get/Close sequence with any failures: items and created have equal keys, each key is a fixed point and its instance's id, open database handles and instances correspond one to one |
| `Registry.SharedUntilClose` | internal/cluster/registry.go:105-115 | Raw ids with one normal form get the same instance until that normal form is closed; after Close the next instance has the next handle, neither the old one nor any open one |
| `Registry.ClusterRegistry.Lookup` | internal/cluster/registry.go:106-112 | The fast path finds exactly the instance under the normal form |
| `Registry.ClusterRegistry.Create` | internal/cluster/registry.go:115-205 | The locked path returns the instance there is; else it succeeds if and only if resolver, a non-empty kubeconfig, database and client all work, with a fresh open handle, and a failure changes no instance and leaves no handle open; the registry stays coherent |
| `Registry.ClusterRegistry.Close` | internal/cluster/registry.go:322-350 | Removes the instance, its creation time and its open handle, nothing else, and keeps the registry coherent |
| `RdbLifecycle.MonitorsSeeAConnection` | internal/cluster/registry.go:227-319 | In every reachable state the wait group equals the live monitors plus those being launched; a monitor implies a connection, so the nil branch is unreachable and monitors never start monitors |
| `RdbLifecycle.ConnectionsConserved` | internal/cluster/registry.go:227-319 | Until Close begins a connection is open if and only if it is installed, in the hands of the call or monitor that dialled it, or leaked; monitors and installs balance with leaks |
| `RdbLifecycle.LeaksExactly` | internal/cluster/registry.go:227-319 | Over every run, as many connections leak as installs met a connection, and so many monitors beyond the first are started: nothing leaks if and only if no install meets a connection |
| `RdbLifecycle.SerialCallsLeakNothing` | internal/cluster/registry.go:227-319 | If EnsureRDB calls do not overlap, no install meets a connection, there is at most one monitor, and until Close begins the installed connection is open and every other one not in hand is closed |
| `RdbLifecycle.OverlapLeaks` | internal/cluster/registry.go:231-251 | A run of two overlapping calls that leaks an open connection with two monitors to come |
| `RdbInstance.Instance.EnsureRDB` | internal/cluster/registry.go:227-262 | An uninterrupted call is a run of the machine; it succeeds exactly when connected already or one of at most five dials succeeds before a cancellation, and installs that connection |
| `RdbInstance.FirstDialExactly` | internal/cluster/registry.go:231-262 | The connection an uninterrupted call installs is the first success among its dials with no earlier cancellation, and there is none exactly when no dial is such |
| `RdbInstance.FirstOfExactly` | internal/cluster/registry.go:295-314 | The connection a monitor swaps in is the first success among its dials |
| `RdbInstance.Instance.Reconnect` | internal/cluster/registry.go:295-314 | The loop installs the first of at most three successful dials, closing the old connection, or changes nothing; with a canceled context the monitor returns before dialling |
| `RdbInstance.Instance.MonitorTurn` | internal/cluster/registry.go:265-319 | A monitor's turn, before or after cancellation, is a run of the machine and never takes the nil branch; it returns, giving up its place in the wait group, exactly when the select sees the context end or a canceled monitor would dial, and swaps the connection exactly on a transient ping failure with a successful dial otherwise |
| `Published.PersistedKeysAreOwned` | internal/api/router.go:1271-1336 | After every interleaving with DELETE and restore each persisted key is in the map, about to be erased by an accept loop that unmapped it, untouched since start, or one whose erase failed; each map entry has a running accept loop |
| `Published.MirrorBreaksExactly` | internal/api/router.go:1294-1310 | From a state in which every published key is persisted, a step keeps that so if and only if it is not one of four named steps |
| `Published.MirrorHoldsExactly` | internal/api/router.go:1271-1336 | From start-up on, every published key is persisted throughout a run if and only if none of those steps occurs in it |
| `Published.OvertakenCleanup` | internal/api/router.go:1296-1310 | A run in which a cleanup erases the persisted entry of a newer listener |
| `Published.ListenersLostExactlyByRestore` | internal/api/router.go:1767-1790 | A step makes a serving listener unreachable through the map if and only if it is restore inserting a key that is in the map |
| `Published.EveryListenerReachable` | internal/api/router.go:1747-1830 | From start-up on, every serving listener is the map's entry for its key throughout a run, so DELETE reaches it, if and only if restore never inserts a key that is in the map |
| `Published.OverwriteIsTheRace` | internal/api/router.go:1767-1790 | Over every run from start-up, when restore inserts a key that is in the map, its last check found the key absent and a publish installed a listener for it after that check |
| `Published.CheckSkipsPublished` | internal/api/router.go:1767-1772 | The check passes exactly the keys that are not in the map, and drops the others from the list |
| `Published.RestoreInOrder` | internal/api/router.go:1752-1790 | However it is interleaved, restore deals with the listed keys one by one, in order, leaving none out |
| `Published.RestoreLosesListener` | internal/api/router.go:1767-1790 | A run in which restore overwrites a serving listener, which stays open and out of the map |
| `Published.CleanupUnmapsAnother` | internal/api/router.go:1297-1301 | A run in which the cleanup of an overwritten listener takes the newer one out of the map, where nothing can close it any more |
| `Published.ListeningExactly` | internal/api/router.go:1019-1303 | After every run the listener of a map entry is open if and only if no Accept of its loop has failed and no DELETE has met it; a publish leaves its key listening if and only if that holds of the entry it reuses, or there is none and the listen goes through |
| `Published.ReusesClosedListener` | internal/api/router.go:1275-1277 | A run of publish, DELETE and publish that ends with the key mapped to a closed listener and nothing listening |
| `Published.Server.PublishService` | internal/api/router.go:1272-1336 | With no nil entries, each branch releases the lock exactly once and keeps the map free of nil; a key without an entry gets the new listener if the listen goes through and is then persisted if the save does; it is the machine's Publish action |
| `Published.Server.UnmapListener` | internal/api/router.go:1297-1301 | The deferred map delete removes the entry of the listener's key, whichever it is, and is the machine's Unmap action, lock free afterwards |
| `Published.Server.DeleteService` | internal/api/router.go:1019-1032 | The DELETE handler's locked part closes the listener of an entry and leaves the entry, or goes on to the store when there is none; the machine's Delete action with one release |
| `Published.Server.CheckAbsent` | internal/api/router.go:1767-1772 | Restore's check moves on to the next key exactly when the key is in the map; the machine's action with one release |
| `Published.Server.InsertRestored` | internal/api/router.go:1787-1790 | Restore's insert, under a second acquisition, makes the new listener the key's entry; the machine's action |
| `Published.Server.RestoreKey` | internal/api/router.go:1752-1790 | One turn of the loop is a run of the machine and publishes the key exactly when its instance is ready, it is absent and the listen goes through |
| `Published.Server.RestoreAll` | internal/api/router.go:1747-1790 | Undisturbed, the whole restore is a run of the machine after which a listed key is published exactly when it was before or one of its entries could be listened for, and no earlier listener is replaced |
| `Strings.LessExactly` | internal/db/db.go:490-507 | The key order is dictionary order: a string comes before its extensions, and otherwise the first character that differs decides |
| `Paging.ScanExactly` | internal/db/db.go:490-508 | A scan yields exactly the keys beyond the cursor, in dictionary order ascending and in its reverse descending |
| `Paging.PageIsPrefix` | internal/db/db.go:484-527 | A page is the first n keys strictly beyond the cursor in scan order, n being 50 for a limit that is not positive; next is its last key exactly when keys remain |
| `Paging.NextMovesOn` | internal/httpx/db_handlers.go:580-583 | A non-empty next differs from the cursor and strictly shrinks the set of keys beyond it, so the guard `cursor == next` never fires |
| `Paging.TraversalComplete` | internal/db/db.go:484-527 | For every page size, following next yields every key once in key order, if and only if it is not one-row ascending paging of a table with the empty key and others; descending yields the reverse, always |
| `Paging.CopyPage` | internal/httpx/db_handlers.go:574-579 | The inner loop appends the masked rows of the page in order until page or limit is exhausted, leaving no gap |
| `Paging.Export` | internal/httpx/db_handlers.go:555-584 | Whatever the table is at each page: exported keys strictly increase, no page skips a key its snapshot held, each row is its snapshot's row masked with that page's schema, at most limit rows, and fewer only when the last snapshot holds nothing more; which rows, and whether it fails, depends on the key sets alone |
| `Paging.StableKeysAreExported` | internal/httpx/db_handlers.go:558-584 | After an export that ran out of rows, every key that all snapshots held is in the output |
| `Paging.ExportPageSize` | internal/httpx/db_handlers.go:558-559 | Each page of an export is the first 200 keys of the scan, or all of them |
| `Paging.FirstKeysAre` | internal/httpx/db_handlers.go:555-584 | The first keys of a table are as many as asked for or there are, in dictionary order, and before every other key |
| `Paging.FixedTableExport` | internal/httpx/db_handlers.go:555-584 | On an unchanging table and schema the export is exactly the first limit rows in key order, masked |
| `ExportMasking.ExportHidesMaskedColumns` | internal/httpx/db_handlers.go:540-584 | For every reading role below maintainer, exports of two sources that change between pages as they like but differ only in columns masked by the schemas the pages fetched have the same rows; keys may differ too, as long as their order is the same |
| `ExportMasking.ExportTwice` | internal/httpx/db_handlers.go:540-584 | Running the export on two such sources gives the same rows or the same failure |
| `ExportMasking.SamePlan` | internal/httpx/db_handlers.go:555-584 | Which rows an export takes from which page depends only on the order of the keys: renaming them in order renames the plan |
| `ExportMasking.ExportIs` | internal/httpx/db_handlers.go:555-584 | The export returns the planned rows, each masked with its page's schema, or fails exactly when the plan does |
| `ExportMasking.ExportByRole` | internal/httpx/db_handlers.go:540-584 | For every role: each exported row is the stored one, except that viewers and editors find "***" in exactly the columns that the schema fetched with the page masks; admins and maintainers get every row as stored |
| `ExportMasking.ExportBlindExactly` | internal/httpx/db_handlers.go:564-579 | Against the schema declared for the table: every source that differs only in its masked columns is exported alike if and only if each page with such a column in an exported row got its schema from GetTables |
| `RowListing.ListRows` | internal/httpx/db_handlers.go:621-645 | The loop serves the rows of one page masked, with the page's cursor |
| `RowListing.ListingIs` | internal/httpx/db_handlers.go:621-645 | A listing is the first 50 rows of the scan, each as the role sees it, and the key of the 50th exactly when there are more |
| `RowListing.AlikeListings` | internal/httpx/db_handlers.go:621-645 | Two tables that differ, row by row in key order, only in masked columns are listed with the same rows to a reader below maintainer, and with cursors taken from the same position |
| `RowListing.ListingBlindExactly` | internal/httpx/db_handlers.go:621-645 | Every table that differs only in columns declared masked is listed exactly alike if and only if GetTables worked and "id" is not masked or the page is the last, or it failed and no row on the page has a masked column |
| `Rbac.RBACStore.Grant` | internal/httpx/rbac.go:19-35 | Upserts the principal's binding at its scope and keeps the store well formed |
| `Rbac.RBACStore.Revoke` | internal/httpx/rbac.go:38-54 | Removes the principal's binding, dropping an empty list, and keeps the store well formed |
| `Rbac.CompactInPlace` | internal/httpx/rbac.go:42-48 | Compacting the backing array while it is read leaves exactly the other principals' entries in order |
| `Rbac.ReplaceOrAppend` | internal/httpx/rbac.go:22-34 | The loop replaces the principal's first entry in its place, or appends exactly when there is none |
| `Rbac.WithoutSnoc` | internal/httpx/rbac.go:42-48 | Removing a principal keeps every other entry in its place |
| `Rbac.RBACStore.RoleFor` | internal/httpx/rbac.go:57-78 | The first table binding of the principal, else the first database binding, else no role |
| `Rbac.StoreRefinesMap` | internal/httpx/rbac.go:19-54 | Over any Grant/Revoke history the store answers every lookup as a plain map from (scope, principal) to binding; one binding per pair, no empty list |
| `Rbac.ResolveIsTableThenDbThenOrg` | internal/httpx/db_handlers.go:262-272 | For all inputs, role resolution in terms of that map, including blank principals, empty names and empty table roles |
| `Rbac.AllowByRole` | internal/httpx/rbac.go:81-98 | Viewers may read rows, editors also write them, maintainers also manage databases, tables and schemas, admins anything, other roles nothing |
| `Rbac.MaskRow` | internal/httpx/rbac.go:100-116 | The two loops give viewers and editors "***" in each column that some schema entry masks and the stored value in every other, and all other roles the row as stored |
| `Rbac.ServedByRole` | internal/httpx/rbac.go:100-116 | The same of the function the theorems speak of |
| `Rbac.MaskingHidesMaskedColumns` | internal/httpx/rbac.go:81-116 | For every reading role below maintainer, two rows with equal columns are served alike if and only if they agree on all unmasked columns; unmasked columns are served unchanged |
| `Changefeed.ClientReceivesPrefix` | internal/httpx/db_handlers.go:758-807 | At every moment an unpaused client has "init" and a prefix of the classified changes in order without loss; a paused one gets no row event and the backlog is the first min(n, 512) events; the producer blocks exactly when 256 events wait |
| `Changefeed.ClassifyExactly` | internal/db/db.go:612-621 | Only a new row is an insert, both an update, only an old row a delete, neither an event without a type |
| `Changefeed.HandleChangefeed` | internal/httpx/db_handlers.go:758-807 | For every script of inputs and write failures: it returns on the first input that ends it and no other; unpaused it wrote "init" and all events consumed except one whose write failed; paused it kept the first 512 events and wrote only counts of a non-empty backlog |
| `Changefeed.EndsExactly` | internal/httpx/db_handlers.go:758-807 | The handler ends with the client, with the feed, on a failed write of an event, and on a failed heartbeat unless it was the status of a backlog |
| `Changefeed.TurnIsStep` | internal/httpx/db_handlers.go:758-807 | A turn of the handler, as the loop computes it, is the machine's step for what its select saw |
| `Changefeed.MirrorStep` | ui/src/components/DataGrid.tsx:96-118 | Applying one classified change to a view that mirrors the table gives a view that mirrors the changed table |
| `Changefeed.GridKeepsOrder` | ui/src/components/DataGrid.tsx:96-118 | A new row is put first, an updated one stays in its place, a deleted one is cut out, and the others keep their order |
| `Changefeed.IgnoredEvents` | ui/src/components/DataGrid.tsx:76-102 | Events that are not about rows, or whose key is missing, empty, zero or null, change nothing |
| `Changefeed.ViewMirrorsTable` | internal/db/db.go:599-630 | Folding applyChange over the classified history of a table from an empty view gives each row once and nothing else |
| `Changefeed.FindsKey` | ui/src/components/DataGrid.tsx:120-125 | In a mirroring view the inferred key is "id" and findIndex finds exactly the table's keys |
| `Changefeed.ReplayOverlays` | ui/src/components/DataGrid.tsx:96-118 | Whatever the grid shows when a connection starts, folding applyChange over the connection's history shows its table overlaid with every earlier row that was neither updated nor deleted since |
| `Changefeed.GridShowsTable` | ui/src/components/DataGrid.tsx:96-125 | End to end on any connection, first or reconnected, at every moment of every run: the grid shows that overlay for the changes delivered so far, and exactly their table if and only if every earlier row is in it unchanged or has been updated or deleted since |
| `Changefeed.FreshGridShowsTable` | ui/src/components/DataGrid.tsx:96-125 | On the first connection the grid shows exactly the table after the changes delivered so far |
| `Changefeed.MissedDeleteStays` | ui/src/components/DataGrid.tsx:96-118 | A row deleted between two connections stays on show |
| `Reconcile.DeploymentIs` | internal/operator/workspace_controller.go:54-219 | One replica of one container "workspace" with the image as given, the ports asked for or 8080, probed on the first of them, with the commands for alpine and code-server images, labelled with the workspace |
| `Reconcile.SecurityIs` | internal/operator/workspace_controller.go:120-190 | The pod runs as 101 for nginx images and as 1000 otherwise, and only code-server may escalate |
| `Reconcile.EnvironmentIs` | internal/operator/workspace_controller.go:63-83 | The given variables with a name in their order, then PORT 8080 exactly when no PORT is given, and for code-server PASSWORD exactly when none is given |
| `Reconcile.ImageKinds` | internal/operator/workspace_controller.go:78-113 | An image is of a kind when it mentions the word anywhere, in any case |
| `Reconcile.ServiceIs` | internal/operator/workspace_controller.go:465-481 | The service is a load balancer if and only if that is asked for, or nothing is said and it is the default; it is owned by the workspace and publishes addresses that are not ready |
| `Reconcile.SelectsOwnPodsOnly` | internal/operator/workspace_controller.go:213-219 | Service and deployment of a workspace select the pods of a deployment if and only if it is the same workspace's |
| `Reconcile.VerificationDemands` | internal/operator/workspace_controller.go:320-379 | The verification is passed exactly by init containers, the pod's identity for the kind of image, and a first container "workspace" with the checked image and security context |
| `Reconcile.BuildEnv` | internal/operator/workspace_controller.go:63-83 | Non-blank variables in order, then the PORT and PASSWORD defaults exactly when missing |
| `Reconcile.BuildDesired` | internal/operator/workspace_controller.go:54-224 | The applied spec has the unedited container; the image to be checked is the edited one |
| `Reconcile.Verify` | internal/operator/workspace_controller.go:311-383 | A fix is requested exactly when the live spec fails one of the checks |
| `Reconcile.DesiredPassesUnlessNginx` | internal/operator/workspace_controller.go:172-211 | The applied spec passes the verification if and only if the image is not nginx |
| `Reconcile.Cluster.EnsureDeployment` | internal/operator/workspace_controller.go:242-261 | On success only the spec of an existing deployment changes, to the desired one, or a new one is created; on failure nothing changes |
| `Reconcile.Cluster.AdoptDeployment` | internal/operator/workspace_controller.go:275-288 | Adopting the deployment changes nothing but a missing owner |
| `Reconcile.Cluster.Reapply` | internal/operator/workspace_controller.go:389-399 | A re-apply sets the desired spec or fails without effect |
| `Reconcile.Cluster.VerifyLoop` | internal/operator/workspace_controller.go:311-402 | It ends in an error exactly when a call in it failed and no attempt passed, so five failing reads end it in an error; without failures a deployment with the desired spec is re-applied five times for nginx and never otherwise |
| `Reconcile.Cluster.Recreate` | internal/operator/workspace_controller.go:408-444 | One Delete; the deployment is the old one, gone, or new with the desired spec; without failures it is new, or gone if this run had created it, since an object with a resource version is refused; such a deployment is gone afterwards if and only if the Delete works |
| `Reconcile.Cluster.EnsureService` | internal/operator/workspace_controller.go:459-487 | On success the service is the desired one at its old address; without failures it succeeds exactly when no other controller owns it |
| `Reconcile.Cluster.UpdateStatus` | internal/operator/workspace_controller.go:489-513 | Writes readiness, phase, DNS name, address (the old one if there is none) and a proxy target at the service's name and first port; the spec stays |
| `Reconcile.Cluster.ReconcileDeployment` | internal/operator/workspace_controller.go:242-444 | Without failures the spec is the desired one and nothing is deleted; in all runs it is the old one, the desired one or gone, and a Delete needs a failed call in the verification loop. From no deployment, five working calls and five failing ones lead to the Delete, and to no deployment if and only if the Delete works |
| `Reconcile.Cluster.Reconcile` | internal/operator/workspace_controller.go:39-518 | From any store state one run without failing calls converges; in all runs the deployment spec is the old, the desired one or gone, the service the old or the desired one, the workspace spec untouched, Delete only after a failed call in the verification loop, and without Delete a deployment's owner, once set, never changes. A run that creates the deployment, fails to read it five times and then meets no failure reports success and leaves none |
| `Reconcile.Cluster.ReconcileTwice` | internal/operator/workspace_controller.go:39-518 | A second undisturbed Reconcile changes neither the deployment spec nor the service |
| `Reconcile.ConvergedRoutesTraffic` | internal/operator/workspace_controller.go:213-482 | In the converged state the service selects the deployment's pods, its ports are the container's one to one, and the proxy port is the first and the probed one |
| `Reconnect.BackoffBounds` | ui/src/lib/ws.ts:126-127 | Delays lie in [400, 36000] ms and their base never shrinks with more retries |
| `Reconnect.OneConnectionAtATime` | ui/src/lib/ws.ts:60-163 | In every run at most one of live source and pending timer exists, closed is exactly neither, retries stay within the maximum |
| `Reconnect.BackoffExactly` | ui/src/lib/ws.ts:126-127 | 500 ms doubled at every retry and capped at 30 s, scaled by a factor that grows evenly from 0.8 to 1.2 |
| `Reconnect.SuccessForgives` | ui/src/lib/ws.ts:73-79 | In every run an open manager has no retries on its account |
| `Reconnect.FullBudgetFromOpen` | ui/src/lib/ws.ts:73-131 | From every reachable open state, with no further success and nobody opening or closing, the manager closes exactly at failure maxRetries + 1, whatever failed before |
| `Reconnect.ClosesAfterMaxRetries` | ui/src/lib/ws.ts:116-131 | Without a success and without the user opening again there are at most maxRetries + 1 failures, and after that many the manager is closed with nothing live or scheduled |
| `Reconnect.GivesUpFrom` | ui/src/lib/ws.ts:116-131 | From any coherent state: retries count the failures while not closed, and the manager ends up closed if and only if it was, the user closes it, or the failures reach maxRetries - retries + 1 |
| `Reconnect.LateProbeExactly` | ui/src/lib/ws.ts:95-113 | After every run a probe can end a connection that is not its own if and only if one is live, the probe's source is another one that reported an error, and that probe has not come back yet |
| `Reconnect.LateProbeEndsHealthyConnection` | ui/src/lib/ws.ts:95-131 | A run without the user's doing in which the probe of the first source ends the open second one |
| `Reconnect.WSManager.Cleanup` | ui/src/lib/ws.ts:152-163 | Clears timer and source and nothing else |
| `Reconnect.WSManager.Fail` | ui/src/lib/ws.ts:116-131 | Cleans up, then stays closed, gives up exactly when the retries are used up, or schedules one retry after the back-off for the retries so far |
| `Reconnect.WSManager.OpenStream` | ui/src/lib/ws.ts:60-72 | Replaces whatever there was by one new source that has not been probed for, keeping the retries, or fails |
| `Reconnect.WSManager.Close` | ui/src/lib/ws.ts:143-150 | Closed with nothing left and the retries as they were; the second close of the source has nothing to do |
| `Reconnect.WSManager.OnTimer` | ui/src/lib/ws.ts:129 | The timer's callback is the machine's event |
| `Reconnect.WSManager.OnOpen` | ui/src/lib/ws.ts:73-95 | The first open or message sets the retries to zero, later ones change nothing |
| `Reconnect.WSManager.OnError` | ui/src/lib/ws.ts:95-113 | The first error of a connection starts a probe, later ones fail at once |
| `Reconnect.WSManager.OnProbeEnd` | ui/src/lib/ws.ts:102-112 | A probe's continuation fails whatever connection is there by then |
| `Capabilities.FieldsRead` | internal/permission/permission.go:66-87 | Which fields of an object are read, by name, and that a field of another shape counts as absent |
| `Capabilities.OneCapability` | internal/permission/permission.go:96-113 | A single capability permits exactly its action on exactly the workspaces with its label; no capability permits everything; one that names no action permits nothing |
| `Capabilities.ParseSpec` | internal/permission/permission.go:66-87 | The entry has exactly the string actions and the string match labels of the object |
| `Capabilities.Parse` | internal/permission/permission.go:60-88 | One faithful entry per object with a spec, in order |
| `Capabilities.DecideIsPermits` | internal/permission/permission.go:96-113 | Deciding on the parsed entries is deciding on the objects themselves, allow-all when none has a spec |
| `Capabilities.Cache.Sync` | internal/permission/permission.go:49-92 | Replaces the entries exactly when the last listing is syncEvery old or missing and this one succeeds |
| `Capabilities.Cache.Allow` | internal/permission/permission.go:96-113 | The answer is what the most recent successful listing, this call's included, permits |
| `Capabilities.CacheIsFresh` | internal/permission/permission.go:49-92 | After any history of asks, edits and failed listings the remembered listing is the most recent successful one, and when this call's listing works it is younger than syncEvery or taken now; listings that are kept lie at least syncEvery apart |
| `Strings.TrimExactly` | internal/db/db.go:238-240 | Trimming cuts white space off the two ends, and all of it |
| `Strings.SpacesAre` | internal/db/db.go:238-240 | White space, character by character |
| `Strings.LowerCases` | internal/db/db.go:238-240 | A capital becomes the small letter at its place of the alphabet, and nothing else changes |
| `Naming.NamesSpelled` | internal/db/db.go:238-260 | The physical name of safe parts is spelled out, with "default" for a blank one |
| `Naming.CaseAndSpaceIgnored` | internal/db/db.go:238-246 | Case and outer white space make no difference to a name |
| `Naming.Sanitize` | internal/db/db.go:248-258 | The loop keeps small letters, digits, dashes and underscores in their places and turns every other character into an underscore |
| `Naming.ListDatabases` | internal/db/db.go:660-666 | The loop reports the remainder of each name with the organisation's prefix, in order |
| `Naming.ListedInOrder` | internal/db/db.go:660-666 | The listing goes through the names one by one in their order, each giving its id or nothing |
| `Naming.Find` | internal/db/db.go:726-732 | The search succeeds exactly when the physical name is listed |
| `Naming.ListedExactlyWhenSafe` | internal/db/db.go:660-664 | A database created through dbName is listed if and only if the organisation, trimmed and lower-cased, is non-empty and already safe |
| `Naming.ListsExactly` | internal/db/db.go:660-666 | For every organisation, exactly which databases its listing shows, in terms of the organisation and database parts of their names; among plain organisations (no double and no trailing underscore) its own only |
| `Naming.UnderscoreConfuses` | internal/db/db.go:660-664 | Two organisations, one of which lists the other's database |
| `Naming.NamesAreInjective` | internal/db/db.go:238-260 | Among plain organisations two names coincide if and only if organisation and database coincide after sanitising |
| `Naming.OthersClash` | internal/db/db.go:238-260 | Every organisation that is not plain and does not start with the separator shares each of its names with a plain one |
| `Naming.ClashesExactly` | internal/db/db.go:238-260 | For every organisation and database, the physical name is shared with another organisation if and only if it holds a further separator with something before and after it |
| `Naming.ListedMeansPresent` | internal/db/db.go:660-666 | An id is listed if and only if prefix and id together are a physical name |
| `Naming.ListedIdLeadsBack` | internal/db/db.go:714-732 | A listed id leads back through dbName to the name it came from if and only if it is non-empty and safe |
| `Naming.ListedIsFound` | internal/db/db.go:714-732 | Every database created through dbName is listed under an id that GetDatabase finds |
| `Strings.IndexExactly` | internal/proxy/reverse_proxy.go:326-336 | A match is found if and only if there is one, and it is the first |
| `Strings.PrefixExactly` | internal/proxy/reverse_proxy.go:48-49 | A prefix is what something can be appended to |
| `ProxyPaths.BasePrefixByForm` | internal/proxy/reverse_proxy.go:321-342 | The base comes from the server form where a path has one, else from the legacy form |
| `ProxyPaths.UnderExactly` | internal/proxy/reverse_proxy.go:325-340 | Below the first occurrence of its marker a base ends with the next segment, and there is none if that is empty |
| `ProxyPaths.BasePrefixFacts` | internal/proxy/reverse_proxy.go:321-342 | For all paths the base prefix is a prefix of the path and its own base prefix |
| `ProxyPaths.ServerBase` | internal/proxy/reverse_proxy.go:326-332 | For a server-form path with an id, the base is marker plus id, and base plus rest is the path |
| `ProxyPaths.ParseServerForm` | internal/proxy/reverse_proxy.go:48-74 | A path built from an id and a rest parses back to that id and that rest |
| `ProxyPaths.ParseLegacyForm` | internal/proxy/reverse_proxy.go:75-92 | Likewise for the legacy form, unless the target is the word "server" |
| `ProxyPaths.ParseRequest` | internal/proxy/reverse_proxy.go:48-92 | The statements compute the parse the theorems are about when a resolver is configured, and the legacy parse of every path otherwise |
| `ProxyPaths.RewrittenByKind` | internal/proxy/reverse_proxy.go:347-366 | For every base, each kind of Location is put after the base without its trailing slashes |
| `ProxyPaths.TrimsSlashes` | internal/proxy/reverse_proxy.go:354-365 | Exactly the trailing slashes are cut off |
| `ProxyPaths.RedirectComesBack` | internal/proxy/reverse_proxy.go:347-366 | For every non-empty Location, absolute, rooted, relative or without a path, the redirect rewritten onto the base of its request is a request for the same target and exactly the upstream path, if and only if the stated condition on request path and Location holds |

## Left out

- Job records: Created and Updated times, logs kept in the store, and List; handlers are taken not to change a record's ID.
- JobRecords.WriteBehind: says after a failed save only that the store holds an earlier record, because the code ignores the failure; the next save that goes through brings the store level again.
- JobRecords.StatusLifecycle: leaves out handlers that assign Status themselves, because the code lets them set any value.
- JobRecords.Runner.RunOne: an uninterrupted run; Cancel between its steps is in the machine.
- Workers.Runner.Submit: an uninterrupted call with the send either done or blocked; interleavings are in Dispatch. Go's memory-model questions, such as the unlocked ensureQueue of a worker, are not modelled: map operations are atomic.
- RdbInstance.Instance.EnsureRDB: an uninterrupted call; interleavings are in RdbLifecycle. The nil-instance guard and the delays between dials are not modelled.
- RdbInstance.Instance.MonitorTurn: an uninterrupted turn; a cancellation in the middle of one is in RdbLifecycle.
- RdbLifecycle.ConnectionsConserved: says nothing about connections after Close begins, because Close reads the connection without the lock and races with a swap.
- Registry.ClusterRegistry.Create: the tailnet connector, port forwarding and dynamic client of an instance.
- LogFanout.ListedChannelsAreOpen: assumes that each cancel function is called once; a second call would close a closed channel.
- Published listeners: addresses, ports and proxied connections; a nil database is a store whose operations fail.
- Paging.PageIsPrefix: string primary keys only; the unordered scan without a primary key and stringer keys are not modelled.
- Rows are compared as maps of values; only strings are told apart, since masking writes a string. CSV and JSON encoding are not modelled. Masking is that of row listings and exports; changefeed events carry rows as stored.
- Changefeed.HandleChangefeed: the write of "init" is taken to succeed (its failure is ignored by the code) and the feed's closing "error" event is not modelled.
- Changefeed.ViewMirrorsTable: histories of a table keyed by a non-empty string "id", as the server's own queries use it; pages merged by fetchPage, which appends without removing duplicates, are not modelled. A reconnect is a new history that starts with the table's rows as inserts.
- Reconcile.Cluster.Reconcile: nobody else writes during one Reconcile (any edits before it are covered), the API server stores specs as given and deletes at once, and RetryOnConflict is its final attempt; field contents this controller sets to constants are one constant.
- Reconnect: listeners are taken not to call back into the manager; the heartbeat stubs, URLs and message contents are not modelled.
- Capabilities.Cache.Allow: a listing is atomic and taken at one time per call; label values are taken to be valid for a selector.
- Naming: lower-casing covers ASCII letters, here and in Reconcile; the _info metadata is not modelled.
- ProxyPaths.RedirectComesBack: decoded paths without a query and a configured server resolver; unescaping is an arbitrary function, and the query form `?to=&path=` and a prefix header set by an outer router are not modelled.
- HTTP routing, JSON, TLS, middleware and SSE framing; Kubernetes, tsnet, RethinkDB and SQLite internals: libraries behind the maps and oracles of these models.
- Cookie rewriting, port-forward manager, health and status decisions, settings, allowlist, metrics, DNS names, ring buffer and SDK retries: would only add easy members.
- User-interface rendering, command-line tools, installers and examples: presentation and process launching.
