# fertilesoil: a verified model of the directory store, its events and its mirror

fertilesoil keeps a forest of tenant directories, soft-deletes subtrees, publishes an event for every
change, and lets an application mirror one subtree from those events. This project models three connected
parts of it and proves how they fit together.

* **The directory store, twice.** `MemoryDriver` is the in-memory driver: a map of records that callers
  share and that is updated in place, a list of descendants that grows while it is scanned, and walks up
  the parent pointers. `CrdbDriver` is the CockroachDB driver: a table and recursive queries, evaluated as
  the working-table loop in `RecursiveQuery`. Both are proved against one definition of "below"
  (`Directories.Under`), which decides where they agree; see "Where the two drivers differ" below.
* **Write, notify, mirror.** `StoreNotifier` and `TreeManager` are the publishing wrapper and the write
  handlers; `ServerRuns` is the state machine whose steps those handlers are proved to take; `Interleaving`
  splits the handlers at each store call and notification, `SplitHandlers` proves that the pieces take its steps,
  and `InterleavedLog`, `Notifications` and `OpenedClosure` say what then becomes of the log, of each event and
  of live closure; `UninterruptedRequests` proves that without interruption the pieces are the atomic step.
  `Controller` is the application's controller and its `tracked_directories` table, specified by the functions
  of `Tracking`. `FirstError`, `FailingReconciles`, `ReconcileTrace`,
  `TrackedShape`, `TrackedRuns`, `Seeding`, `Mirror`, `Following`, `SideBySide`, `MirrorTicks` and `PartialMirror`
  state what the controller does over whole runs.
* **Pages.** `Storage` is the page arithmetic, `QueryCodec` the option encoding of client and server, and
  `PageLinks` the protocol of following "next" links; `RootPages` and `RootListings` are the roots, page by page and
  while the server goes on.

`dafny verify dfyconfig.toml` checks everything.

## Main results

| question | answer |
|---|---|
| Do the two drivers agree? | on the directories they find, in every reachable state (`ReachableReads.DriversAgree`); on every page of a children list exactly when every deeper descendant is younger than every shallower one (`LevelOrder.AllPagesAgree`) |
| Does the worklist find everything once? | `Worklist.ExpandChildren`, and the query likewise in `RecursiveQuery.QueryResultIsClosure` |
| Does the event log determine the store? | with atomic handlers always (`ServerRuns.LogDeterminesStore`); with interleaved ones exactly when no update is written into a row deleted since it was fetched and, for each directory, the last event written is also the last one published (`InterleavedLog.LogUnderInterleaving`) |
| Does deleting leave live orphans? | never with the atomic CockroachDB handlers (`ServerRuns.ReachableIsLiveClosed`); in memory exactly above ten descendants (`DriverDeletes.MemoryDeleteKeepsClosure`); with interleaved handlers a run loses live closure exactly when a delete takes a parent between a create's lookup and its insert (`OpenedClosure.ClosureLostByDelete`) |
| Does the tracked table mirror the subtree? | from a complete seeding yes, until the first update event inside it, create event of a directory that a full reconcile has listed already, full reconcile one of whose requests finds its directory deleted, or failing reconcile call (`MirrorTicks.MirrorWithTicks`) |
| And from an incomplete one? | the part that is not at or below an unseeded directory (`PartialMirror.TruncatedRun`); in general `SideBySide.FollowSideBySide` |
| Is any event lost or published twice? | each one is published once, still waiting, or dropped with a handler whose notification failed (`Notifications.EventsConserved`) |
| What can the controller come to track? | only the subtree, parents included, whatever is lost, repeated or reordered (`TrackedRuns.TrackedSetOfRun`) |
| Is the initial reconcile complete? | exactly up to ten live descendants (`Seeding.SeedingIsComplete`) |
| Does following "next" links list everything? | `PageLinks.ClientListsEverything`; for the roots even while the server goes on serving requests (`RootListings.RootsListedDuringRun`) |

## Assumptions

* Ids are fresh and creation times strictly increase (`Lifecycle.Newer`); where handlers interleave, each write has
  a time of its own (`Interleaving.ClockPassed`). Ids and times are natural
  numbers; time 0 is Go's zero time.
* A recursive query returns its rows in the order in which the loop appends them, so row 0 is the start
  row, as the Go code expects. The rows that the delete query returns come in an arbitrary order.
* `sort.Slice` with a sound comparator sorts. The comparator of the in-memory parent lists indexes a
  second, unsorted slice, so there the sort is a sequence of swaps that depends only on the creation times
  (`MemoryDriver.Driver.parentSwaps`) and is otherwise unknown; no order is claimed for those lists.
* A notification is delivered or fails as a whole (`delivered`). What the controller cannot decide, the
  database's `NOW()` and whether a `Reconcile` call succeeds, is an arbitrary `Tracking.Environment`.
* The wrappers of the notifying store are retriers, as the server builds it
  (`internal/httpsrv/treemanager/treemanager.go:36`), and the broker never stores an event without acknowledging
  it. By `NotifyWrappers.NotificationIsWhole` this is exactly when notifications are delivered or fail as a whole;
  without it a retried event is published more than once (`NotifyWrappers.RetryDelivers`).
* A deletion time is a whole Go time value, location included, which the program compares by equality alone.
* A nil slice and an empty slice are the same list; a nil metadata pointer and empty metadata are the same
  value.

## Where the two drivers differ

| case | memory | CockroachDB | stated by |
|---|---|---|---|
| pages of a children list | oldest first | level by level | `LevelOrder.AllPagesAgree`, with a witness in `LevelOrder.UnevenPagesDiffer` |
| order of parents | unknown, from an unsound comparator | nearest first | `MemoryDriver.Driver.GetParents`, `CrdbDriver.Driver.GetParents` |
| children of a hidden or unknown start | a list without an error, empty under live closure | not found | `LevelOrder.HiddenStartListsNothing`, and both `GetChildren` |
| a hidden ancestor | the walk fails | the chain ends below it | `DriverAgreement.ParentsAgree` |
| parents until a directory that is no ancestor | not found | the whole chain | `DriverAgreement.ParentsUntilOfNonAncestor` |
| parents until the directory itself | not found, or a nil dereference for a root | empty | `LevelOrder.ParentsUntilSelf`, and both `GetParentsUntilAncestor` |
| creating below an unknown parent | stored, and no forest any more | rejected by the foreign key | `Lifecycle.InsertNeedsParent`, and both `CreateDirectory` |
| creating from a record that is stored already | the record is in the map under both ids | a second row | `MemoryDriver.Driver.CreateRoot`, `CrdbDriver.Driver.CreateRoot` |
| updating | the whole record is stored, known or not | name and metadata of a known row | both `UpdateDirectory` |
| deleting more than ten descendants | the ten oldest | all | `DriverDeletes.DeletesAgree` |
| read-only mode | none | refuses every write but a delete | `CrdbDriver.Driver.DeleteDirectory` and the other writes |

## Where the code and its description differ

* Read-only mode is described as allowing reads only (`docs/server.md:17`), but
  `storage/crdb/driver/driver.go:159-202` deletes without looking at `readOnly`. The model follows the code:
  a read-only driver's table changes exactly when a live directory that is no root is deleted
  (`CrdbDriver.Driver.DeleteDirectory`, `Lifecycle.DeleteChangesNothing`), for instance the child in
  `DriverDeletes.DeleteChangesSmallestStore`, and by no other call.
* The initial reconcile is meant to cover all subdirectories (`app/v1/fullsubtree_reconciler.go:36`), but
  the code reads one page. `Seeding.SeedingIsComplete` gives the exact condition.
* The in-memory delete is meant to take all children, but reads one page (`storage/memory/memory.go:176`).
  `DriverDeletes.DeletesAgree` gives the exact condition and `DriverDeletes.ElevenDescendantsBreakClosure`
  the smallest counterexample.
* In memory, parents-until from a root to itself reads a nil pointer (`storage/memory/memory.go:311-315`);
  the model returns the error `NilDereference` there instead of excluding the call.
* A store built with `StorageWithNotifier` and no option has no wrapper, so its first write is stored and
  then calls a nil function (`storage/notifier/notifier.go:67`). The model returns `NilWrapper` there; the
  server always adds the retrier.
* The update handler handles only not-found (`internal/httpsrv/treemanager/treemanager.go:264-270`); any other
  lookup error leaves a nil directory, which `TreeManager.Server.UpdateDirectory` reports as `PANICKED`.

## Model

| member | source | states |
|---|---|---|
| Storage.BuildOptions | storage/options.go:61-70 | the option loop: the deleted flag is set by any occurrence, the last pagination wins, none means page and size 0 |
| Storage.BuiltMeaning | storage/options.go:48-70 | the same for the fold that the loop computes, for every option list |
| Storage.PageOfMeaning | storage/memory/memory.go:398-419 | position i of page p is position (p-1)*size+i of the list; a page is short exactly when the next page would start past the end; a page below 1 stands for page 1, a size below 1 for ten rows |
| CrdbDriver.AfterHead | storage/crdb/driver/driver.go:438-450 | slicing that skips the start row, with its own offset guard, returns the same page as slicing the rows after it |
| QueryCodec.AtoiItoa | internal/httpsrv/treemanager/treemanager.go:521-539 | printing and parsing a decimal number are inverse |
| QueryCodec.AtoiMeaning | internal/httpsrv/treemanager/treemanager.go:521-539 | exactly decimal digits with or without one sign parse, to the number whose digits are weighted by their places, a minus sign negating it |
| QueryCodec.OptionsRoundTrip | client/v1/impl.go:371-397 | for every option list and every query the URL already has: the server decodes the same flag, effective page and effective size if and only if that query holds nothing but defaults for what the options leave open; an unpaged query always does |
| QueryCodec.RequestURL.AddStorageOptions | client/v1/impl.go:371-397 | sets exactly the keys the options call for, keeps all others, and states when the result decodes to the same effect |
| QueryCodec.NextRoundTrip | internal/httpsrv/treemanager/treemanager.go:551-568 | the values of a "next" link decode to the same flag and size with the page plus one |
| QueryCodec.DecodeFails | internal/httpsrv/treemanager/treemanager.go:503-546 | a query is rejected if and only if it has a flag that is none of the twelve spellings of true and false, or a page or limit that is no decimal number |
| QueryCodec.FlagDecoded | internal/httpsrv/treemanager/treemanager.go:506-513 | for every query: each of the six spellings of false is read like an absent flag, each of the six of true as the same options with the flag set, and an absent flag is not set |
| QueryCodec.NumberDecoded | internal/httpsrv/treemanager/treemanager.go:521-543 | for every query: a page or limit that is zero or negative is read like an absent one, a positive one as the same options with that number |
| PageLinks.PageIsSlice | storage/memory/memory.go:398-419 | each page is the next slice of what is left of the list, and a full page leaves that much less for the next |
| PageLinks.ResponseLocatesRows | internal/httpsrv/treemanager/treemanager.go:570-587 | the page number and size of a response locate its rows in the whole list, and it links on exactly when the list reaches the next page's start |
| PageLinks.ServerCodecFaithful | internal/httpsrv/treemanager/treemanager.go:551-587 | the server reads each of its own "next" links as the page after the one that carried it |
| PageLinks.SessionDrains | internal/httpsrv/treemanager/treemanager.go:570-587 | from any page, while the listing may grow at its end between requests, following the links yields the rest of the final list in order, in left/size+1 requests |
| PageLinks.SessionExists | internal/httpsrv/treemanager/treemanager.go:570-587 | on a listing that stays as it is, following the links comes to an end |
| PageLinks.SessionCollectsAll | internal/httpsrv/treemanager/treemanager.go:570-587 | from page 1 the concatenated pages are the whole list as the last request finds it, after floor(n/s)+1 requests, also when s divides n |
| PageLinks.ClientListsEverything | client/v1/impl.go:371-397 | end to end: a client that encodes its options and follows the server's links receives the whole of any listing, in that many requests |
| RootListings.RequestGrowsRoots | storage/crdb/driver/driver.go:78-83 | a request for a new root adds its id at the end of the listing; every other request leaves the listing equal |
| RootListings.RootsListedDuringRun | internal/httpsrv/treemanager/treemanager.go:570-587 | a client that lists the roots while the server serves any requests in between receives exactly the rows without a parent at its last request, each once, oldest first |
| RootPages.RootListMeaning | storage/crdb/driver/driver.go:78-83 | for every store: the listing holds exactly the rows without a parent, not deleted unless asked for, in strictly increasing creation time |
| RootPages.RootPageMeaning | storage/memory/memory.go:78-125 | for every store and page: a page holds exactly those of them with so many older ones as there are rows before the page, up to the next page's start, oldest first |
| Directories.UnderIffPath | storage/memory/memory.go:375-380 | being below a directory, defined upwards, is reachability over child edges through visible rows |
| Directories.UnderIsYounger | storage/crdb/migrations/20230101000000_init.sql:7-14 | whatever lies below a directory is younger: walks are acyclic and terminate |
| Directories.LiveClosureIffAncestorsLive | storage/crdb/driver/driver.go:157-202 | "the parent of a live directory is live" is equivalent to "all ancestors of a live directory are live" |
| Directories.ChainSplits | storage/crdb/driver/driver.go:236-382 | if a is among the parents of c, then the parents of c are the parents of c until a, the last of which is a, followed by the parents of a, in order |
| RecursiveQuery.Evaluate | storage/crdb/driver/driver.go:402-417 | the working-table loop terminates and returns the batch-by-batch result, for all three queries |
| RecursiveQuery.OrderByCreation | storage/crdb/driver/driver.go:263-268 | the ordering of one batch: the members of the set, oldest first |
| RecursiveQuery.QueryResultIsClosure | storage/crdb/driver/driver.go:256-271 | the rows are the least set that holds the start and is closed under the join, without duplicates, the start row first |
| RecursiveQuery.ChildrenResult | storage/crdb/driver/driver.go:402-417 | the children query returns its start row and exactly the visible descendants |
| RecursiveQuery.ChildrenRowsParentsFirst | storage/crdb/driver/driver.go:409-414 | its rows list every directory after its parent |
| RecursiveQuery.ParentsRows | storage/crdb/driver/driver.go:256-271 | the parents query returns the visible ancestors, nearest first, up to the first hidden one |
| RecursiveQuery.ParentsUntilRows | storage/crdb/driver/driver.go:332-347 | the parents-until query returns the same walk stopped at the ancestor |
| CreationSort.SortContract | storage/memory/memory.go:402-405 | sorting by creation time gives a sorted permutation |
| CreationSort.ApplySwapsPermutes | storage/memory/memory.go:265-268 | whatever swaps the unsound comparator of the parent lists causes, no element is lost or repeated |
| CreationSort.SortListsByCreation | storage/memory/memory.go:402-417 | sorting any listing of a set of rows gives the one oldest-first listing of that set |
| Worklist.IndexStep | storage/memory/memory.go:349-369 | grouping one more row keeps the index of visible rows by parent exact |
| Worklist.WorklistStep | storage/memory/memory.go:377-380 | expanding one more list element keeps: no duplicates, only visible descendants, and all children of what has been expanded are listed |
| Worklist.WorklistEnd | storage/memory/memory.go:375-382 | when the scan catches up with the list, the list is exactly the visible descendants |
| Worklist.WorklistBounded | storage/memory/memory.go:377-380 | the growing list never exceeds the number of stored rows, so the scan terminates |
| Worklist.ExpandChildren | storage/memory/memory.go:375-382 | the loop that appends to the list it scans returns every visible descendant exactly once |
| ParentWalk.PairedStep | storage/memory/memory.go:248-258 | a step up keeps `parents[k].Id == parentIDs[k]` with only the newest id unfetched, and moves to an older row |
| ParentWalk.ClimbEnds | storage/memory/memory.go:242-259 | reaching a root means all ancestors were walked, in order, and all were visible |
| ParentWalk.ClimbFails | storage/memory/memory.go:243-246 | meeting a hidden or missing row means the start or one of its ancestors is hidden |
| ParentWalk.ClimbUntilStep | storage/memory/memory.go:315-321 | a step towards the ancestor keeps the path walked so far, and arriving there means it was a visible path |
| ParentWalk.ClimbUntilStops | storage/memory/memory.go:300-313 | stopping without arriving means the ancestor is none of `child` along a visible path; the nil parent is read only for a root walking to itself |
| MemoryDriver.Driver.LoadOrStore | storage/memory/memory.go:63-74 | names and stamps the caller's record and stores that record itself, unless something is stored under the id already; the map stays keyed by id if and only if the record was not stored under another id |
| MemoryDriver.Driver.CreateRoot | storage/memory/memory.go:54-75 | the same for a record without a parent, returning what is stored under the id; rejects a given parent and changes nothing |
| MemoryDriver.Driver.ListRoots | storage/memory/memory.go:78-125 | a page of the listing of roots: the rows without a parent, not deleted unless asked for, whose number of older ones falls on the page, oldest first |
| MemoryDriver.Driver.CreateDirectory | storage/memory/memory.go:129-150 | the same for a record with a parent, without looking for it; rejects a missing parent pointer and changes nothing |
| MemoryDriver.Driver.UpdateDirectory | storage/memory/memory.go:153-163 | stores the given record under its own id, known or not, with a new update time |
| MemoryDriver.Driver.DeleteDirectory | storage/memory/memory.go:166-202 | marks the directory and the first page of its live descendants in place and returns those records, or not-found for a hidden directory or a root |
| MemoryDriver.Driver.MarkChildren | storage/memory/memory.go:190-199 | each listed child is fetched and marked in place; the lookups cannot fail; nothing else changes |
| MemoryDriver.Driver.GetDirectory | storage/memory/memory.go:205-227 | finds exactly the visible directories, and returns the shared record |
| MemoryDriver.Driver.GetParents | storage/memory/memory.go:230-277 | succeeds exactly when the start and all its ancestors are visible, and returns a page of a permutation of all ancestors |
| MemoryDriver.Driver.WalkUp | storage/memory/memory.go:242-259 | the walk terminates and collects the ancestors and their rows, paired |
| MemoryDriver.Driver.GetParentsUntilAncestor | storage/memory/memory.go:281-340 | succeeds exactly when the ancestor is visible and the child is below it along visible rows; for `child == ancestor` states not-found or the nil dereference |
| MemoryDriver.Driver.WalkUntil | storage/memory/memory.go:300-322 | the walk terminates and collects the path up to and including the ancestor |
| MemoryDriver.Driver.AllChildren | storage/memory/memory.go:343-383 | every directory reachable through visible child edges, each exactly once |
| MemoryDriver.Driver.GetChildren | storage/memory/memory.go:386-420 | a page of the visible descendants, oldest first; no error for an unknown id |
| CrdbDriver.Driver.CreateRoot | storage/crdb/driver/driver.go:43-64 | the read-only and parent errors in that order, or the one new row; the record receives id and times |
| CrdbDriver.Driver.ListRoots | storage/crdb/driver/driver.go:67-105 | the same rows in the same order, by LIMIT and an OFFSET that page 1 omits |
| CrdbDriver.Driver.CreateDirectory | storage/crdb/driver/driver.go:108-129 | rejects read-only, a missing parent pointer and an unknown parent (foreign key), else adds the one new row, deleted parent or not |
| CrdbDriver.Driver.UpdateDirectory | storage/crdb/driver/driver.go:132-155 | changes name, metadata and update time of that row and no other column or row, deleted or not |
| CrdbDriver.Driver.DeleteDirectory | storage/crdb/driver/driver.go:159-202 | marks exactly the delete set and returns its rows, each once; not-found exactly when the set is empty; in read-only mode too the table changes exactly when the directory is live and no root |
| CrdbDriver.Driver.QueryDeletable | storage/crdb/driver/driver.go:163-172 | the recursive part finds the directory and everything below it through live rows, nothing for a root or a hidden row |
| CrdbDriver.Driver.GetDirectory | storage/crdb/driver/driver.go:206-234 | finds exactly the visible rows |
| CrdbDriver.Driver.GetParents | storage/crdb/driver/driver.go:239-305 | a page of the visible chain, or not-found for a hidden start |
| CrdbDriver.Driver.GetParentsUntilAncestor | storage/crdb/driver/driver.go:309-382 | empty without a query for equal ids, else a page of the visible chain stopped at the ancestor |
| CrdbDriver.Driver.GetChildren | storage/crdb/driver/driver.go:387-451 | a page of the visible descendants level by level, or not-found for a hidden start |
| DriverAgreement.ChildrenAgree | storage/crdb/driver/driver.go:402-417 | the deduplicated level-by-level query and the worklist list the same directories, each once |
| DriverAgreement.ChildrenPagesAgree | storage/crdb/driver/driver.go:438-450 | on a page that holds the whole list, both drivers return the same directories, in whatever order they were created |
| LevelOrder.LevelListLevelled | storage/crdb/driver/driver.go:402-417 | the query's rows are sorted by depth below the start and then by creation time |
| LevelOrder.ListsAgree | storage/crdb/driver/driver.go:402-417 | the two children lists are equal if and only if every deeper descendant is younger than every shallower one |
| LevelOrder.AllPagesAgree | storage/crdb/driver/driver.go:438-450 | the drivers return the same directories on every page of every size if and only if the same holds |
| LevelOrder.UnevenPagesDiffer | storage/memory/memory.go:402-419 | a live forest of five directories on which the first pages of size two differ |
| LevelOrder.HiddenStartListsNothing | storage/memory/memory.go:386-420 | under live closure memory lists nothing below a hidden or unknown start, where the query fails |
| LevelOrder.ParentsUntilSelf | storage/crdb/driver/driver.go:316-318 | from a directory to itself the chain is empty and the in-memory walk never succeeds |
| DriverAgreement.ParentsAgree | storage/memory/memory.go:243-246 | the in-memory walk succeeds exactly when no hidden ancestor cuts the query's chain short |
| DriverAgreement.ParentsAgreeUnderClosure | storage/crdb/driver/driver.go:256-271 | under live closure both return the same ancestors, as multisets |
| DriverAgreement.ParentsUntilAgree | storage/crdb/driver/driver.go:332-347 | for two visible directories, memory succeeds exactly when the query's answer contains the ancestor, and then both hold the same path |
| DriverAgreement.ParentsUntilAgreeUnderClosure | storage/crdb/driver/driver.go:332-347 | under live closure every proper ancestor is reached by both |
| DriverAgreement.ParentsUntilOfNonAncestor | storage/memory/memory.go:311-313 | if it is no ancestor, the query answers with the whole visible chain while memory fails |
| DriverAgreement.Duality | storage/memory/memory.go:342-383 | x is listed among the children of y exactly when y is on the chain of x |
| DriverAgreement.MemoryDuality | storage/memory/memory.go:229-277 | the same for the in-memory pages under live closure, whatever the sort does, when one page holds the whole list |
| DriverAgreement.MemoryParentsSplit | storage/memory/memory.go:229-340 | in memory the same as multisets when the whole chain is visible |
| DriverAgreement.ChildrenListsParentsFirst | storage/crdb/driver/driver.go:409-414 | every prefix of either children list holds the parent of each member, unless that is the start |
| DriverAgreement.FirstPageParentsFirst | storage/memory/memory.go:402-419 | so does every first page of either driver |
| ReachableReads.DriversAgree | storage/crdb/driver/driver.go:236-451 | children, parents and (for a proper ancestor) parents-until agree in every state a server can reach, and the in-memory walks do not fail there |
| ReachableReads.ReachableDuality | storage/memory/memory.go:229-383 | duality in every reachable state, in both drivers |
| Lifecycle.InsertKeeps | storage/crdb/driver/driver.go:121-123 | an insert keeps the forest; it keeps live closure exactly when the parent is live |
| Lifecycle.InsertNeedsParent | storage/memory/memory.go:129-150 | an insert that checks nothing keeps the forest well formed exactly when the parent is stored |
| Lifecycle.UpdateKeeps | storage/crdb/driver/driver.go:141-149 | an update keeps the forest, its parents, and live closure |
| Lifecycle.MarkKeeps | storage/crdb/driver/driver.go:173-177 | marking live rows keeps the forest, undeletes nothing, and removes exactly them from the live set |
| Lifecycle.MarkKeepsClosure | storage/crdb/driver/driver.go:163-177 | marking a set keeps live closure exactly when the set takes every live child of its members |
| Lifecycle.DeleteSetIsLiveSubtree | storage/crdb/driver/driver.go:163-172 | under live closure the query's set is the live subtree, found without regard to what lies between |
| Lifecycle.DeleteKeeps | storage/crdb/driver/driver.go:157-202 | the delete keeps the forest, live closure, and live roots |
| Lifecycle.DeleteIsExact | storage/crdb/driver/driver.go:157-202 | it takes exactly the live subtree, leaves every other row unchanged, lowers the live count by the size of the set, and a second delete finds nothing |
| Lifecycle.DeleteChangesNothing | storage/crdb/driver/driver.go:159-202 | a delete leaves the table as it is if and only if the directory is hidden or a root |
| Lifecycle.DescendantListParentsFirst | storage/memory/memory.go:402-419 | creation order lists parents first |
| Lifecycle.TruncatedDeleteKeepsClosure | storage/memory/memory.go:176-199 | a delete that takes only the n oldest live descendants keeps live closure exactly when there are at most n |
| DriverDeletes.MemoryDeleteKeepsClosure | storage/memory/memory.go:165-202 | the in-memory delete keeps live closure if and only if there are at most ten live descendants |
| DriverDeletes.DeletesAgree | storage/memory/memory.go:165-202 | the two deletes take the same set if and only if there are at most ten; otherwise memory takes fewer |
| DriverDeletes.MemoryDeleteTakesParents | storage/memory/memory.go:176-199 | even a truncated delete takes the parent of everything it takes below the directory |
| DriverDeletes.ElevenDescendantsBreakClosure | storage/memory/memory.go:165-202 | a concrete forest with eleven descendants loses live closure, the one with ten keeps it |
| DriverDeletes.DeleteChangesSmallestStore | storage/crdb/driver/driver.go:159-202 | a root with one child is a store which deleting the child changes, in read-only mode as in any other |
| StoreNotifier.NotifyingStore.CreateRoot | storage/notifier/notifier.go:119-136 | stored, then published; a failed write passes its error on and publishes nothing, a failed notification leaves the row stored, and so does the call of a nil wrapper |
| StoreNotifier.NotifyingStore.CreateDirectory | storage/notifier/notifier.go:61-78 | the same for a child |
| StoreNotifier.NotifyingStore.UpdateDirectory | storage/notifier/notifier.go:80-95 | the same for an update; the event carries the caller's record with the new update time |
| StoreNotifier.NotifyingStore.DeleteDirectory | storage/notifier/notifier.go:97-117 | marks the whole set; one event per affected row in the returned order; if a notification fails, what was published is a prefix |
| StoreNotifier.NotifyingStore.PublishDeletes | storage/notifier/notifier.go:103-114 | the loop publishes up to the first failing notification and nothing after it |
| StoreNotifier.ListedDeletions | storage/notifier/notifier.go:97-117 | the published directories are the old rows with the new deletion time, one for each affected id |
| NotifyWrappers.WrapperChain.AddWrapper | storage/notifier/notifier.go:171-182 | after adding wrappers in turn, a notification runs inside all of them, the first added outermost |
| NotifyWrappers.NestSnoc | storage/notifier/notifier.go:171-182 | wrapping innermost equals adding at the end of the list of wrappers |
| NotifyWrappers.WrapperChain.Notify | storage/notifier/notifier.go:67-76 | a notification runs inside all added wrappers; without any it is the call of a nil function |
| NotifyWrappers.NotificationIsWhole | storage/notifier/notifier.go:36-44 | inside any number of retriers: notifications succeed having published once, or fail having published nothing, if and only if the broker never stores an event without acknowledging it |
| NotifyWrappers.RetryDelivers | storage/notifier/notifier.go:36-44 | for all outcomes of the attempts: delivered if and only if one of them is acknowledged, and published as often as attempts were stored |
| TreeManager.Server.CreateRootDirectory | internal/httpsrv/treemanager/treemanager.go:137-162 | status, table and log as one atomic server step, or with the event missing when the notification fails; every column of the new row and of its event |
| TreeManager.Server.CreateDirectory | internal/httpsrv/treemanager/treemanager.go:190-244 | 400 exactly for a hidden parent and 500 for a lookup without an answer, with nothing changed; otherwise the atomic step, with every column of the new row and of its event |
| TreeManager.Server.UpdateDirectory | internal/httpsrv/treemanager/treemanager.go:246-293 | 404 exactly for a hidden directory; otherwise the atomic step: row and event have the requested name if given and not empty, the requested metadata if given, a new update time, and the stored values for all else. States when a lookup without an answer makes the handler read a nil directory |
| MemoryServer.Server.UpdateDirectory | internal/httpsrv/treemanager/treemanager.go:246-293 | over the in-memory driver the handler edits the stored record before writing it back; row and event come out the same, column by column |
| TreeManager.Server.DeleteDirectory | internal/httpsrv/treemanager/treemanager.go:295-332 | 404 exactly when there is nothing to delete; 200 answers with the affected ids, each once; on 500 the log holds a proper prefix of the events |
| ServerRuns.StoredKeeps | internal/httpsrv/treemanager/treemanager.go:190-332 | each atomic request keeps well-formedness, live closure, live roots, parents and deletions |
| ServerRuns.PublishedFits | storage/notifier/notifier.go:61-136 | each published event is a possible next change, and together they lead from the old store to the new one |
| ServerRuns.DeleteEventsFit | storage/notifier/notifier.go:97-117 | the delete events, applied one by one in any returned order, build exactly the marked table |
| ServerRuns.FoldIsLast | storage/notifier/notifier.go:61-136 | the fold of a log holds, for each id, the directory of the last event about it |
| ServerRuns.RunKeeps | internal/httpsrv/treemanager/treemanager.go:190-332 | over every run the invariants hold and the events published since its start rebuild the store |
| ServerRuns.ReachableIsLiveClosed | storage/crdb/driver/driver.go:157-202 | in every reachable state all ancestors of a live directory are live and no root is deleted |
| ServerRuns.LogDeterminesStore | storage/notifier/notifier.go:61-136 | the last event for each id carries the stored row, ids without events are not stored, and folding the log gives the whole store |
| ServerRuns.ReachableDeleteIsExact | storage/crdb/driver/driver.go:157-202 | the exactness of the delete in every reachable state |
| Interleaving.PerformKeeps | internal/httpsrv/treemanager/treemanager.go:190-332 | any single store call or notification, in any state other handlers have left, keeps the forest, parents and deletions |
| Interleaving.ForestUnderInterleaving | internal/httpsrv/treemanager/treemanager.go:190-332 | however handlers interleave at their store calls, the table stays a forest with existing parents, parents never change, and nothing deleted becomes live again |
| Interleaving.NoCycleUnderInterleaving | storage/crdb/migrations/20230101000000_init.sql:7-14 | no interleaving makes a directory its own ancestor |
| Interleaving.UninterruptedCreate | internal/httpsrv/treemanager/treemanager.go:209-230 | lookup, insert and notification of a create, run without interruption, are the atomic server step |
| Interleaving.UninterruptedUpdate | internal/httpsrv/treemanager/treemanager.go:264-280 | the same for lookup, write and notification of an update |
| Interleaving.HiddenParentEndsCreate | internal/httpsrv/treemanager/treemanager.go:209-215 | a create below a deleted or unknown parent is the atomic step with its lookup alone: nothing changes and nothing is remembered or left to send |
| Interleaving.HiddenDirectoryEndsUpdate | internal/httpsrv/treemanager/treemanager.go:264-270 | so is an update of a deleted or unknown directory |
| UninterruptedRequests.UninterruptedRoot | internal/httpsrv/treemanager/treemanager.go:137-162 | store call and notification of a new root are the atomic step |
| UninterruptedRequests.UninterruptedDelete | internal/httpsrv/treemanager/treemanager.go:307-332 | the store call of a delete and its notifications, one per affected directory in the order returned, are the atomic step |
| UninterruptedRequests.UninterruptedRequest | internal/httpsrv/treemanager/treemanager.go:190-332 | in any consistent state and for any request, of a live, deleted or unknown directory: its pieces without interruption are the atomic step, with the same table and events and nothing left to send |
| Interleaving.InsertChildKeepsClosure | internal/httpsrv/treemanager/treemanager.go:209-230 | the second half of a create keeps live closure exactly when the parent is still live |
| Interleaving.OtherStepsKeepClosure | internal/httpsrv/treemanager/treemanager.go:190-332 | every other store call keeps live closure |
| Interleaving.ClosureUnderInterleaving | internal/httpsrv/treemanager/treemanager.go:190-332 | over every interleaving from a live-closed state, live closure holds after every step if and only if every insert finds the parent that was looked up still live |
| OpenedClosure.ClosureLostByDelete | internal/httpsrv/treemanager/treemanager.go:209-230 | over every interleaving from a live-closed state with no handler between its calls: live closure holds throughout if and only if no delete takes a parent after a create has looked it up and before that create's insert |
| Notifications.EventsConserved | storage/notifier/notifier.go:61-136 | over every interleaving from a state in which each event is once published or waiting: each event ever written is in exactly one place, published, waiting, or dropped with a handler that gave up: none is published twice and none that was dropped is published |
| Notifications.SilentOnceGivenUp | storage/notifier/notifier.go:103-114 | a handler whose notification has failed sends nothing more, whatever steps follow |
| InterleavedLog.LogUnderInterleaving | storage/notifier/notifier.go:61-136 | over every interleaving of lookups, writes, notifications and failing notifications: folding what has been published gives the table if and only if no update was written into a row deleted since it was fetched and, for each directory, the last event written is the last one published |
| InterleavedLog.LogTells | storage/notifier/notifier.go:61-136 | the same at any state whose history of writes accounts for the table |
| InterleavedLog.HistoryUnderInterleaving | internal/httpsrv/treemanager/treemanager.go:246-293 | the events in the order of their writes give the table if and only if every update was written into a live row |
| InterleavedLog.PerformTells | storage/notifier/notifier.go:61-136 | one step keeps what the history tells of the table, but for an update written into a deleted row |
| InterleavedLog.PerformKeepsOrder | storage/notifier/notifier.go:61-136 | events about one directory are told apart by the time of their write |
| InterleavedLog.UpdateDeleteRace | internal/httpsrv/treemanager/treemanager.go:264-280 | from any consistent state, four interleaved steps publish a deleted directory as live, as the last event about it |
| InterleavedLog.TwoUpdatesRace | storage/notifier/notifier.go:80-95 | from any consistent state, two updates of one live directory are written in one order and published in the other: with no delete and no failure the log ends with a name the table does not have |
| Interleaving.CreateDeleteRace | internal/httpsrv/treemanager/treemanager.go:209-230 | from any consistent state, three interleaved calls leave a live directory below a deleted one |
| SplitHandlers.SplitServer.CreateRoot | internal/httpsrv/treemanager/treemanager.go:137-162 | the store call of the root handler is the interleaving step, with every column of its row and of the event left to be sent |
| SplitHandlers.SplitServer.LookUpParent | internal/httpsrv/treemanager/treemanager.go:208-221 | so is the first call of the create handler: it remembers the request exactly when the parent is stored and not deleted |
| SplitHandlers.SplitServer.CreateChild | internal/httpsrv/treemanager/treemanager.go:223-237 | so is its second call, over the CockroachDB driver, with every column of row and event |
| SplitHandlers.SplitServer.LookUpDirectory | internal/httpsrv/treemanager/treemanager.go:264-270 | so is the first call of the update handler: it remembers the fetched row exactly when that is stored and not deleted |
| SplitHandlers.SplitServer.WriteBack | internal/httpsrv/treemanager/treemanager.go:272-286 | so is its second call: name and metadata requested or else fetched go into the stored row and into the fetched copy, which is the event; all else stays but the update time |
| SplitHandlers.SplitServer.DeleteSubtree | internal/httpsrv/treemanager/treemanager.go:307-319 | so is the call of the delete handler, for the order of rows that the database returned |
| SplitHandlers.SplitServer.Notify | storage/notifier/notifier.go:67-77 | so is the delivery of a handler's next event |
| SplitHandlers.SplitServer.FailToNotify | storage/notifier/notifier.go:103-114 | so is a notification that fails, after which the handler sends no more |
| Tracking.CompareMeaning | app/v1/sql/storage.go:124-142 | times count as equal exactly when both are the same, a zero expected time standing for none |
| Controller.TrackedStore.IsDirectoryTracked | app/v1/sql/storage.go:26-36 | true exactly for tracked ids |
| Controller.TrackedStore.IsDirectoryInfoUpdated | app/v1/sql/storage.go:38-58 | true exactly when tracked with the same deletion time |
| Controller.TrackedStore.CreateDirectory | app/v1/sql/storage.go:60-78 | inserts an unknown id as live; a known one is an error and changes nothing |
| Controller.TrackedStore.DeleteDirectory | app/v1/sql/storage.go:85-120 | stamps a live row; an unknown or deleted one is an error and changes nothing |
| Controller.AppController.PersistDirectory | app/v1/controllerimpl.go:128-158 | writes the table first and calls the reconciler, with the directory itself, exactly if a row changed |
| Controller.AppController.IsRelevantEvent | app/v1/controllerimpl.go:177-208 | relevant: tracked ids, and create events below a tracked parent |
| Controller.AppController.ProcessIncomingEvent | app/v1/controllerimpl.go:160-175 | persists relevant events and ignores the rest |
| Controller.AppController.PersistIfUpToDate | app/v1/fullsubtree_reconciler.go:54-77 | persists what the client answers unless the table agrees with it; does nothing without a client |
| Controller.AppController.InitializeDirectories | app/v1/fullsubtree_reconciler.go:24-50 | the base first, then the page in order, stopping at the first error; nothing without a client |
| Controller.AppController.Run | app/v1/controllerimpl.go:87-124 | the initial reconcile and then the inputs in turn, ended by the first error; after a failed or cancelled watch the state is the one before it, and a run without error has met neither |
| FirstError.WatchEndsRun | app/v1/controllerimpl.go:104-116 | for all inputs: a failed or cancelled watch makes the run an error, in the state after the inputs before it, whatever follows |
| FirstError.RunConcat | app/v1/controllerimpl.go:87-124 | a run over more inputs goes on where the shorter one ended, or ends with it if that was an error |
| FirstError.ReconcileStopsAtError | app/v1/fullsubtree_reconciler.go:24-50 | a full reconcile over a longer page goes on where one over fewer ids ended, or ends with it if that was an error; without a base nothing is written |
| ReconcileTrace.RunTraced | app/v1/controllerimpl.go:87-158 | whatever arrives, table and reconciler calls stay in step, over consecutive runs on one table |
| ReconcileTrace.CallsCarryWhatWasHeard | app/v1/controllerimpl.go:128-158 | every call of a run hands over a directory exactly as an event or an answer has told it, to delete it if and only if it is deleted, and earlier calls stay |
| ReconcileTrace.ReconcileCallsPerDirectory | app/v1/controllerimpl.go:87-158 | from an empty table the calls for one id are a prefix of create, delete, and the table row tells which |
| ReconcileTrace.PersistEachTracks | app/v1/fullsubtree_reconciler.go:42-47 | a live answer processed without error is tracked as live to the end of the pass |
| ReconcileTrace.InitializeIsFixpoint | app/v1/fullsubtree_reconciler.go:24-77 | after a successful full reconcile the same live answers write nothing and call nothing |
| ReconcileTrace.DeletedAnswerAgain | app/v1/sql/storage.go:122-142 | a deleted answer asked again leaves the controller idle exactly when the stamped time equals the answer's, and is an error otherwise |
| FailingReconciles.ProcessAllCutsOff | app/v1/controllerimpl.go:104-158 | for all inputs, the loop gets through if and only if it would with a reconciler that never fails and none of the calls made then fails, and it ends alike; otherwise it has made the first of those calls, none after one that failed |
| FailingReconciles.RunCutsOff | app/v1/controllerimpl.go:87-158 | the same for a whole run, the reconcile at its start included |
| TrackedShape.EventShaped | app/v1/controllerimpl.go:177-208 | an event true in id and parent keeps the tracked set inside the subtree and closed under parents |
| TrackedShape.InitializeShaped | app/v1/fullsubtree_reconciler.go:24-50 | so does a full reconcile over any parents-first page, wherever an error ends it |
| TrackedShape.TrackedSetShape | app/v1/controllerimpl.go:87-208 | over every run from an empty table with inputs true of one forest, every tracked directory is the base or below it with its parent tracked |
| TrackedShape.EarlierRowIsTrue | app/v1/controllerimpl.go:177-208 | an event from an earlier store is still true of a later one |
| TrackedShape.EarlierPageIsTrue | app/v1/fullsubtree_reconciler.go:37-42 | the first page read from an earlier store is still a parents-first page of descendants in a later one |
| TrackedRuns.LoggedEventIsTrue | app/v1/controllerimpl.go:177-208 | an event once published stays true of ids and parents in the final store |
| TrackedRuns.TrackedSetOfRun | app/v1/controllerimpl.go:87-208 | for any server run, with events taken from its log lost, repeated or reordered and reconciles answered from any of its stores: every tracked directory is the base or below it with its parent tracked |
| Seeding.PersistEachSeeds | app/v1/fullsubtree_reconciler.go:42-47 | new live answers are all tracked, and nothing else |
| Seeding.PrefixIsSubtree | app/v1/fullsubtree_reconciler.go:37-42 | a prefix of the children list with the base is the live subtree exactly when it is the whole list |
| Seeding.SeedingTracks | app/v1/fullsubtree_reconciler.go:24-50 | a full reconcile of an empty table tracks exactly the base and the first page of its live descendants |
| Seeding.SeedingIsComplete | app/v1/fullsubtree_reconciler.go:24-50 | that is the live subtree if and only if the base has at most ten live descendants |
| Seeding.ElevenChildrenAreTooMany | app/v1/fullsubtree_reconciler.go:37-42 | concrete forests with eleven children below the base, where it is not, and with ten, where it is |
| Mirror.CreateMirrored | app/v1/controllerimpl.go:177-208 | a create event enters the table exactly when its directory enters the subtree |
| Mirror.DeleteMirrored | app/v1/controllerimpl.go:128-143 | a delete event stamps the row exactly when its directory is in the subtree, without error |
| Mirror.UpdateMirrored | app/v1/sql/storage.go:60-78 | an update event is an error exactly when its directory is in the subtree, and is ignored otherwise |
| Mirror.LogMirrored | app/v1/controllerimpl.go:126-208 | events delivered in order, once each, pass without error exactly when none updates a directory of the subtree, and then the table mirrors the store they describe |
| Mirror.MirrorBySimulation | app/v1/controllerimpl.go:126-208 | for every server run and every consumed prefix of its log: no error if and only if there is no update inside and every reconcile call succeeds, and then the table is the subtree with the right deletion marks |
| Mirror.CreatesAndDeletesNeverFail | app/v1/controllerimpl.go:126-208 | if only creates and deletes have been published since the seeding, the controller is never stopped, and once they are consumed the table mirrors the server's store |
| Following.EventFollowed | app/v1/controllerimpl.go:160-208 | from any accurate table, an event is an error if and only if it updates or creates a tracked directory; otherwise the table takes in a child created below a tracked one and the deletion of a tracked one |
| Following.TickFollowed | app/v1/fullsubtree_reconciler.go:24-50 | each request of a full reconcile answered from its own store: it gets through if and only if the base is live at both its requests and each listed directory at its own; then it adds exactly what was listed, and changes nothing if that was tracked |
| Following.MomentsFollowed | app/v1/controllerimpl.go:87-208 | over every sequence of events and full reconciles from any accurate table: no error if and only if nothing of this kind disturbs it, and then exactly what was kept is tracked, with the right marks |
| SideBySide.FollowSideBySide | app/v1/controllerimpl.go:87-208 | the same for a server and a controller in any interleaving, requests being served between the requests of a reconcile, with failing reconcile calls |
| MirrorTicks.SeedKeepsSubtree | app/v1/controllerimpl.go:87-208 | from a complete seeding, what an undisturbed controller keeps is the subtree of the consumed view and what reconciles listed before its create event was consumed |
| MirrorTicks.MirrorWithTicks | app/v1/controllerimpl.go:87-208 | from a complete seeding, in any interleaving: no error if and only if undisturbed and every reconcile call succeeds; a controller that has then consumed everything mirrors the store exactly |
| MirrorTicks.OvertakenErrs | app/v1/controllerimpl.go:104-122 | a run that errs: a child is created below a base without descendants, listed to a full reconcile, and then its create event is consumed |
| MirrorTicks.SmallestStoreErrs | app/v1/controllerimpl.go:104-122 | that run on a store of two directories |
| PartialMirror.CoveredMeaning | app/v1/controllerimpl.go:177-208 | what is seeded or created below such is the subtree, less what was deleted at the seeding and less the unseeded live directories with all below them |
| PartialMirror.PartlyMirrored | app/v1/controllerimpl.go:126-208 | after any seeding of the base and live directories with their parents: no error if and only if no covered directory is updated and every reconcile call succeeds, and then exactly the covered part is tracked, with the right marks |
| PartialMirror.TruncatedRun | app/v1/controllerimpl.go:87-208 | a whole run from an empty table, seeded with one page: what lies beyond the page, and all that is created below it, is missed, and nothing else |

## Left out

- MemoryDriver.Driver.GetParents: states a permutation, not an order, because the sort's comparator reads the wrong slice.
- MemoryDriver.Driver.GetParentsUntilAncestor: the same.
- MemoryDriver.Driver.AllChildren: collects the rows' values, not pointers to them; nothing is written between collecting and reading them.
- PageLinks.SessionDrains: a listing that changes otherwise than at its end between two requests, as a children list does under deletes, is not covered.
- PageLinks.SessionCollectsAll: the same.
- PageLinks.ClientListsEverything: the listing stays as it is, and the list handlers' 404 checks are not modelled.
- QueryCodec.AtoiItoa: unbounded integers; the 64-bit range errors of the parser and overflow of the page offset are not modelled.
- QueryCodec.AtoiMeaning: the same.
- QueryCodec.NumberDecoded: the same.
- QueryCodec.DecodeFails: the same.
- NotifyWrappers.RetryDelivers: a retrier has some number of attempts; how backoff and cancellation set that number is not modelled.
- Mirror.MirrorBySimulation: delivery is in order and exactly once; other deliveries are covered by `ReconcileTrace.RunTraced` and `TrackedRuns.TrackedSetOfRun`.
- SideBySide.FollowSideBySide: the same.
- PartialMirror.TruncatedRun: the seeding reads one store, and no further full reconcile takes place; `SideBySide.FollowSideBySide` covers both.
- Routing, JSON binding, request-id parsing, JWT and audit middleware, and the scheme and host of links. A URL query is a map from key to string; percent-encoding is not modelled.
- The 404 checks of the list handlers, and reading a single directory over HTTP. `PageLinks` starts from the list a driver returns.
- A watch that reports a nil error would end `Run` without one; `Tracking.WatchFailed` stands for an actual error.
- NATS, JetStream, event encoding and subscriptions: the log is a sequence, and the controller's inputs are a sequence.
- SQL execution, transactions, connection errors and follower reads: each query acts on one table value.
- The concurrency of `sync.Map`, and type assertions on its values.
- UUID generation, wall clocks, and the random interval of the ticker: ticks come at arbitrary points.
- A crash of the application between its table write and the reconciler call.
- Hard deletes: the event kind occurs only as an arbitrary input, since the server never publishes it.
- The seeder's no-op reconciler, the application store's no-op update, the callback storage, the command line tools, the Helm chart, migration tooling and generated code.
