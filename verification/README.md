# DealSignal: a verified model of its stateful core

DealSignal shares documents through links and data rooms and tells a sender how they are read. This
project models the parts of its Go API that are algorithms or state machines, and proves what holds of
them over every input, every run or every interleaving. `dafny verify dfyconfig.toml` checks all of it.

| part | specification and methods | laws |
|---|---|---|
| strings, missing values, sums, SQL LIKE | `GoStrings`, `Options`, `Sums`, `SqlLike` | in place |
| data-room folders | `Paths`, `FolderTree`, `LockScope`, `Rooms`, `RoomService` | `RoomLaws`, `RoomEffects`, `RoomRaces` |
| folders given at room creation | `CreateFolders` | `NewRooms` |
| room list and its cache | `ListCache` | in place |
| reading sessions | `SessionCluster`, `LiveSessions`, `Funnel` | `ClusterLaws`, `LiveLaws`, `LiveRaces` |
| accounts and tokens | `Tokens`, `Accounts` | `TokenLaws`, `TokenFates`, `AccountLaws`, `SessionFates`, `AuthRaces`, `ResetRaces` |
| billing events | `Prices`, `Billing` | `BillingLaws`, `BillingEffects` |
| opens and duplicates | `Opens`, `Dedup` | `OpenLaws`, `OpenRaces`, `DedupLaws` |
| key-page rules | `RuleSet` | `RuleLaws` |
| event-table partitions | `Months`, `Partitions` | `PartitionLaws` |

Where the Go code updates fields, rows or maps, the model has a class or a method with the same loops
and branches. Each is proved against a function (or relation) on values, and the laws are about that
function. Tables and Redis are maps and sequences; a map iteration picks its keys in any order; ids,
tokens, random values and the clock are inputs of the operation that draws them; times are nanoseconds.
A failing query is an input too where the code has a branch for it.

## What the proofs say about the code

These are places where the code does not do what its comments or a reader would expect. Each is stated
exactly, with the condition under which the expected behaviour holds.

- A folder path goes unescaped into `folder_path LIKE path || '/%'`. The query means "below the path"
  exactly for paths free of `%`, `_` and backslash (`SqlLike.LikeUnderIsPrefixExactly`). The guard of
  DeleteFolder sees every document below the folder exactly when the pattern matches the path followed by a
  slash, which for paths without `%` is when they hold no backslash (`RoomLaws.CountSeesSubtree`).
- So over any run of folder operations, one after another, a room keeps its tree, and its documents in it,
  exactly when no deletion takes a folder with documents in it or below it
  (`RoomLaws.RunKeepsSoundExactly`), and there only a path with a backslash can bring that about
  (`RoomLaws.RunKeepsSound`). The documents stay behind in no folder
  (`RoomLaws.DeleteWithBackslashOrphans`). Slugs never hold a backslash, but a path given at room creation
  may, and such a room can lose a document in three steps (`NewRooms.BackslashRoomLosesDocument`).
- Room operations that overlap read the folder list, and write later without a lock. The folders stay a tree
  in every interleaving (`RoomRaces.RunKeepsTidy`), and documents stay in them exactly as long as no write
  leaves one out (`RoomRaces.RunKeepsSoundExactly`), which takes, a blind count aside, a write that another
  request got in front of (`RoomRaces.UndisturbedStrandsNothing`). An addition that meets the deletion of its
  empty folder, other than General, does so whichever writes first (`RoomRaces.CollisionStrands`), and that
  can come about in every sound room with such a folder that is not locked (`RoomRaces.AddMeetsDelete`). Of
  two list changes about to be saved the first is lost (`RoomRaces.LaterSaveWins`).
- Folders given at room creation go into the room as they are. The room is sound exactly when each path
  asked for is well-formed, and top-level or below another accepted folder
  (`NewRooms.RequestedRoomIsSoundExactly`); rooms of top-level folders always are
  (`NewRooms.TopLevelRequestIsSound`).
- Renaming a folder back restores all paths and documents; a permission row is restored exactly when it
  was not already dangling at a new path, a link scope exactly when no entry already lay below the new
  name. A rename overwrites the display name of every folder below with its last path segment, so the
  folder list is as before exactly when those names were their last segments already and the old name is
  given back (`RoomLaws.RenameBackRestores`). A name that leads back exists exactly when the old last
  segment is a slug (`RoomLaws.UndoNameExists`).
- A locked folder keeps visitors out of everything below it, but the guard on adding, moving, renaming and
  deleting looks at a folder's own flag only
  (`RoomEffects.GuardIsNotInherited`, `RoomEffects.RenameMovesFolder`). A locked document cannot be
  moved, but adding it once more moves it (`RoomEffects.LockedDocumentMovesByAdding`), because adding does
  not look at the document's lock (`RoomEffects.AddPlacesOneDocument`).
- The prefix scan for locked folders is the walk over the parents exactly for paths without a blank segment
  behind the first: from `/a//b` the walk goes past `/a` (`LockScope.ScanIsWalkExactly`).
- The live session rows of a reader are the clusters of a rebuild exactly when no view names another
  document than the first view of its batch session did (`LiveLaws.LiveEqualsBatchExactly`); otherwise
  there are more rows.
- The median of the deepest pages has half of the sessions on either side exactly when the two middle values
  do not overflow 32 bits (`Funnel.MedianHalvesExactly`).
- A list handed to a reader is less than the TTL and two loads old, one load before it was cached and one in
  which it was read again (`ListCache.ReturnedListIsFresh`), and a list one tick below that bound can be
  handed out (`ListCache.OldestListIsHandedOut`). After a hard invalidation a later read may still be stale
  exactly when a flight is under way that holds a list from before the write, read from the database or from
  the cache (`ListCache.InvalidationIsReflectedExactly`).
- Whole auth operations keep every refresh token with a verified account. As interleaved requests they
  do so exactly as long as no invited login stores a token after marking an account that a
  re-registration has deleted in between (`AuthRaces.TokensEscapeOnlyByOrphaning`). That is reachable, and
  ends with a stored token of no account (`AuthRaces.InvitedLoginRacesReclaim`).
- A password reset ends every session of its account, but one may come back, without anybody let in anew,
  exactly when a request that was let in before is still on its way to its token as the tokens are revoked:
  a login with the old password, a refresh or a verification (`ResetRaces.SessionOutlivesResetExactly`).
- A user's index entry of reset tokens is left without its token exactly when the latest token was first
  presented after it expired and before an eviction came by (`TokenFates.IndexDanglesExactly`).
- Without a transaction starter the billing applier loses an event for good when an attempt fails after
  the claim (`BillingLaws.LostWithoutTransaction`).
- The duplicate checker falls back from Redis to the database. The two accept the same events exactly
  when no two events of unknown visitors on one link (and page) are less than a window apart, because a
  NULL visitor id never equals another (`DedupLaws.RedisAgreesWithDatabaseExactly`). Over any pattern of
  outages accepted events are a window apart exactly when Redis, whenever it answers, knows of an accepted
  event within the window if there is one, and the database is not asked about an unknown visitor within it
  (`DedupLaws.SpacedExactly`); going back from the database to Redis can break that
  (`DedupLaws.SwitchBackForgets`).
- A visitor who has opened a link before is taken for a new one exactly when the read of the first access
  fails and the count of the others does not; alerts and markers add up to the new visitors, less and plus
  these mishaps, in every run (`OpenLaws.AlertsAddUp`). Opens are classified before they are recorded, so
  of overlapping ones each that asked before its visitor was recorded sends one more alert
  (`OpenRaces.AlertsOfInterleaving`), and each that counted before anybody else was recorded a first-open
  alert (`OpenRaces.FirstOpenExactly`).
- Key-page keywords go unescaped into LIKE patterns: a pattern means "contains the keyword" exactly for
  keywords free of LIKE's special characters (`RuleLaws.PatternIsContainmentExactly`).
- The retention job judges a partition by its name and multiplies the retention period in a 64-bit duration.
  No row is lost too early exactly when no partition reaches past the bound in its name, less what the
  product has lost (`PartitionLaws.PromiseHoldsExactly`). For partitions that cover their month that is up to
  106751 days; a longer period wraps around and drops recent ones
  (`PartitionLaws.MonthlyPromiseHoldsExactly`).

## Model

| member | source | states |
|---|---|---|
| SqlLike.UnescapeInvertsEscape | apps/api/internal/dealroom/name.go:76-113 | unescaping an escaped search text gives the text back |
| SqlLike.SearchPatternIsContainment | apps/api/internal/dealroom/name.go:76-93 | percent, escaped text, percent selects exactly the strings that contain the text, for every text |
| SqlLike.LikeUnderIsPrefixExactly | apps/api/internal/db/queries.sql:3093-3097 | path followed by /% selects exactly the strings that begin with path and a slash, if and only if the path is free of LIKE's special characters |
| SqlLike.LikeUnderSeesAllExactly | apps/api/internal/db/queries.sql:3093-3097 | the pattern selects every string that begins with path and a slash if and only if it selects the shortest of them; always without a backslash, never with one but no percent sign |
| SqlLike.EscapeIlikePattern | apps/api/internal/dealroom/name.go:76-93 | the rune loop escapes each percent, underscore and backslash and nothing else |
| SqlLike.UnescapeIlikePattern | apps/api/internal/dealroom/name.go:95-113 | the rune loop with its escaped flag drops each escaping backslash |
| Paths.SplitWellFormed | apps/api/internal/dealroom/service.go:3091-3137 | a well-formed path is its parent joined with its name, and the parent is well-formed or the root |
| Paths.ChildWellFormed | apps/api/internal/dealroom/service.go:3130-3137 | joining a segment to a folder gives a well-formed path whose parent and name are the two |
| Paths.SlugifyIsIdempotent | apps/api/internal/dealroom/service.go:3115-3128 | a slug is its own slug |
| Paths.SlugIsParts | apps/api/internal/dealroom/service.go:3115-3128 | a slug is what the name's runes come to, in order, without the hyphens at either end: letters in lower case, digits and hyphens themselves, a space a hyphen, anything else nothing |
| Paths.UnderStepsToParent | apps/api/internal/dealroom/service.go:3091-3101 | the prefix test and the walk over parents agree, step by step |
| FolderTree.RenameKeepsTree | apps/api/internal/dealroom/service.go:2542-2568 | a rename between siblings turns a tree of folders into a tree |
| FolderTree.RenamedTwice | apps/api/internal/dealroom/service.go:2542-2568 | renaming there and back gives the same set of folders |
| FolderTree.RenameKeepsContainment | apps/api/internal/dealroom/service.go:2542-2568 | one folder is inside another after a rename if and only if it was before |
| LockScope.LockedFolderPathSet | apps/api/internal/dealroom/lockscope.go:14-35 | the set holds exactly the normalized paths other than the root that are marked locked |
| LockScope.PrefixScanIsAncestorWalk | apps/api/internal/dealroom/lockscope.go:73-90 | for well-formed paths the prefix scan finds a lock if and only if walking up the parents meets a locked folder, which is when the path is in a locked subtree |
| LockScope.CorpusAndVisitorScansAgree | apps/api/internal/dealroom/service.go:2717-2729 | documentUnderLockedFolders and FolderPathLocked give the same answer on the same paths |
| LockScope.ScanIsWalkExactly | apps/api/internal/dealroom/lockscope.go:73-90 | for any path, scan and walk over the parents agree whatever is locked if and only if no segment behind the first is blank |
| LockScope.ParentOfRooted | apps/api/internal/dealroom/service.go:3091-3101 | the parent is the folder above, or the one above that when the last segment is blank |
| RoomLaws.RunKeepsSoundExactly | apps/api/internal/dealroom/service.go:2444-2842 | from a sound room a run of create, rename, delete, add, move, remove and lock operations keeps paths unique, every parent present and every document in a folder that loadFolders returns, all the way, if and only if no deletion in it takes a folder that holds documents at any depth |
| RoomLaws.RunKeepsSound | apps/api/internal/dealroom/service.go:2444-2842 | every run keeps that whose deletions name paths without a backslash, or otherwise seen through by the count |
| RoomLaws.LoadAfterSave | apps/api/internal/dealroom/service.go:2819-2842 | a saved list is what the next load returns if and only if it is not empty and does not list the root; an empty one becomes General |
| RoomLaws.DeleteKeepsSoundExactly | apps/api/internal/dealroom/service.go:2733-2817 | a folder that is deleted from a sound room leaves it sound if and only if no document was in it or below it |
| RoomLaws.OperationKeepsSoundExactly | apps/api/internal/dealroom/service.go:2444-2842 | one operation keeps a room sound if and only if it is not a deletion that loses documents |
| RoomLaws.RenameIsSubstitution | apps/api/internal/dealroom/service.go:2542-2615 | a rename is one simultaneous substitution of the old prefix on folders, documents and link scopes |
| RoomLaws.RenameKeepsLockOut | apps/api/internal/dealroom/lockscope.go:94-96 | renaming a folder changes for no document whether visitors are locked out of it |
| RoomLaws.RenameBackRestores | apps/api/internal/dealroom/service.go:2507-2619 | renaming back restores every folder path and every document's folder, the folder list if and only if its names fit, and exactly which permission rows and link scopes |
| RoomLaws.WayBackSucceeds | apps/api/internal/dealroom/service.go:2507-2548 | after a rename the rename back passes every check |
| RoomLaws.UndoNameExists | apps/api/internal/dealroom/service.go:3115-3128 | a name that renames a folder back exists if and only if its last segment is a slug |
| RoomLaws.CountSeesSubtree | apps/api/internal/db/queries.sql:3093-3097 | the count sees every document below the folder if and only if its pattern matches path and slash; for paths without a percent sign, if and only if the path holds no backslash |
| RoomLaws.DeleteWithBackslashOrphans | apps/api/internal/dealroom/service.go:2752-2774 | with a backslash in the path the folder is deleted and its documents are left in no folder |
| RoomEffects.CreateAddsOneChild | apps/api/internal/dealroom/service.go:2444-2503 | a folder with an acceptable name is created if and only if its parent is the root or an unlocked folder without a child of that slug, and then exactly that child is added |
| RoomEffects.CreatedEntry | apps/api/internal/dealroom/service.go:2486-2496 | the new entry is the last one, with the parent's path and the slug, the name as typed, no description, the next sort order and no lock |
| RoomEffects.CreateRefusedExactly | apps/api/internal/dealroom/service.go:2444-2484 | which error a creation ends with: a bad name, a parent that is not listed, a locked parent or a folder that is there, each if and only if |
| RoomEffects.NameErrorsExactly | apps/api/internal/dealroom/service.go:2453-2461 | a name is refused if and only if it is empty, has a slash or has no slug |
| RoomEffects.RenameMovesFolder | apps/api/internal/dealroom/service.go:2507-2619 | with an acceptable name a folder is renamed if and only if it is listed and not itself locked, its sibling of the new slug is itself or not listed, and no two permissions of one address come to meet; then it has the new path and the name as typed, those below their last segment for a name, order, description and lock stay, and documents, permissions and scopes move along |
| RoomEffects.RenameRefusedExactly | apps/api/internal/dealroom/service.go:2507-2580 | which error a rename ends with, each if and only if |
| RoomEffects.DeleteRemovesSubtree | apps/api/internal/dealroom/service.go:2733-2817 | a folder is deleted if and only if it is listed, not locked and the count finds no document, and then exactly its subtree goes; for plain paths the count finds the documents at any depth |
| RoomEffects.DeleteRefusedExactly | apps/api/internal/dealroom/service.go:2733-2774 | a deletion ends with not found, locked or not empty, each if and only if |
| RoomEffects.DeleteClearsGrants | apps/api/internal/dealroom/service.go:2776-2812 | exactly the link scope entries at or below a deleted folder go with it, and exactly the permissions that the query selects |
| RoomEffects.SelectsSubtreeExactly | apps/api/internal/dealroom/service.go:2776-2812 | that query selects the folder's subtree if and only if the path is free of LIKE's special characters |
| RoomEffects.LocksExactlyTheNamed | apps/api/internal/dealroom/service.go:2652-2667 | all named folders and no others change their lock; refused if and only if one of them is not a folder |
| RoomEffects.GuardIsNotInherited | apps/api/internal/dealroom/lockscope.go:73-90 | visitors are kept out of a folder if and only if its own flag or that of a folder above is set |
| RoomEffects.HiddenExactly | apps/api/internal/dealroom/lockscope.go:92-96 | a document is kept from visitors if and only if it is locked or its folder, or one above that, is |
| RoomRaces.RunKeepsTidy | apps/api/internal/dealroom/service.go:2444-2850 | in every interleaving of room operations the folders stay a tree without duplicates |
| RoomRaces.RunKeepsSoundExactly | apps/api/internal/dealroom/service.go:1900-2842 | in every interleaving a sound room is sound up to a state if and only if no write before leaves a document in no folder |
| RoomRaces.StepKeepsSoundExactly | apps/api/internal/dealroom/service.go:1900-2842 | one step keeps a sound room sound if and only if it leaves no document out of the list it writes, moves or finds |
| RoomRaces.UndisturbedStrandsNothing | apps/api/internal/dealroom/service.go:1900-2842 | a write leaves nothing behind when the folders are those its request saw, a folder to be dropped is empty and one to be placed into is there |
| RoomRaces.AloneIsNext | apps/api/internal/dealroom/service.go:1900-2842 | the steps of a request that nobody interrupts come to the operation of Rooms |
| RoomRaces.CollisionStrands | apps/api/internal/dealroom/service.go:1902-2022 | an addition and a deletion that has counted no documents, of one folder, leave the document in no folder in either order of writing |
| RoomRaces.AddMeetsDelete | apps/api/internal/dealroom/service.go:2733-2774 | such a collision comes about in every sound room with an unlocked folder without documents |
| RoomRaces.LaterSaveWins | apps/api/internal/dealroom/service.go:2444-2503 | of two lists about to be saved the later stays and nothing of the first |
| RoomService.SiblingStepsAreApart | apps/api/internal/dealroom/service.go:2549-2556 | old and new paths of a path map are disjoint unless the rename is the identity |
| RoomService.CascadePaths | apps/api/internal/dealroom/service.go:2573-2588 | updating path by path in any order of the map equals the one substitution, and fails if and only if the result has two permission rows for one address and folder |
| RoomService.BuildPathMap | apps/api/internal/dealroom/service.go:2549-2556 | the map holds the renamed folder and everything below it, each with its new path |
| RoomService.RenameInMemory | apps/api/internal/dealroom/service.go:2558-2568 | each listed folder gets its new path and name |
| RoomService.RescopeLinks | apps/api/internal/dealroom/service.go:2590-2609 | each link scope entry at or below the folder moves with it, all others stay |
| RoomService.Room.CreateFolder | apps/api/internal/dealroom/service.go:2444-2503 | the new state and the error are those of Rooms.CreateFolder, and a failure changes nothing |
| RoomService.Room.RenameFolder | apps/api/internal/dealroom/service.go:2507-2619 | in every sound room the per-path updates come to Rooms.RenameFolder, whatever the order of the map |
| RoomService.Room.DeleteFolder | apps/api/internal/dealroom/service.go:2733-2817 | the new state and the error are those of Rooms.DeleteFolder |
| RoomEffects.AddPlacesOneDocument | apps/api/internal/dealroom/service.go:1900-2022 | a document is added if and only if the folder is listed and not itself locked and the checks pass, and then exactly its row changes; an existing one keeps its lock |
| RoomEffects.AddRefusedExactly | apps/api/internal/dealroom/service.go:1900-1960 | which error an addition ends with |
| RoomEffects.LockedDocumentMovesByAdding | apps/api/internal/dealroom/service.go:1900-2022 | a locked document that cannot be moved or removed moves to any unlocked folder when it is added again |
| RoomEffects.MovePlacesOneDocument | apps/api/internal/dealroom/service.go:2156-2208 | a document is moved if and only if it is in the room and unlocked and the folder is listed under that path and not itself locked, and then exactly its row changes |
| RoomEffects.MoveRefusedExactly | apps/api/internal/dealroom/service.go:2156-2190 | which error a move ends with, each if and only if |
| RoomEffects.RemoveTakesOneDocument | apps/api/internal/dealroom/service.go:2063-2104 | a document is removed if and only if it is in the room and not locked, and nothing else changes |
| RoomEffects.DocumentsLockedExactly | apps/api/internal/dealroom/service.go:2668-2705 | the flags of the documents named change and nothing else |
| RoomService.Room.LockFolders | apps/api/internal/dealroom/service.go:2652-2667 | all named folders are locked or unlocked, or none |
| CreateFolders.FirstFree | apps/api/internal/dealroom/service.go:3031-3036 | the suffix loop ends on every input with the first candidate that is not used |
| CreateFolders.NormalizeCreateFolders | apps/api/internal/dealroom/service.go:3012-3049 | at most 40 folders, one for each named input in order, sort order equal to index; refused if and only if one of these names holds a slash |
| CreateFolders.NamedInOrder | apps/api/internal/dealroom/service.go:3018-3024 | inputs with a blank name are passed over, the others keep their order |
| CreateFolders.AcceptedGetsWanted | apps/api/internal/dealroom/service.go:3025-3036 | each accepted folder gets the path asked for, else the slug of its name, else one with its number, and where that is taken the same with the least suffix from 2 on that makes a new one |
| CreateFolders.AcceptedPathsAreDistinct | apps/api/internal/dealroom/service.go:3012-3049 | accepted paths are pairwise different and not the root |
| NewRooms.NewRoomIsSoundExactly | apps/api/internal/dealroom/service.go:332-357 | a room with different folder paths other than the root is sound if and only if they are a tree |
| NewRooms.TopLevelRoomIsSound | apps/api/internal/dealroom/service.go:342-357 | a template of different top-level folders makes a sound room |
| NewRooms.RequestedRoomIsSoundExactly | apps/api/internal/dealroom/service.go:333-357 | the room of accepted folders is sound if and only if each path asked for is well-formed and has the root or another accepted folder for parent |
| NewRooms.TopLevelRequestIsSound | apps/api/internal/dealroom/service.go:3012-3049 | folders without a path or with a top-level one make a sound room |
| NewRooms.OneFolderIsAccepted | apps/api/internal/dealroom/service.go:3012-3049 | a single folder is accepted under the very path asked for, whatever it holds |
| NewRooms.OneFolderRoomIsSoundExactly | apps/api/internal/dealroom/service.go:333-357 | its room is sound if and only if that path is well-formed and top-level |
| NewRooms.BackslashRoomLosesDocument | apps/api/internal/dealroom/service.go:2752-2774 | a room requested with a backslash path is sound and loses a document in three operations |
| ListCache.ReturnedListIsFresh | apps/api/internal/dealroom/service.go:615-651 | in every interleaving a list is, when handed out, the database value at a load less than the TTL and two loads ago |
| ListCache.OldestListIsHandedOut | apps/api/internal/dealroom/service.go:615-651 | for every load time some run hands out a list one tick below that age |
| ListCache.InvalidationIsReflectedExactly | apps/api/internal/dealroom/service.go:736-762 | after a hard invalidation every later read reflects the last write if and only if no flight under way holds an earlier list, from the database or from the cache |
| ListCache.RunKeepsNoneOlder | apps/api/internal/dealroom/service.go:615-651 | once no cache entry and no flight holds anything older than a write, nothing older is handed to later readers |
| SessionCluster.ClusterPageViewsIntoSessions | apps/api/internal/analytics/session_cluster.go:36-110 | the scan over the sorted copy computes Clusters |
| SessionCluster.StableSortSorts | apps/api/internal/analytics/session_cluster.go:44-57 | the sorted copy is a sorted permutation of the views |
| ClusterLaws.ClustersIgnoreInputOrder | apps/api/internal/analytics/session_cluster.go:36-110 | every permutation of the views gives the same clusters |
| ClusterLaws.ClustersPartitionViews | apps/api/internal/analytics/session_cluster.go:36-110 | every valid view is in exactly one cluster |
| ClusterLaws.SameClusterIffLinked | apps/api/internal/analytics/session_cluster.go:73-108 | two valid views share a cluster if and only if a chain of views of the same actor joins them with gaps of at most idle |
| ClusterLaws.ClusterTotals | apps/api/internal/analytics/session_cluster.go:73-108 | a cluster's total and per-page durations are the sums over exactly the views it covers |
| ClusterLaws.ClusterExtremes | apps/api/internal/analytics/session_cluster.go:73-108 | a cluster's bounds and deepest page are attained and bound its views |
| ClusterLaws.ClustersConserveDuration | apps/api/internal/analytics/session_cluster.go:36-110 | the clusters' totals add up to the clamped durations of the valid views |
| LiveSessions.SessionTable.Resolve | apps/api/internal/analytics/reading_session.go:24-47 | one view changes the session rows as Touch says |
| LiveRaces.RunKeepsInv | apps/api/internal/analytics/reading_session.go:24-119 | in every interleaving of page views, any statement failing, a visitor has at most one open row on a link, each request works on a row of its own visitor, and each row's total and page times are those of exactly the requests that added to it |
| LiveRaces.RunKeepsRows | apps/api/internal/analytics/reading_session.go:24-119 | in every interleaving no row is lost or passes to another visitor, and one that has ended keeps the time it ended at |
| LiveRaces.NothingIsLostOrDoubled | apps/api/internal/analytics/reading_session.go:24-119 | in every interleaving the totals of a visitor's rows add up to the durations of the visitor's finished page views |
| LiveRaces.ConflictMeansThreeRivals | apps/api/internal/analytics/reading_session.go:35-47 | a request gives up after three conflicts only when three rows of its visitor were opened since it arrived |
| LiveRaces.AloneIsTouch | apps/api/internal/analytics/reading_session.go:49-119 | the statements of a request that nobody interrupts come to Touch |
| LiveSessions.SessionTable.TouchOrOpen | apps/api/internal/analytics/reading_session.go:49-93 | the open row is extended, or closed at its last activity and followed by a new one |
| LiveSessions.SessionTable.ApplyPageTo | apps/api/internal/analytics/reading_session.go:95-119 | the page's duration and the row's totals grow by the view |
| LiveLaws.LiveEqualsBatchExactly | apps/api/internal/analytics/reading_session.go:32-119 | for time-ordered views a reader's live rows equal the rebuilt clusters, whatever other readers do in between, if and only if no view names another document than the first view of its batch session; there are never fewer rows |
| LiveLaws.LiveEqualsBatch | apps/api/internal/analytics/reading_session.go:32-119 | for every reader of one document the live rows equal the clusters of the same views |
| LiveLaws.ClustersOfActor | apps/api/internal/analytics/session_cluster.go:73-108 | an actor's clusters are the scan of that actor's views alone |
| Funnel.BuildReadingFunnel | apps/api/internal/analytics/funnel.go:43-121 | depth, completions, rates, averages, the median, each step and the first page of greatest drop, each by its meaning over the sessions |
| Funnel.SumUp | apps/api/internal/analytics/funnel.go:69-79 | the loop collects the deepest pages and sums pages, durations and completions |
| Funnel.DepthExactly | apps/api/internal/analytics/funnel.go:50-64 | the depth is the page count, or without one the deepest page of a session |
| Funnel.DropOffIsShareLost | apps/api/internal/analytics/funnel.go:96-119 | a step's drop-off is the share of the sessions on the page before that do not reach this one, and zero where there are none |
| Funnel.MedianHalvesExactly | apps/api/internal/analytics/funnel.go:123-134 | the median has half of the values on either side if and only if the two middle ones do not overflow 32 bits |
| Funnel.FillReached | apps/api/internal/analytics/funnel.go:85-94 | each slot of the reached array counts the sessions at least that deep |
| Funnel.DropSteps | apps/api/internal/analytics/funnel.go:96-119 | the steps carry reach and drop, and the page kept is the first of greatest drop |
| Funnel.GreatestDropIsOne | apps/api/internal/analytics/funnel.go:96-119 | one page only is the first of greatest drop: all others lose fewer sessions, or as many later on |
| Funnel.ReachNeverIncreases | apps/api/internal/analytics/funnel.go:85-94 | deeper pages are reached by no more sessions |
| Funnel.ReachSumsToDepths | apps/api/internal/analytics/funnel.go:85-94 | reach summed over pages is clamped depth summed over sessions |
| Funnel.DropsTelescope | apps/api/internal/analytics/funnel.go:96-119 | the drops add up to the sessions lost between the first page and completion |
| Tokens.MemoryTokenStore.CleanupExpired | apps/api/internal/auth/memory_store.go:51-82 | the four loops remove exactly the expired entries, and an index entry with its token |
| TokenLaws.CleanupIsExact | apps/api/internal/auth/memory_store.go:51-82 | what is left is what is not past its time, as it was, and the index entries but those of the reset tokens that went |
| TokenFates.RefreshTokenValidExactly | apps/api/internal/auth/memory_store.go:104-142 | after any run, evictions included, a refresh token is valid if and only if it was stored, neither it nor all of its user's tokens were revoked since, and it has not expired |
| TokenFates.BlocklistedExactly | apps/api/internal/auth/memory_store.go:84-102 | after any run an access token is refused if and only if it was blocklisted, the last time for longer than until now |
| TokenFates.LinkLeadsExactly | apps/api/internal/auth/memory_store.go:142-169 | after any run a verification link leads to a user if and only if it was last stored for that user, was not deleted since and is not past its time |
| Tokens.MemoryTokenStore.RevokeAll | apps/api/internal/auth/memory_store.go:131-142 | the prefix loop removes the keys that begin with the user and a colon |
| Tokens.MemoryTokenStore.CreateReset | apps/api/internal/auth/memory_store.go:187-201 | a new reset token replaces the user's earlier one |
| Tokens.MemoryTokenStore.ConsumeReset | apps/api/internal/auth/memory_store.go:203-217 | the token is removed, and answers with its user unless it is past its time |
| TokenLaws.EvictionIsInvisible | apps/api/internal/auth/memory_store.go:51-82 | under a monotone clock and fresh tokens, evicting at any points of a run changes no answer |
| TokenLaws.ResetTokenAcceptedExactly | apps/api/internal/auth/memory_store.go:187-217 | a reset token is accepted if and only if it is the latest minted for its user, was not presented before and has not expired |
| TokenLaws.ResetTokenWorksOnce | apps/api/internal/auth/memory_store.go:203-217 | a presented reset token is refused ever after |
| TokenFates.IndexDanglesExactly | apps/api/internal/auth/memory_store.go:187-217 | over any run with fresh tokens a user's index entry leads to no token if and only if the latest token was first presented after its expiry with no eviction in between |
| TokenLaws.RevokeAllIsExact | apps/api/internal/auth/memory_store.go:131-142 | revoking all of a user's tokens hits that user's and no one else's |
| Accounts.AuthService.RegisterUser | apps/api/internal/auth/service.go:287-377 | refused requests change nothing; otherwise the outcome is that of Accounts.Register |
| Accounts.AuthService.LoginUser | apps/api/internal/auth/service.go:383-407 | the outcome is that of Accounts.Login |
| Accounts.AuthService.RefreshSession | apps/api/internal/auth/service.go:468-499 | the outcome is that of Accounts.Refresh |
| Accounts.AuthService.VerifyByToken | apps/api/internal/auth/service.go:550-580 | the outcome is that of Accounts.VerifyEmailByToken |
| Accounts.AuthService.ResetPasswordByToken | apps/api/internal/auth/password_reset.go:88-125 | the outcome is that of Accounts.ResetPassword |
| AccountLaws.RunKeepsInv | apps/api/internal/auth/service.go:287-580 | over every run each stored refresh token belongs to an existing verified account, and a verified account stays |
| SessionFates.RefreshSucceedsExactly | apps/api/internal/auth/service.go:468-499 | whatever run came before, a refresh succeeds if and only if the token presented was issued to its subject less than seven days ago and neither logged out, traded in nor ended by a reset since; the session is the subject's with the new token, and a refused refresh changes nothing |
| SessionFates.LoginSucceedsExactly | apps/api/internal/auth/service.go:383-407 | whatever run came before, a login of an existing account succeeds if and only if it is with the password that its registration or a reset set last, and the owner was let in before or proves the mailbox |
| SessionFates.PasswordIsLast | apps/api/internal/auth/service.go:287-377 | an account's password is the last one that a registration or a reset has set for it |
| SessionFates.VerifiedIsLetIn | apps/api/internal/auth/service.go:383-407 | an account is verified if and only if its owner has been let in before |
| AccountLaws.RegisterExactly | apps/api/internal/auth/service.go:287-377 | an address of a verified account is refused, an unverified one of the last 48 hours is kept, an older one gives way, and the new account has the password given |
| AccountLaws.VerifyExactly | apps/api/internal/auth/service.go:550-580 | a link verifies the account it leads to, lets its owner in, works once, and other links stay |
| AccountLaws.ResetExactly | apps/api/internal/auth/password_reset.go:88-125 | a reset succeeds if and only if its token leads to a verified account, changes that password only, and uses the token up in any case |
| AccountLaws.LoginExactly | apps/api/internal/auth/service.go:383-407 | which error a login ends with, and that only the account's verification and a session are new |
| AccountLaws.UnverifiedRefreshRevokes | apps/api/internal/auth/service.go:484-487 | a valid refresh token of an account that is not verified is refused and gone |
| AccountLaws.RegisterSparesVerified | apps/api/internal/auth/service.go:350-377 | registering never deletes a verified account or changes its row |
| AccountLaws.IssuedMeansVerified | apps/api/internal/auth/service.go:436-445 | sessions are issued to verified accounts only, and the token issued is valid |
| AccountLaws.RotationRetires | apps/api/internal/auth/service.go:468-499 | a refreshed token is no longer valid |
| AccountLaws.ResetEndsSessions | apps/api/internal/auth/password_reset.go:88-125 | a reset ends every session of its account and no other, and the new password is the one that logs in |
| AuthRaces.TokensEscapeOnlyByOrphaning | apps/api/internal/auth/service.go:350-407 | over every interleaving of requests each stored token belongs to a verified account, in every state, if and only if no invited login that marked a deleted account stores its token |
| AuthRaces.StepKeepsTokensOwnedExactly | apps/api/internal/auth/service.go:350-499 | one step keeps every stored token owned if and only if it is not such a login's issue |
| AuthRaces.RunKeepsEmails | apps/api/internal/auth/service.go:287-377 | in every interleaving two accounts have different addresses |
| AuthRaces.InvitedLoginRacesReclaim | apps/api/internal/auth/service.go:350-407 | an interleaving of five steps ends with a stored token that no account owns |
| AuthRaces.AloneIsRefresh | apps/api/internal/auth/service.go:468-499 | the steps of a refresh that nobody interrupts begin if and only if its token is valid, store a token if and only if Refresh succeeds, and come to its outcome |
| AuthRaces.AloneIsLogin | apps/api/internal/auth/service.go:383-407 | the steps of a login begin if and only if Login succeeds, and come to its outcome |
| AuthRaces.AloneIsVerify | apps/api/internal/auth/service.go:550-580 | the steps of a verification come to VerifyEmailByToken |
| AuthRaces.AloneIsRegister | apps/api/internal/auth/service.go:287-377 | the steps of a registration come to Register |
| AuthRaces.AloneIsReset | apps/api/internal/auth/password_reset.go:88-125 | the two steps of a reset come to ResetPassword |
| ResetRaces.SessionOutlivesResetExactly | apps/api/internal/auth/password_reset.go:88-125 | after a reset has revoked the tokens, and with nobody let in anew, its account comes by a session in some continuation if and only if a request let in before is on its way |
| Prices.NewPrices | apps/api/internal/billing/prices.go:39-70 | the configured non-blank prices become a catalog if and only if no two are the same |
| Prices.PricesAreInverse | apps/api/internal/billing/prices.go:73-94 | a price is found as a SKU if and only if that SKU leads to the price |
| Prices.LookupLeadsBack | apps/api/internal/billing/prices.go:73-94 | a price that is found belongs to a paid plan and its SKU leads back to it |
| Billing.Applier.FindWorkspace | apps/api/internal/billing/apply.go:133-166 | the workspace and row are those of ResolveWorkspace |
| Billing.Applier.ApplyEvent | apps/api/internal/billing/apply.go:80-131 | the table changes as ApplyView says, in one row or not at all |
| Billing.Applier.Claim | apps/api/internal/billing/apply.go:66-78 | a claimed event has no effect, a new one is claimed and applied |
| Billing.Applier.Handle | apps/api/internal/billing/apply.go:41-64 | with a transaction a failure at any call leaves both tables as they were |
| Billing.WriteKeepsUnique | apps/api/internal/db/migrations/168_workspace_billing_stripe.up.sql:10-12 | a write that the unique index admits keeps customers unique |
| BillingEffects.EndFreesWorkspace | apps/api/internal/billing/apply.go:168-221 | a new event whose trimmed lower-case status is canceled, unpaid or incomplete_expired leaves the row of the workspace it names, or else of its customer's owner, on the free plan with status canceled and no price or subscription, and no other row touched |
| BillingEffects.SaleIsEntered | apps/api/internal/billing/apply.go:168-221 | past_due, and active, trialing or no status, with a known price or a paid plan leave that row past due or active on that plan and period, with the event's subscription, price and period end |
| BillingEffects.OtherWordsChangeNothing | apps/api/internal/billing/apply.go:168-221 | every other status leaves the table as it was, and one that must be paid for is refused when nothing is bought |
| BillingEffects.OtherCustomerIsRefused | apps/api/internal/billing/apply.go:89-92 | an event with another customer than the workspace has is refused |
| BillingEffects.NobodyIsDone | apps/api/internal/billing/apply.go:133-166 | an event of no known workspace is done without effect, or refused when it names neither workspace nor customer |
| BillingEffects.FailedWriteRefuses | apps/api/internal/billing/apply.go:110-131 | where there is a row to write, a failing write refuses the event and changes nothing |
| BillingEffects.FailuresRefuse | apps/api/internal/billing/apply.go:41-64 | failing to begin, claim, read or commit refuses an event and changes nothing |
| BillingEffects.OthersChangeNothing | apps/api/internal/billing/apply.go:41-64 | other events and claimed ones are done without effect, unreadable ones fail |
| BillingEffects.BareIsSameButClaims | apps/api/internal/billing/apply.go:49-51 | without a transaction the table and the answer are the same, and a failed attempt keeps the claim |
| BillingLaws.FailureChangesNothing | apps/api/internal/billing/apply.go:41-64 | a failed attempt changes neither table |
| BillingLaws.ClaimedIffSucceeded | apps/api/internal/billing/apply.go:66-78 | after any run an event is claimed if and only if it was before or a delivery of it succeeded |
| BillingLaws.ExactlyOnce | apps/api/internal/billing/apply.go:41-78 | after any deliveries the billing table is that of applying each event once, in order of first success |
| BillingLaws.EachEventOnce | apps/api/internal/billing/apply.go:66-78 | the events applied are the newly claimed ones, pairwise different |
| BillingLaws.LostWithoutTransaction | apps/api/internal/billing/apply.go:49-51 | without a transaction a failed attempt can be retried if and only if it failed at the claim |
| BillingLaws.WrittenRowIsSound | apps/api/internal/billing/apply.go:168-221 | every row written is active if and only if the plan is paid, its price and SKU lead to each other, and it has a past-due date if and only if it is past due |
| BillingLaws.RowsStaySound | apps/api/internal/billing/apply.go:80-131 | after any run every row is untouched or sound |
| BillingLaws.PastDueDateIsStartOfStreak | apps/api/internal/billing/apply.go:102-109 | the past-due date is the time of the event that began the present unbroken streak |
| BillingLaws.CustomerNeverChanges | apps/api/internal/billing/apply.go:89-92 | once a workspace has a customer no run of events gives it another, white space around it aside |
| BillingLaws.CustomersStayUnique | apps/api/internal/db/migrations/168_workspace_billing_stripe.up.sql:10-12 | no run of events gives one customer to two workspaces |
| OpenLaws.KindsExactly | apps/api/internal/analytics/service.go:365-410 | a first open or forward is a visitor with no recorded open, or one whose first access cannot be read, without or with others recorded, if these can be counted; a return is one all of whose opens are more than 30 minutes old |
| OpenLaws.RecordedExactly | apps/api/internal/db/queries.sql:936-947 | an open adds its row and one to the counter if and only if it is unseen, no query fails, and the link is active with no limit or fewer recorded opens than its limit; otherwise nothing changes, and which error it is |
| OpenLaws.FirstOpensAreRecorded | apps/api/internal/db/queries.sql:936-947 | of any run of unseen opens without failures an active link with limit n records the first n and no more, an inactive link none |
| Opens.OpenLog.RecordLinkOpened | apps/api/internal/analytics/service.go:230-257 | counter and row go together, and neither changes on a duplicate, a failure or a full link |
| Opens.OpenLog.RecordClassifiedOpen | apps/api/internal/analytics/service.go:199-228 | the row, its marker and the alert are those of Record |
| OpenLaws.OneFirstOpenAndAForwardForEachOther | apps/api/internal/analytics/service.go:199-257 | over any run one first-open alert when the first visitor shows up, and one forward alert and marker for each later visitor |
| OpenLaws.MarkersOfNewLink | apps/api/internal/analytics/service.go:375-410 | a new link has one first open and as many forward markers as other visitors |
| OpenLaws.ReturnsMarkedAfterRun | apps/api/internal/analytics/service.go:399-409 | an open is marked as a return if and only if its visitor opened the link before and every earlier open is more than 30 minutes old |
| OpenLaws.CountIsOpens | apps/api/internal/db/queries.sql:936-947 | the counter is the number of recorded opens and never passes the limit, whatever fails |
| OpenLaws.AlertsAddUp | apps/api/internal/analytics/service.go:375-410 | over any run, whatever fails, alerts and silenced new visitors add up to the new visitors and the known ones misjudged; forward markers and unmarked forwards to the forward alerts |
| OpenLaws.AlertsOfOpen | apps/api/internal/analytics/service.go:380-397 | an open sends an alert if and only if its visitor is new and the count of the others succeeds, or known with the first read failing and the count not |
| OpenRaces.AlertsOfInterleaving | apps/api/internal/analytics/service.go:199-257 | in every interleaving, whatever fails, recorded opens with an alert and silenced newcomers add up to the new visitors and the opens taken for new although recorded after their visitor |
| OpenRaces.CountIsOpensInterleaved | apps/api/internal/db/queries.sql:936-947 | in every interleaving the counter is the number of recorded opens, never passes the limit, and stands still for an inactive link |
| OpenRaces.FirstOpenExactly | apps/api/internal/analytics/service.go:375-397 | in every interleaving an open gets a first-open alert if and only if it is taken for new and nobody else was recorded when it counted |
| OpenRaces.AloneIsClassify | apps/api/internal/analytics/service.go:375-410 | an open that nobody interrupts is classified as in one step |
| Dedup.FailoverDedupChecker.SetNx | apps/api/internal/analytics/dedup.go:88-103 | the key is stored if and only if it is not live |
| Dedup.FailoverDedupChecker.Check | apps/api/internal/analytics/dedup.go:88-149 | Redis answers when it is up, the newest matching row otherwise |
| Dedup.FailoverDedupChecker.CheckAndRecord | apps/api/internal/analytics/dedup.go:73-103 | an accepted event is marked and recorded |
| DedupLaws.KeyIsIdentity | apps/api/internal/analytics/dedup.go:73-86 | two events share a Redis key if and only if they are the same open or page view |
| DedupLaws.DuplicateExactly | apps/api/internal/analytics/dedup.go:56-149 | opens are held to the configured open window, 30 minutes without one, and page views to the page window, 5 minutes without one |
| DedupLaws.UuidIsFiveGroups | apps/api/internal/analytics/dedup.go:105-132 | the ids that the database accepts are five groups of hexadecimal digits |
| DedupLaws.BadIdsExactly | apps/api/internal/analytics/dedup.go:105-149 | an id is refused if and only if the database is asked and the link's, or a given document's, is not of that form |
| DedupLaws.AnswerByHistory | apps/api/internal/analytics/dedup.go:88-149 | each answer by what was accepted before, for any pattern of Redis being up or down |
| DedupLaws.SpacedExactly | apps/api/internal/analytics/dedup.go:88-149 | over any pattern of outages exactly the events less than a window after an accepted one are rejected, if and only if Redis knows enough whenever it answers and the database is asked about no unknown visitor too soon |
| DedupLaws.OneSwitchKeepsSpacing | apps/api/internal/analytics/dedup.go:95-102 | with Redis, with the database and across one switch to the database, exactly the events less than a window after an accepted one are rejected |
| DedupLaws.SwitchBackForgets | apps/api/internal/analytics/dedup.go:95-102 | after a switch back Redis accepts within the window of an event that the database accepted |
| DedupLaws.RedisAgreesWithDatabaseExactly | apps/api/internal/analytics/dedup.go:73-149 | the two checkers accept the same events of a stream if and only if events of unknown visitors are a window apart |
| RuleSet.NormalizeExtra | apps/api/internal/heat/ruleset.go:64-96 | each category holds the trimmed keywords of one of its spellings without repeats, in any order of the map |
| RuleSet.WithExtra | apps/api/internal/heat/ruleset.go:36-62 | the normalized extras go behind the existing ones, category by category |
| RuleSet.FilterKeywordsByLang | apps/api/internal/heat/lang.go:43-62 | the keywords of the language, all of them without one |
| RuleSet.MergePages | apps/api/internal/heat/ruleset.go:106-128 | filtered built-ins followed by the extras that are new up to case |
| RuleSet.Categories | apps/api/internal/heat/ruleset.go:130-139 | all categories in ascending order |
| RuleSet.MatchCategory | apps/api/internal/heat/ruleset.go:141-159 | the first category in order with a keyword in the title, and the empty one when the title is blank or holds none |
| RuleSet.IsKeyPage | apps/api/internal/heat/ruleset.go:161-164 | for rules whose categories have names, true if and only if the title is not blank and holds a keyword |
| RuleSet.Keywords | apps/api/internal/heat/ruleset.go:166-182 | the categories' keywords in order without repeats up to case |
| RuleSet.Patterns | apps/api/internal/heat/ruleset.go:184-192 | one pattern per keyword |
| RuleLaws.PatternsSelectKeyPages | apps/api/internal/heat/ruleset.go:161-192 | for keywords free of LIKE's special characters a title is a key page if and only if its lower case matches some pattern |
| RuleLaws.CategoryHitExactly | apps/api/internal/heat/ruleset.go:106-128 | a category is hit if and only if one of its built-in keywords of the language, English ones without and Chinese ones with a Han character, or one of its extras in any language occurs, whatever the case |
| RuleLaws.MatchExactly | apps/api/internal/heat/ruleset.go:141-159 | the answer is the least category that is hit so, and none when the title is blank |
| RuleLaws.FirstSpellingStays | apps/api/internal/heat/ruleset.go:36-62 | each keyword is listed where it comes first and as it is spelled there |
| RuleLaws.NormalizedExactly | apps/api/internal/heat/ruleset.go:64-96 | a category is left if and only if some spelling of its name comes with a keyword that is not blank |
| RuleLaws.PatternIsContainmentExactly | apps/api/internal/heat/ruleset.go:184-192 | a keyword's pattern means containment for all titles if and only if the keyword is free of LIKE's special characters |
| RuleLaws.ExtrasOnlyAdd | apps/api/internal/heat/ruleset.go:36-62 | with extras a title is a key page if and only if it was one before or holds an added keyword |
| RuleLaws.AnyLanguageIsEither | apps/api/internal/heat/lang.go:43-62 | without a language a title is a key page if and only if it is one in English or in Chinese |
| RuleLaws.KeywordsAreAll | apps/api/internal/heat/ruleset.go:166-182 | the flat list holds every keyword of every category up to case |
| RuleLaws.NormalizedIsTidy | apps/api/internal/heat/ruleset.go:64-96 | no unnamed or empty category, no empty and no repeated keyword |
| Months.MonthOf | apps/api/internal/analytics/partition.go:24-27 | the month that holds an instant |
| Months.FirstDayIsDayNumber | apps/api/internal/analytics/partition.go:24-27 | months counted one by one begin on the day that the closed formula of the Gregorian calendar gives |
| Months.AddMonthsLands | apps/api/internal/analytics/retention.go:65 | adding months to a date lands in that month or, past its end, in the next |
| Partitions.NameRoundTrip | apps/api/internal/analytics/partition.go:19-22 | a partition's name parses back to its upper bound |
| Partitions.EnsurePartitions | apps/api/internal/analytics/partition.go:29-47 | months from now to the target are added in order, none overlapping, up to the first whose statement fails or that overlaps another partition; without one all of them bear a partition of their name |
| Partitions.DropExpiredPartitions | apps/api/internal/analytics/partition.go:50-133 | only partitions whose name parses to an expired bound go and their rows with them, all such unless the catalog cannot be read or one of them cannot be dropped, which is when it fails; other names stay |
| Partitions.RetentionCleaner.RunOnce | apps/api/internal/analytics/retention.go:63-95 | every table is ensured and then cleaned, and a failure stops neither the round nor other tables |
| PartitionLaws.RoundCoversComingMonths | apps/api/internal/analytics/retention.go:63-71 | after a round without failures every instant to the end of the second month ahead lies in exactly one partition, where partitions named for a month cover it |
| PartitionLaws.RoundSucceedsExactly | apps/api/internal/analytics/retention.go:63-95 | for tables of monthly partitions a round fails only by a failing statement: no month is refused |
| PartitionLaws.RoundKeepsCatalog | apps/api/internal/analytics/retention.go:63-95 | every round, failing or not, keeps partitions disjoint, covering the month they are named for, and within the bound of their name |
| PartitionLaws.PromiseHoldsExactly | apps/api/internal/analytics/partition.go:85-125 | no row newer than the retention period ever expires if and only if no partition reaches past the bound in its name, less what the 64-bit product has lost |
| PartitionLaws.ParsesExactly | apps/api/internal/analytics/partition.go:88-108 | which names are judged and by which bound: the table and _y, a year, an m and a month from 1 to 12, each with any sign and white space in front, and anything behind |
| PartitionLaws.ExpiresExactly | apps/api/internal/analytics/partition.go:110-125 | a month's partition expires if and only if all its instants are longer ago than the retention period |
| PartitionLaws.MonthlyPromiseHoldsExactly | apps/api/internal/analytics/partition.go:110-125 | for partitions that cover their month that is if and only if the period is at most 106751 days |
| PartitionLaws.OldRowsGo | apps/api/internal/analytics/partition.go:110-133 | rows of a monthly partition that are 31 days past the retention period are gone after a round without failures |
| PartitionLaws.RecentRowsAreKept | apps/api/internal/analytics/retention.go:63-95 | over any run of inserts and rounds, failing or not, rows within the retention period are neither lost nor doubled, where no partition reaches past the bound in its name |

## Left out

- HTTP handlers, authentication middleware, mail, Stripe's client and signature check, and the permission guards (taken as passed).
- Rooms.RemoveDocument and the document half of SetResourceLocks are modelled as functions inside the runs of `RoomLaws`, not as methods.
- RoomLaws.RunKeepsSoundExactly: starts from a sound room, with operations one after another; `NewRooms` says which new rooms are sound, `RoomRaces` what overlapping operations do.
- RoomService.Room.RenameFolder: the database transaction is taken as atomic and the settings JSON as its folder list.
- RoomRaces: takes the queries that follow the list, on the document, its title and membership, as outcomes of the request; transactions are atomic.
- Rooms: failing statements inside a room operation (MoveDocument makes two updates outside a transaction), malformed document ids in SetResourceLocks, and the withdrawal of documents from the search corpus.
- ListCache: soft invalidation and its debounce key; a load of several queries is one atomic read, and a list counts as handed out when the reader has it from the cache or from the flight, whatever it does then.
- LiveSessions.SessionTable.Resolve: requests run one after another here, so no insert conflicts; the retry is in `LiveRaces`, whose statements are atomic. now() and the clock read the same instant.
- Funnel.BuildReadingFunnel: rates and averages are reals without rounding, their sums without 64-bit overflow.
- SessionCluster.ClusterPageViewsIntoSessions: int32 overflow of counters and durations.
- Accounts: access tokens and their blocklisting at logout, mail delivery, trial activation and invitations; bcrypt is a hash that matches its own password only; addresses arrive in canonical form.
- AuthRaces: the in-memory eviction as an interleaved step; a reset consumes its token before the two steps that are modelled.
- GoStrings: lower-casing beyond ASCII and the two other runes that lower to ASCII letters.
- Billing: decoding an event into its fields, and a commit that succeeds although its answer is lost; other writers of workspace_billing (plan changes, checkout) are not part of the runs.
- BillingLaws.RowsStaySound: says nothing of rows the applier never wrote.
- BillingLaws.ExactlyOnce: deliveries are handled one after another.
- OpenLaws.OneFirstOpenAndAForwardForEachOther: for opens one after another without failing queries; AlertsAddUp accounts for the failing ones, `OpenRaces` for overlapping ones.
- Dedup: an accepted event that is then refused for the link's access limit is not recorded; ids are in the form uuid.String gives.
- RuleSet: the built-in keywords are an input; NewRuleSet's fallback circle and locale detection.
- RuleLaws.PatternsSelectKeyPages: requires keywords with a character that is not white space, which normalizing gives for extras and the built-ins have.
- Partitions: clocks run in UTC from year 0 on; %d of Sscanf without its overflow check.
- heat.Compute, document overlays, CRM aggregation, calendar presets and configuration: small or routine.
- NormalizeDealRoomName: Unicode normalization is library code.
