# A verified model of shared bookmark sync

The system keeps a team's bookmarks as an ordered forest on a server and mirrors it into each user's
Chrome bookmark tree. This project models its hard parts in Dafny and proves what they promise.

Transactions, services and stores that the source updates in place are classes and methods here, each
proved against a function from old state to new state; the promises are lemmas about those functions.
Concurrent protocols are state machines whose steps interleave freely and may be cut off anywhere.

## What the modules hold

**The forest on the server.** `SiblingOrder`, `Ancestry` and `RowMoves` describe sibling groups ordered by
position, parent graphs and the row updates every transaction is made of. `Forest` has the six transactions
and the invariant every serial run keeps, `Transactions` says field by field when each is accepted and what it
stores, and `KeptRows` what a run leaves of every row; `BookmarkService` has the transactions as methods on two
tables. `Prepare` relates the prepare/apply path of a PATCH to the direct
update. `FolderTree` builds a tree from rows and shows that flattening takes it back. `ForestView` shows
which recorded events tell what happened, and `PatchEvents` what a PATCH records.

**The Chrome tree in the extension.** `ChromeTree` is Chrome's ordered tree with its move rule. `Mapping` is
the two-way mapping of ids. `Replay` and `ReplayRun` apply the server's events, each as one piece; `Echoes`
and `GatedReplay` add the receipts and the callbacks that gate the next event. `Clearing`, `Rebuild` and
`RebuildRun` empty a workspace folder and refill it from the tree the server sends. `ClosingReplay` is the
replay of the log that ends a rebuild: `Overlay` and `StaleReplay` say what becomes of old events in it, and
`Recovery` is the subtree recovery an event without its parent begins in its middle. `Projection` is the
stored state that these work on, updated in place. `Resync` puts them together over any serial run of the
server, and `FailingInputs` holds the inputs on which they fail.

**Doing things once.** `Idempotency` runs a command once per key; `EventLog` gives each workspace a gap-free
log; `RepeatedPatch` joins the first with `Prepare`: a PATCH sent twice is answered twice with one response.

**Sessions.** `RefreshTokens` and `RefreshRepository` rotate refresh tokens with reuse detection (refresh
token rotation, section 4.14.2 of RFC 9700); `Session` runs an extension against them over a network that
loses, delays and repeats messages.

**Repair in the extension.** `Planner` is the convergence planner, `Journal` its journal, `AutoRepair` the
bounded repair layer above it, `Coalesce` the coalesced tasks it runs through.

**The limiter.** `RateLimit` is the token bucket per address with eviction.

## What turned out not to hold, and exactly when it does

Each item names the theorem with the exact condition and, where there is one, the lemma with a failing input.

- A recorded event describes the change of the forest if and only if it does not put a bookmark into a list
  that has folders: its position counts bookmarks only (`ForestView.EventDescribesTheForestIff`).
- Applied as one piece, an event is followed if and only if it creates no node beside exactly one sibling of
  its title, whose node it would take over, and removes no more than 500 nodes (`Replay.EventFollowedIff`,
  `FailingInputs.SecondOfTheTitle`, `FailingInputs.FullFolderStays`).
- With receipts and callbacks, an event is followed quietly if and only if it does not both move and retitle a
  node: its one receipt records the move, and the retitling callback does not match it
  (`Echoes.EffectSettlesIff`, `GatedReplay.RoundFollowedIff`). The tree is right all the same, but the rejected
  callback is captured as a change of the user's own, which the extension then owes the server
  (`Echoes.EchoIsOwedIff`, `GatedReplay.RoundOwesIff`). No repair is armed for such a pause
  (`AutoRepair.UntoldPauseWaits`); a retry resumes behind the event and sends the echo, which asks for what the
  server has if the handler read the node after the move, and moves it back if before
  (`GatedReplay.RetrySendsTheEcho`).
- A removal of more than 500 nodes pauses, but the cursor moves past it; after a retry the nodes stay
  (`GatedReplay.LargeRemovalIsSkipped`).
- A rebuild ends by replaying the log from its stored cursor onto the tree just built from a newer forest. With
  the cursor at that forest, or at zero, this ends in the server's last forest if and only if every event
  passes and, at zero, the history makes no twins (`Resync.CurrentRebuildClosesIff`,
  `Resync.FirstRebuildClosesIff`). With a cursor in between an old event may be refused by Chrome, which ends
  the rebuild, or be followed and quietly undo later ones (`FailingInputs.OldRenamingIsRefused`,
  `FailingInputs.OldOrderComesBack`); one whose parent has gone from the server too is never applied, but costs
  up to three recoveries, each with a replay of its own (`ClosingReplay.GoneForGoodIsPassedOver`). What all
  this comes to is a course of the log over forests: the closing replay ends in a picture of the server's last forest if and
  only if that course ends with it (`ClosingReplay.ClosingFollowsCourse`, `Resync.AnyRebuildClosesIff`).
- In a history with twins an old event takes over the node of a newer folder, and the two then share it; its
  removal takes the newer one away, which only a recovery brings back (`FailingInputs.FirstTwinTakesOver`).
- The row returned by the apply path carries the `updatedAt` read before the update. It equals the stored
  row if and only if the patch was a no-op or the time had not moved (`Prepare.ReturnedRowIsStoredIff`,
  `RepeatedPatch.RenameReturnsOldTime`).
- A patch that changes nothing is skipped by the apply path, which records no event, but rewrites the times of
  the sibling group on the direct path, which records one (`Prepare.FolderPathsAgree`,
  `PatchEvents.FolderPatchTold`).
- A repeated PATCH is replayed only as long as the row still has what the patch does not write and comes out at
  the same place; otherwise the same request under the same event id is a conflict
  (`RepeatedPatch.LaterRepeatIsReplayedIff`, `RepeatedPatch.MovedInBetweenConflicts`).
- Assigning a pair keeps the mapping a bijection if and only if the pair is new on both sides or already
  there (`Mapping.AssignKeepsTwoWayIff`).
- A login while a refresh is on its way to the server survives the answer if and only if the waiting token would
  be answered and its unrevoked family belongs to another user or device (`Session.LoginSurvivesRefreshIff`,
  `Session.LoginDuringRefreshIsLost`): a refusal clears storage without comparing the epoch. A refresh delivered
  before the login only loses it by a refusal of its own (`Session.LoginAfterDeliverySurvivesIff`). Between the
  refresh's read and write of storage a login is overwritten, and a cleared session comes back, unless the
  attempt was already saved (`Session.LoginInTheGapIsKeptIff`, `Session.ClearedSessionReturnsIff`).
- A replayed slice of the log is accepted if and only if nothing was committed between the read of the
  cursor and the read of the events (`EventLog.ReplayAcceptsIff`, `EventLog.CommitInBetweenIsRefused`).
- A request resent under its event id is always answered by its event as long as the id is used for one operation;
  used for another, it is refused by the unique key (`EventLog.RepeatsNeverCollide`,
  `EventLog.RecordIsRefusedIff`).
- A rebuilt journal can load paused again: `Journal.RebuiltLoadsUnpausedIff` says exactly when
  (`Journal.ManyDonePause`).
- A local change equal to an acknowledged one still kept is not captured again (`Journal.CaptureOwesIff`,
  `Journal.ThirdMoveIsNeverSent`).
- An automatic rebuild reads the journal again before it runs: it loses what was captured after it was armed and
  not acknowledged since (`AutoRepair.RebuildAfterGapLosesIff`, `AutoRepair.ChangeInTheGapIsDropped`).
- Eviction in the limiter is invisible if and only if a bucket refills within the idle time, which the
  settings in use meet (`RateLimit.EvictionIsInvisibleIff`, `RateLimit.SettingsInUse`).

## Model

| member | source | states |
|---|---|---|
| `SiblingOrder.ReorderedGroup` | backend/internal/bookmarks/service.go:645-685 | renumbering a sibling group gives it positions exactly 0..n-1 in an order that is the old one with the moving row put at its requested place; rows keep everything else, other rows are untouched |
| `SiblingOrder.ReorderedElsewhere` | backend/internal/bookmarks/service.go:645-685 | every other sibling group keeps its members, its order and its density |
| `SiblingOrder.SortedIsUnique` | backend/internal/bookmarks/service.go:651-658 | ORDER BY position, id determines one listing of a set of rows |
| `SiblingOrder.SortedByPositionThenId` | backend/internal/bookmarks/service.go:649-658 | a listing is in ascending order of position, and of id where positions are equal |
| `SiblingOrder.NewOrderListsGroup` | backend/internal/bookmarks/service.go:745-765 | the list that insertAt produces from the others is the old listing with the moving row taken out and put back: every row once |
| `RowMoves.CreatedEffect` | backend/internal/bookmarks/service.go:134-173 | an insert at position 0 followed by the reordering puts the new row at its clamped index and leaves the order of the others |
| `RowMoves.CreatedElsewhere` | backend/internal/bookmarks/service.go:134-173 | a creation changes no other sibling group |
| `RowMoves.MovedEffect` | backend/internal/bookmarks/service.go:194-266 | an update takes the row out of its old group, which closes up, and puts it at the requested index of the new one; only that row changes parent or content |
| `RowMoves.MovedElsewhere` | backend/internal/bookmarks/service.go:194-266 | an update changes no group but the one left and the one entered |
| `RowMoves.RemovedEffect` | backend/internal/bookmarks/service.go:308-350 | marking rows deleted and renumbering closes the gap in the group of the removed row; nothing else of any row changes |
| `RowMoves.RemovedElsewhere` | backend/internal/bookmarks/service.go:308-350 | the renumbering after a delete touches the one group only |
| `Ancestry.MovingKeepsAcyclicIff` | backend/internal/bookmarks/service.go:607-631 | re-parenting keeps the parent graph acyclic if and only if the new parent does not lie in the moved subtree, which is what the ancestry check asks |
| `Ancestry.SubtreeQuery` | backend/internal/bookmarks/service.go:615-622 | the recursive query, walked level by level, ends on an acyclic graph and returns exactly the nodes that climb to its root |
| `Ancestry.LevelsComplete` | backend/internal/bookmarks/service.go:615-622 | once a level of the walk is empty every descendant has been met |
| `Forest.LiveReachesIff` | backend/internal/bookmarks/service.go:615-622 | from a live folder the walk over live rows and the walk over all rows have the same ancestors, so the two recursive queries agree |
| `Forest.FolderPatchAcceptedIff` | backend/internal/bookmarks/service.go:194-245 | a folder update is accepted if and only if the row is live and writable, the name is not blank, the new parent is a live folder of the workspace and the move closes no cycle |
| `Transactions.FolderPatchStores` | backend/internal/bookmarks/service.go:194-269 | what an accepted PATCH stores, by its fields: the parent given or the old one, the name given without its outer white space or the old one, the position given or the nearest one there is, by default the old one in the old list and the end of another; the list it enters, the list it leaves and every other row |
| `Transactions.FolderPatchRefusals` | backend/internal/bookmarks/service.go:194-228 | the error of a refused PATCH, by its fields: not found, forbidden, a parent that is not a live folder of the workspace, itself, below it, or a name of white space |
| `Transactions.NewFolderStores` | backend/internal/bookmarks/service.go:134-173 | when a new folder is accepted, with which error it is refused, and what it stores, by the fields of the request |
| `Transactions.FolderDeleteRefusals` | backend/internal/bookmarks/service.go:308-327 | a delete is refused exactly without a live folder, or without the right to write |
| `Transactions.NewBookmarkStores` | backend/internal/bookmarks/service.go:371-414 | the same for a new bookmark |
| `Transactions.BookmarkPatchStores` | backend/internal/bookmarks/service.go:435-515 | what an accepted PATCH of a bookmark stores, by its fields: folder, title, url and position |
| `Transactions.BookmarkPatchAcceptedIff` | backend/internal/bookmarks/service.go:435-484 | when a PATCH of a bookmark is accepted, and with which error it is refused, by its fields |
| `Transactions.FolderPatchTouches` | backend/internal/bookmarks/service.go:645-685 | around the row it is about, a PATCH renumbers and stamps the live rows of the two lists and touches no other row |
| `Transactions.BookmarkPatchTouches` | backend/internal/bookmarks/service.go:687-727 | the same for bookmarks |
| `Transactions.FolderDeleteTouches` | backend/internal/bookmarks/service.go:319-347 | what the delete of a folder writes: the live folders below it and live bookmarks in them marked at its time, its siblings renumbered, and nothing else, in particular nothing deleted before |
| `Transactions.BookmarkDeleteIsExact` | backend/internal/bookmarks/service.go:554-578 | when a bookmark is deleted; its list closes up and nothing else changes |
| `Forest.CreateFolderKeepsInv` | backend/internal/bookmarks/service.go:134-173 | creating a folder keeps the forest invariant |
| `Forest.UpdateFolderKeepsInv` | backend/internal/bookmarks/service.go:194-266 | updating or moving a folder keeps the forest invariant |
| `Forest.DeleteFolderIsExact` | backend/internal/bookmarks/service.go:308-350 | deleting a folder marks exactly the live folders at or below it and exactly the live bookmarks in them, and changes nothing else but positions and times |
| `Forest.SubtreeMeetsSiblingsOnce` | backend/internal/bookmarks/service.go:308-350 | among its siblings only the deleted folder itself is in its subtree, so closing one gap is enough |
| `Forest.DeleteFolderKeepsInv` | backend/internal/bookmarks/service.go:308-350 | deleting a folder keeps the forest invariant: no live row is left under a deleted one and every group stays dense |
| `Forest.CreateBookmarkKeepsInv` | backend/internal/bookmarks/service.go:371-414 | creating a bookmark keeps the forest invariant |
| `Forest.UpdateBookmarkKeepsInv` | backend/internal/bookmarks/service.go:435-512 | updating or moving a bookmark keeps the forest invariant |
| `Forest.DeleteBookmarkKeepsInv` | backend/internal/bookmarks/service.go:554-578 | deleting a bookmark keeps the forest invariant |
| `Forest.CommitKeepsInv` | backend/internal/bookmarks/service.go:134-578 | any one of the six transactions, committed or refused, keeps the forest invariant |
| `Forest.EveryRunKeepsInv` | backend/internal/bookmarks/service.go:134-578 | in every state of every serial run live parents are live and in the same workspace, the parent graph with deleted rows included is acyclic, and every live sibling group has positions 0..n-1 |
| `Prepare.SortedScopeKeys` | backend/internal/bookmarks/prepare.go:80-92 | the lock keys come out strictly ascending and are exactly the given scopes, so locks are taken in one global order |
| `Prepare.CanonicalKeysAreUnique` | backend/internal/bookmarks/prepare.go:94-104 | two canonical key lists are equal if and only if they hold the same scopes |
| `Prepare.NoDriftMeansSerialFolder` | backend/internal/bookmarks/prepare.go:108-177 | whatever other transactions committed between the discovery read and the locks, an accepted preparation is the preparation on the locked state; a changed parent is refused as drift |
| `Prepare.NoDriftMeansSerialBookmark` | backend/internal/bookmarks/prepare.go:273-347 | the same for bookmarks |
| `Prepare.PatchPlaces` | backend/internal/bookmarks/service.go:235-255 | without a position a patched row keeps its place, or goes to the end of its new list; with one it stands at that index among the others, forced into range |
| `Prepare.PatchLeavesOthers` | backend/internal/bookmarks/service.go:235-255 | the list a patched row leaves is closed up, and all lists but the two are unchanged |
| `Prepare.AppliedIsMoved` | backend/internal/bookmarks/service.go:271-288 | applying a prepared row writes what the direct update writes when given the normalised position |
| `Prepare.NoOpMoveKeepsPositions` | backend/internal/bookmarks/prepare.go:151-176 | a patch that prepares to the stored row changes nothing but times when sent down the direct path |
| `Prepare.FolderPathsFailAlike` | backend/internal/bookmarks/prepare.go:108-150 | prepare and direct update of a folder refuse the same inputs with the same error |
| `Prepare.BookmarkPathsFailAlike` | backend/internal/bookmarks/prepare.go:273-322 | prepare and direct update of a bookmark refuse the same inputs with the same error |
| `Prepare.FolderPathsAgree` | backend/internal/bookmarks/prepare.go:108-177 | otherwise prepare then apply reaches the store of the direct update; a no-op patch is skipped and leaves the store as it was; the row returned is the stored one but for updatedAt |
| `Prepare.BookmarkPathsAgree` | backend/internal/bookmarks/prepare.go:273-347 | the same for bookmarks |
| `Prepare.ReturnedRowIsStoredIff` | backend/internal/bookmarks/service.go:271-288 | the folder row apply returns is the row stored if and only if the patch was a no-op or the row already had the current time |
| `Prepare.ReturnedBookmarkIsStoredIff` | backend/internal/bookmarks/service.go:517-534 | the same for bookmarks |
| `Prepare.FinalPositionIsStable` | backend/internal/bookmarks/prepare.go:151-176 | a defaulted and clamped position prepares to itself on the state left by applying it |
| `Prepare.RepeatedFolderPatchIsRecognised` | backend/internal/bookmarks/prepare.go:108-177 | preparing the same folder patch on the state it left is accepted, is a no-op and has the same fingerprint |
| `Prepare.RepeatedBookmarkPatchIsRecognised` | backend/internal/bookmarks/prepare.go:273-347 | the same for bookmarks |
| `RepeatedPatch.SecondCallIsTold` | backend/internal/httpapi/idempotency.go:176-211 | after a committed call, a call under the same key is told the stored result if it prepared the same row and a conflict otherwise; its command is not run |
| `RepeatedPatch.FolderPatchSentTwice` | backend/internal/sync/bookmark_routes.go:64-86 | a folder PATCH sent again under its event id is answered with the stored response of the first |
| `RepeatedPatch.BookmarkPatchSentTwice` | backend/internal/sync/bookmark_routes.go:173-200 | the same for bookmark PATCHes |
| `RepeatedPatch.LaterRepeatIsReplayedIff` | backend/internal/sync/bookmark_routes.go:64-86 | with other transactions in between, the repeat is an error if it is no longer accepted; otherwise it is replayed if and only if the row is still in its workspace, what the patch does not write still has the value it had, and the position comes out the same, and refused as a conflict otherwise |
| `RepeatedPatch.LaterBookmarkRepeatIsReplayedIff` | backend/internal/sync/bookmark_routes.go:173-200 | the same for bookmarks |
| `RepeatedPatch.MovedInBetweenConflicts` | backend/internal/sync/bookmark_routes.go:64-86 | the failing input: a folder with a sibling is renamed without a position and then moved in its list; the rename sent again is a conflict |
| `RepeatedPatch.RenameReturnsOldTime` | backend/internal/bookmarks/service.go:271-288 | the failing input of the returned row: renaming a folder written earlier stores the new time and returns the old one |
| `BookmarkService.SelectOrdered` | backend/internal/bookmarks/service.go:651-658 | the ordered query returns the sorted listing of the set |
| `BookmarkService.InsertAt` | backend/internal/bookmarks/service.go:745-765 | the shifting loop inserts the moving id at the clamped index |
| `BookmarkService.ReorderSiblings` | backend/internal/bookmarks/service.go:645-685 | select, insert and write back, as in both reorder methods, is the reordering of the specification |
| `BookmarkService.SoftDeleteFolder` | backend/internal/bookmarks/service.go:308-350 | the two recursive walks and the marks they set delete what the specification deletes |
| `BookmarkService.Service.constructor` | backend/internal/bookmarks/service.go:107-113 | an empty service satisfies the forest invariant |
| `BookmarkService.Service.CreateFolderTx` | backend/internal/bookmarks/service.go:134-173 | commits exactly the specified creation, or changes nothing and reports the specified error; keeps the invariant |
| `BookmarkService.Service.UpdateFolderTx` | backend/internal/bookmarks/service.go:194-266 | commits exactly the specified move, or changes nothing and reports the specified error; keeps the invariant |
| `BookmarkService.Service.DeleteFolderTx` | backend/internal/bookmarks/service.go:308-350 | commits exactly the specified delete, or changes nothing; keeps the invariant |
| `BookmarkService.Service.CreateBookmarkTx` | backend/internal/bookmarks/service.go:371-414 | commits exactly the specified creation, or changes nothing; keeps the invariant |
| `BookmarkService.Service.UpdateBookmarkTx` | backend/internal/bookmarks/service.go:435-512 | commits exactly the specified move, or changes nothing; keeps the invariant |
| `BookmarkService.Service.DeleteBookmarkTx` | backend/internal/bookmarks/service.go:554-578 | commits exactly the specified delete, or changes nothing; keeps the invariant |
| `BookmarkService.Service.ApplyPreparedFolderPatchTx` | backend/internal/bookmarks/service.go:271-288 | a prepared patch leaves the tables of the direct update, a no-op leaves them alone, and the prepared row is returned |
| `BookmarkService.Service.ApplyPreparedBookmarkPatchTx` | backend/internal/bookmarks/service.go:517-534 | the same for bookmarks |
| `FolderTree.IndexFolders` | backend/internal/workspaces/service.go:1083-1103 | the first loops give every folder a bare node and every parent the list of its children in row order |
| `FolderTree.AttachBookmarks` | backend/internal/workspaces/service.go:1105-1115 | every bookmark is appended to its own folder, in row order |
| `FolderTree.BuildAll` | backend/internal/workspaces/service.go:1117-1134 | the recursive build of a sibling list ends and gives each node its row, its bookmarks and its children, all in row order |
| `FolderTree.BuildFolderTree` | backend/internal/workspaces/service.go:1083-1134 | on the rows of a forest the build ends and its result is the faithful tree of the rows |
| `FolderTree.FlattenInvertsBuild` | backend/internal/workspaces/service.go:1083-1134 | flattening the built tree gives every folder row with its parent and every bookmark row exactly once |
| `FolderTree.TreeRowsOfForest` | backend/internal/workspaces/service.go:601-658 | the rows read from a store with the forest invariant meet the demands of the build, and siblings come in the store's order |
| `ForestView.EventDescribesTheForestIff` | backend/internal/sync/postgres.go:80-171 | the event recorded with a committed command, applied to the live ordered forest before it, gives the forest after it, if and only if it does not put a bookmark into a list with folders; a failed command, and any workspace but its own, stays as it was |
| `PatchEvents.FolderPatchTold` | backend/internal/sync/postgres.go:184-200 | a PATCH of a folder that changes nothing records nothing and leaves the tables alone; otherwise it records the event of the direct update, leaves its forest, and the event describes the change |
| `PatchEvents.BookmarkPatchTold` | backend/internal/sync/postgres.go:206-222 | the same for bookmarks; the event describes the change if and only if it does not put the bookmark into a list with folders |
| `KeptRows.CommitKeepsRows` | backend/internal/bookmarks/service.go:134-578 | no transaction takes a row out, moves it to another workspace or revives it |
| `ChromeTree.TranslatedMoveLands` | extension/src/background/chrome-bookmarks.ts:96-105 | with the translated index a Chrome move lands exactly at the final index asked for, for every index |
| `ChromeTree.RawMoveLandsIff` | extension/src/background/chrome-bookmarks.ts:96-105 | without the translation it does if and only if the move does not go forward inside its own list |
| `ChromeTree.CreateKeepsConsistent` | extension/src/background/chrome-bookmarks.ts:57-81 | creating a node at an index keeps the tree a tree |
| `ChromeTree.MoveKeepsConsistent` | extension/src/background/chrome-bookmarks.ts:107-118 | so does a move outside the moved subtree |
| `ChromeTree.RemoveKeepsConsistent` | extension/src/background/chrome-bookmarks.ts:133-144 | so does removing a subtree |
| `Clearing.RemovedStep` | extension/src/background/chrome-bookmarks.ts:156-174 | removing one child with all below it keeps the clearing on course: later children keep their subtrees |
| `Rebuild.ClearedIsSound` | extension/src/background/projection.ts:1081-1106 | a cleared workspace folder with an empty mapping is a picture of the forest with nothing in it; what was left under the folder is the user's own |
| `Replay.SettleIsPlaced` | extension/src/background/projection.ts:1431-1447 | whichever branch it takes, settling a mapped node leaves it at the asked index with the asked title and passes the final check |
| `Replay.UpsertOfNew` | extension/src/background/projection.ts:1347-1413 | the event of an unmapped node is created at its index and mapped, and the tree stays a picture of the forest |
| `Replay.UpsertOfKnown` | extension/src/background/projection.ts:1414-1453 | the event of a mapped node moves and retitles it in place, and the tree stays a picture of the forest |
| `Replay.ReuseBreaks` | extension/src/shared/projection-helpers.ts:52-67 | taking over the one existing sibling of the same title steals it from the node it stood for, so the mapping is no longer one to one |
| `Replay.RemovalOfKnown` | extension/src/background/projection.ts:1731-1750 | a removal takes exactly the pictured subtree out of tree and mapping, and is refused if and only if it covers more than the allowed number of nodes |
| `Replay.EventFollowedIff` | extension/src/background/projection.ts:1239-1334 | one event as one piece, receipts and callbacks aside: it is followed, leaving a picture of the forest after it, if and only if a new node has not exactly one sibling of its title and a removal takes at most 500 nodes |
| `Replay.TakenOverIff` | extension/src/shared/projection-helpers.ts:52-67 | a node is taken over for a new one if and only if it is the only one of its title and URL in the list |
| `Replay.SettlesIff` | extension/src/background/projection.ts:1436-1453 | a mapped node is settled if and only if the place is outside its own subtree and the position within the list; the check after the move never fails |
| `Replay.UpsertIsLostIff` | extension/src/background/projection.ts:2272-2305 | an upsert needs a recovery if and only if its parent is not mapped, or the parent's node or its own is gone |
| `Replay.MissingParentUnmaps` | extension/src/background/projection.ts:1655-1668 | a removal whose parent is missing takes exactly the node, what hangs below it and the parent out of the mapping, and leaves the tree alone |
| `Replay.EventFollowed` | extension/src/background/projection.ts:1239-1334 | one event as one piece, receipts and callbacks aside: where no two siblings share a title it is followed and the user's own folder is left alone |
| `Replay.TailKept` | extension/src/background/projection.ts:1155-1186 | replay never retitles the nodes the user keeps at the end of the workspace folder |
| `ReplayRun.ViewIsGood` | backend/internal/bookmarks/service.go:134-578 | the live rows of any store with the forest invariant form a forest in which every node is listed once under its parent |
| `ReplayRun.StepFollowed` | extension/src/background/projection.ts:928-932 | one committed command and the application of its event as one piece keep the tree a picture of the forest |
| `ReplayRun.ReplayFollowsServer` | extension/src/background/projection.ts:928-932 | applying the events of any serial run in order, each as one piece, turns a picture of the forest before it into a picture of the forest after it |
| `ReplayRun.EmptyIsPictured` | extension/src/background/projection.ts:1061-1153 | an empty workspace folder is a picture of the empty forest, so every run may start there |
| `Echoes.EffectSettlesIff` | extension/src/background/projection.ts:1436-1453 | the callbacks of moving or retitling a mapped node, in whichever order they come, consume its receipt, gate nothing and capture nothing if and only if it is not both moved and retitled |
| `Echoes.EchoIsOwedIff` | extension/src/background/projection.ts:648-675 | the handler of the retitling callback captures it as a change of the user's own, which is then owed to the server, if and only if the node is both moved and retitled |
| `GatedReplay.EveryInterleavingPictures` | extension/src/background/projection.ts:1239-1334 | however events and callbacks interleave, the tree is a picture of the forest at the cursor, or of the next one with the confirming callback still to come, no echo becomes an intent and the cursor never goes back; no event may both move and retitle |
| `GatedReplay.RoundAdvances` | extension/src/background/projection.ts:928-932 | from a calm state one event and one callback take the cursor over one more entry |
| `GatedReplay.PausedRunTouchesNothing` | extension/src/background/projection.ts:1239-1334 | over any steps from a pause on, tree and mapping stay as they are, and only callbacks already raised are handled |
| `GatedReplay.RoundFollowedIff` | extension/src/background/projection.ts:1436-1447 | an event of a log without twins and large removals is followed without a pause if and only if it does not both move and retitle a node |
| `GatedReplay.RoundOwesIff` | extension/src/background/projection.ts:476-502 | after an event and its callbacks a change of the node is owed to the server, though the user made none, if and only if the event both moves and retitles it |
| `GatedReplay.RetrySendsTheEcho` | extension/src/background/projection.ts:508-558 | a retry after such an event opens the gate behind it, with the tree still the picture, and sends the echo: what the server already has if the handler read the node after the move, and the old place otherwise, which moves the node back |
| `GatedReplay.LargeRemovalIsSkipped` | extension/src/background/projection.ts:1865 | a removal of more than 500 mapped nodes pauses the workspace but counts as applied: after a retry the gate is open, the cursor past it, and the removed nodes are still in the tree |
| `FailingInputs.SecondOfTheTitle` | extension/src/shared/projection-helpers.ts:52-67 | the failing input: the creation of a folder beside one of the same title is not followed |
| `FailingInputs.FullFolderStays` | extension/src/background/projection.ts:1865 | the failing input: a folder with 500 bookmarks is not removed |
| `Mapping.AssignKeepsTwoWayIff` | extension/src/shared/mapping.ts:3-13 | assigning a pair keeps the mapping a bijection if and only if both ids are new or the pair is already there |
| `Mapping.AllChromeDroppedRestricts` | extension/src/shared/mapping.ts:15-26 | removing Chrome ids one by one, in any order and with repeats, removes exactly their pairs |
| `Mapping.AllBackendDroppedRestricts` | extension/src/shared/mapping.ts:28-33 | removing backend ids one by one removes exactly their pairs |
| `Mapping.ProjectionMaps.SetMapping` | extension/src/shared/mapping.ts:3-13 | writes the three records as specified |
| `Mapping.ProjectionMaps.Clear` | extension/src/background/projection.ts:1086-1088 | leaves the three records empty |
| `Mapping.ProjectionMaps.RemoveMappingByBackendId` | extension/src/shared/mapping.ts:35-43 | deletes the backend id and the Chrome id recorded for it from the three records |
| `Mapping.ProjectionMaps.RemoveMappingsByBackendIds` | extension/src/shared/mapping.ts:28-33 | does so for each id in turn |
| `Mapping.ProjectionMaps.RemoveMappingsByChromeIds` | extension/src/shared/mapping.ts:15-26 | deletes each Chrome id and the backend id recorded for it in turn |
| `Projection.Workspace.MoveNode` | extension/src/background/chrome-bookmarks.ts:107-118 | changes the tree as Chrome's move does or reports its refusal and changes nothing |
| `Projection.Workspace.CreateNode` | extension/src/background/chrome-bookmarks.ts:57-81 | changes the tree as Chrome's create does or reports its refusal and changes nothing |
| `Projection.Workspace.SettleNode` | extension/src/background/projection.ts:1431-1453 | retitles, moves by the translated index and checks where the node landed, as specified |
| `Projection.Workspace.ApplyUpsert` | extension/src/background/projection.ts:1347-1453 | carries out an upsert event on tree and mapping exactly as the replay theorem assumes |
| `Projection.Workspace.ApplyRemoval` | extension/src/background/projection.ts:1731-1750 | carries out a removal exactly as the replay theorem assumes, forgetting the mapped ids one by one; a refusal changes nothing |
| `Projection.Workspace.RemoveSubtree` | extension/src/background/chrome-bookmarks.ts:133-144 | collects the ids of a subtree and removes it, leaving the tree Chrome leaves |
| `Projection.Workspace.ClearChildren` | extension/src/background/chrome-bookmarks.ts:156-174 | leaves exactly the excluded children in their order, removes everything below the others, returns exactly the removed ids and touches no other list |
| `Projection.Workspace.MaterializeBookmark` | extension/src/background/projection.ts:1225-1237 | places one bookmark as the rebuild theorem assumes |
| `Projection.Workspace.MaterializeFolder` | extension/src/background/projection.ts:1205-1223 | places a folder, its bookmarks and its subfolders in the order the rebuild theorem assumes; the first refusal ends it |
| `Projection.Workspace.MaterializeFolders` | extension/src/background/projection.ts:2642-2654 | does so for a list of folders |
| `Projection.Workspace.Rematerialize` | extension/src/background/projection.ts:1081-1115 | emptying the maps, clearing the folder but for the user's own and creating what was sent is never refused and leaves a picture of exactly that tree, the user's folder behind it with its title |
| `Projection.CollectBackendIds` | extension/src/shared/projection-helpers.ts:3-20 | collects exactly the folder and bookmark ids of the tree |
| `Projection.ForgottenSubtree` | extension/src/background/projection.ts:1878-1896 | forgetting the mapped nodes of a removed subtree one by one forgets exactly the subtree |
| `Rebuild.OneCreation` | extension/src/background/projection.ts:1205-1237 | a creation at an index within its list is accepted by Chrome and keeps tree and mapping a picture |
| `Rebuild.FoldersGrow` | extension/src/background/projection.ts:1205-1223 | placing a list of folders grows the picture by exactly their ids and leaves each folder with its folders first and its bookmarks after them |
| `Rebuild.RebuildPicturesTree` | extension/src/background/projection.ts:1205-1237 | filling an empty workspace folder from a dense tree: every index is in range, each folder lists its folders in order and then its bookmarks in order, the mapping is a bijection and its backend ids are exactly the ids of the tree |
| `RebuildRun.SentIsDense` | backend/internal/workspaces/service.go:601-658 | the tree the server sends for a store with the forest invariant is dense |
| `RebuildRun.SentEntries` | backend/internal/workspaces/service.go:601-658 | it holds every live row of the workspace exactly once |
| `RebuildRun.SentIds` | extension/src/shared/projection-helpers.ts:3-20 | its ids are exactly the live folders and bookmarks of the workspace |
| `RebuildRun.RebuildPicturesForest` | extension/src/background/projection.ts:1113-1115 | creating what the server sends in a cleared workspace folder: no creation is refused, and the tree is then a picture of the forest it was read from, whatever kinds its lists mix; the user's own folder keeps its title |
| `Overlay.OverlayFollows` | extension/src/background/projection.ts:1117-1121 | an old event applied to a forest in which what was to come already stands behind what has come is the event applied to what has come |
| `ClosingReplay.ClosesIff` | extension/src/background/projection.ts:1117-1121 | onto a picture of the forest at the cursor, the log telling the forests from there, the closing replay ends in a picture of the last forest if and only if no removal is too large, the callbacks of each change come in time, and only the last event both moves and retitles |
| `ClosingReplay.NothingToReplay` | extension/src/background/projection.ts:1117-1121 | with the whole log behind the cursor the closing replay changes nothing |
| `ClosingReplay.FullReplayClosesIff` | extension/src/background/projection.ts:1117-1121 | with nothing behind the cursor the whole history is replayed onto the tree built from any of its forests; where that makes no twins it ends in a picture of the last forest if and only if every event passes |
| `ClosingReplay.LateReplayClosesIff` | extension/src/background/projection.ts:1117-1121 | the same with the cursor at the forest the tree was built from |
| `StaleReplay.PictureDecides` | extension/src/background/projection.ts:1239-1334 | a tree is a picture of one forest only |
| `StaleReplay.UpsertRefused` | extension/src/background/chrome-bookmarks.ts:57-118 | an old upsert whose index is out of range in the forest it meets, or whose parent lies below the node there, is refused by Chrome |
| `Recovery.RefillPictures` | extension/src/background/projection.ts:2383-2426 | with everything mapped below the workspace folder, a subtree recovery anchored there forgets the entity, clears the folder but for the user's own, is refused no creation and leaves a picture of exactly the tree the server sent |
| `Recovery.PictureIsRefillable` | extension/src/background/projection.ts:2308-2340 | every picture of a forest is such a tree, whatever entity is forgotten first |
| `Recovery.DisownedIs` | extension/src/background/projection.ts:2308-2340 | what a recovery forgets first: the node, what hangs below it, and its parent if and only if that is not there |
| `Recovery.GoneParentIsRootAnchored` | extension/src/background/projection.ts:2600-2640 | under a parent the server no longer has, a recovery is anchored at the workspace folder for every bookmark, and for every folder that has gone too or stands at the top |
| `ClosingReplay.LoopFollows` | extension/src/background/projection.ts:2342-2433 | the loop of a rebuild, with the loops of the recoveries begun in it, does what the course of the log on forests says: an event met by a forest without its parent has the server's forest put in place of that one and is met again, three times at most, and is then passed over |
| `ClosingReplay.ClosingFollowsCourse` | extension/src/background/projection.ts:1117-1121 | the closing replay from any cursor, onto a picture of any forest, is given up where the course is, and otherwise ends in a picture of the forest the course ends with |
| `ClosingReplay.ClosesInIff` | extension/src/background/projection.ts:1117-1121 | it ends in a picture of the forest asked for if and only if the course ends with that forest |
| `ClosingReplay.GoneForGoodIsPassedOver` | extension/src/background/projection.ts:2191-2215 | an upsert whose parent the server no longer has either is never applied: what follows it is met by the server's forest, or, with no recovery left, by the forest it met |
| `ClosingReplay.BygonesAreBygones` | extension/src/background/projection.ts:2191-2215 | with only events ahead of the cursor that concern nothing the server still has, a rebuild ends with the forest it was built from |
| `FailingInputs.OldRenamingIsRefused` | extension/src/background/projection.ts:1117-1121 | the failing input: three folders are made, the last renamed, all removed; a rebuild with the cursor before the renaming is refused |
| `FailingInputs.OldOrderComesBack` | extension/src/background/projection.ts:1117-1121 | the failing input: three folders are made and a fourth in front; a rebuild with the cursor after the second ends unrefused in an order that never was |
| `FailingInputs.FirstTwinTakesOver` | extension/src/background/projection.ts:2294-2303 | the failing input: a folder is made, removed, and another of its title made; in the first rebuild the old creation takes over the new folder's node, and its removal removes that; the rebuild ends in a picture of the last forest if and only if a recovery is left for the third event |
| `Resync.RunIsTold` | backend/internal/sync/postgres.go:80-171 | the events a serial run records for a workspace tell its forests one after the other |
| `Resync.RunIsHistory` | backend/internal/bookmarks/service.go:134-578 | a run from an empty workspace is a history: what a forest still has was not removed before it and keeps its kind |
| `Resync.GatedReplayFollowsServer` | extension/src/background/projection.ts:918-936 | gated replay of a serial run keeps the tree a picture of the server's forest at the cursor, or of the next one with one callback to come |
| `Resync.RebuildThenReplay` | extension/src/background/projection.ts:1113-1115 | after a rebuild, applying the events of any serial run from there, each as one piece, leaves a picture of the server's forest at every step |
| `Resync.FirstRebuildClosesIff` | extension/src/background/projection.ts:1113-1121 | the first rebuild of a workspace while the server runs on: built from any of its forests, the closing replay ends in a picture of the server's last forest if and only if every event passes |
| `Resync.CurrentRebuildClosesIff` | extension/src/background/projection.ts:1113-1121 | the same with the cursor at the forest the server sent |
| `Resync.SentIsSent` | backend/internal/workspaces/service.go:601-658 | what the server sends for a store with the invariant is dense, names no id twice and shows the store's forest, as a recovery wants it |
| `Resync.AnyRebuildClosesIff` | extension/src/background/projection.ts:1113-1121 | and with the cursor anywhere, recoveries included, where no event is disputed: if and only if the course of the run's log, from the forest sent and the cursor on, ends with the server's last forest |
| `RefreshTokens.RotationNeverCollides` | backend/internal/auth/refresh_repository.go:105-120 | a rotated token is never one that is already stored |
| `RefreshTokens.OneUnretired` | backend/internal/auth/refresh_repository.go:69-120 | a family has exactly one unretired token, as many rotations from its first as the family's rotation count says |
| `RefreshTokens.ServeKeepsInv` | backend/internal/auth/refresh_repository.go:44-147 | create, refresh, reuse and logout keep: one chain of tokens per family ending in the unretired one, and at most one unrevoked family per user and device |
| `RefreshTokens.EveryServerRunKeepsInv` | backend/internal/auth/refresh_repository.go:44-147 | that holds in every state of every run |
| `RefreshTokens.RevokedForever` | backend/internal/auth/refresh_repository.go:69-120 | over any run a revoked family stays revoked, and a refresh with any of its tokens is refused and changes nothing |
| `RefreshTokens.RefreshSucceedsIff` | backend/internal/auth/refresh_repository.go:69-120 | a refresh succeeds if and only if its family is not revoked and its token is current, or is retried by the attempt that retired it inside the window; any other use of a retired token revokes the family |
| `RefreshTokens.RetriedWithinAMinuteIff` | backend/internal/auth/refresh_repository.go:69-120 | a rotated token presented again is answered with the same new token if and only if the attempt is the same and less than 60 seconds have passed; otherwise its family is revoked for reuse |
| `RefreshTokens.AnswerIsChild` | backend/internal/auth/refresh_repository.go:69-120 | an answered refresh has retired its token, and the answer is the token it was rotated to |
| `RefreshTokens.LogoutRevokesIff` | backend/internal/auth/refresh_repository.go:126-147 | a logout succeeds if and only if the token is known for the client and its family not revoked; then exactly the families of its user and device are revoked, and a refresh with any token of theirs is refused |
| `RefreshTokens.RevokeAllRevokes` | backend/internal/auth/refresh_repository.go:148-151 | revoking a user revokes exactly his families, and a refresh with any token of theirs is refused |
| `RefreshTokens.LoginStartsFamily` | backend/internal/auth/refresh_repository.go:44-63 | a login succeeds exactly for a known device of the user and client; it revokes exactly the families of that user and device and starts one, whose first token can be refreshed |
| `RefreshRepository.Repository.RevokeDevice` | backend/internal/auth/refresh_repository.go:50-52 | revokes the unrevoked families of one user and device |
| `RefreshRepository.Repository.CreateTx` | backend/internal/auth/refresh_repository.go:44-63 | revokes the device's families and starts a new one, as specified, keeping the invariant |
| `RefreshRepository.Repository.RotateForClient` | backend/internal/auth/refresh_repository.go:69-120 | the row updates of rotation, retry and reuse are those specified, keeping the invariant |
| `RefreshRepository.Repository.LogoutForClient` | backend/internal/auth/refresh_repository.go:126-147 | the row updates of logout are those specified, keeping the invariant |
| `Session.DeliveryNeverLooksLikeReuse` | extension/src/shared/session.ts:89-113 | inside the window, delivering a request this client sent rotates or repeats but never takes the reuse branch |
| `Session.StepKeepsSafe` | extension/src/shared/session.ts:84-113 | every step of client, network and server, losses and crashes included, keeps: requests for one token carry one attempt, own tokens are retired only by own requests, and the stored token is the latest sent |
| `Session.EveryOrderlyRunIsSafe` | extension/src/shared/session.ts:84-113 | that holds in every state of every run that meets the window and logs in only while no refresh is under way |
| `Session.NoRunDetectsReuse` | backend/internal/auth/refresh_repository.go:69-120 | in such runs no family of this client is ever marked as reused |
| `Session.CurrentWithinReach` | extension/src/shared/session.ts:89-113 | the family's current token is the stored one, or the child of the stored one by the stored attempt |
| `Session.StepForgetsIff` | extension/src/shared/session.ts:89-124 | in a safe state a step takes the stored session away if and only if it clears the session or receives a refusal as unauthorized; another token takes its place only by a login or as the answer to the saved attempt |
| `Session.SessionIsKept` | extension/src/shared/session.ts:84-124 | over every orderly run: from a login on, through lost, late and repeated messages and crashes, a token of that login's family is stored until somebody clears the session, logs in again or revokes the family |
| `Session.EveryRunRecovers` | extension/src/shared/session.ts:84-113 | so from every state of every such run one undisturbed refresh stores the current token of the family logged in to last |
| `Session.RefreshRecovers` | extension/src/shared/session.ts:89-113 | one undisturbed refresh from any such state ends with the family's current token stored and no attempt pending |
| `Session.LoginSurvivesRefreshIff` | extension/src/shared/session.ts:97-124 | a login while a refresh is on its way to the server survives the answer, if delivered in the window, if and only if, before the login, the waiting token is one the server would answer, its family is unrevoked and belongs to another user or device |
| `Session.LoginAfterDeliverySurvivesIff` | extension/src/shared/session.ts:97-124 | a login between the delivery of a refresh and its answer survives that answer if and only if the token is known and its family unrevoked at the delivery, on whatever device |
| `Session.LoginDuringRefreshIsLost` | extension/src/shared/session.ts:97-124 | a login on the same device while a refresh waits is lost: the old family is revoked, the refusal clears the new session and leaves its family live on the server |
| `Session.LoginInTheGapIsKeptIff` | extension/src/shared/session.ts:89-96 | a login between the read and the write of the attempt is kept if and only if the attempt read was already saved; otherwise it is overwritten with the old token |
| `Session.ClearedSessionReturnsIff` | extension/src/shared/session.ts:89-96 | a session cleared in that gap stays cleared if and only if the attempt was already saved; otherwise it comes back |
| `Idempotency.ClaimFindsFirstResult` | backend/internal/httpapi/idempotency.go:176-211 | a call that finds a receipt is given the result of the one effect of the key's current life, or a conflict for another fingerprint; a receipt is never found in progress or failed |
| `Idempotency.StepKeepsInv` | backend/internal/httpapi/idempotency.go:133-230 | every step of any call, abort, cleanup and clock tick keeps the receipts, locks and committed effects in agreement |
| `Idempotency.EveryRunKeepsInv` | backend/internal/httpapi/idempotency.go:133-230 | that holds after every interleaving |
| `Idempotency.ExactlyOncePerLife` | backend/internal/httpapi/idempotency.go:133-230 | between two cleanups of a key its command commits at most once, at most one call is told it created something, and every replayed result is that of a committed command of the key |
| `Idempotency.CommittedADayApart` | backend/internal/httpapi/idempotency.go:133-230 | in every run the command of a key is committed a second time only 86400 seconds or more after the transaction of the first began |
| `Idempotency.ReceiptOutlasts` | backend/internal/httpapi/idempotency.go:73-90 | over any run a receipt stays as it is until it has expired |
| `Idempotency.CleanupRemovesIff` | backend/internal/httpapi/idempotency.go:73-90 | a cleanup removes a receipt it meets if and only if it has expired |
| `Idempotency.Executor.ExecutePrepared` | backend/internal/httpapi/idempotency.go:133-174 | one call leaves the receipts and gives the outcome that the interleaved model gives it when nothing comes in between |
| `EventLog.StepKeepsInv` | backend/internal/sync/postgres.go:305-457 | every step of a mutation, commit and abort keeps the committed log of each workspace gap-free |
| `EventLog.EveryRunKeepsInv` | backend/internal/sync/postgres.go:305-457 | however transactions interleave and abort, each workspace's log holds cursors 1..current once each in order, with no event id twice |
| `EventLog.LogGrowsByNewIds` | backend/internal/sync/postgres.go:385-457 | a step changes a log only by appending one event whose id is new to it |
| `EventLog.ResendChangesNothing` | backend/internal/sync/postgres.go:305-383 | no step of a call whose event id is already logged changes any log or cursor |
| `EventLog.ResendIsAnsweredByItsEvent` | backend/internal/sync/postgres.go:531-606 | the duplicate check of a resent request finds the logged event itself |
| `EventLog.CheckFindsIff` | backend/internal/sync/postgres.go:531-606 | the duplicate check finds nothing if and only if no event of that id is logged, or, unless something is created, none about that entity; what it finds is such an event |
| `EventLog.RecordIsRefusedIff` | backend/internal/sync/postgres.go:385-457 | with the row lock free an event is refused by the unique key if and only if its id is logged, and then nothing is changed |
| `EventLog.EveryRunHoldsLocks` | backend/internal/sync/postgres.go:520-529 | in every run a lock is held by a transaction in progress that asked for it: two with one lock key are never past their lock step together, and when all have ended no lock is left |
| `EventLog.RepeatsNeverCollide` | backend/internal/sync/postgres.go:305-343 | as long as an event id is used for one operation, resending it at any moment never runs into the unique key: a transaction past its check records its event under the next cursor as soon as the row lock is free |
| `EventLog.EnsureContiguous` | backend/internal/sync/replay.go:3-24 | accepts below the current cursor if and only if the events carry exactly the missing cursors in order |
| `EventLog.ReplayEvents` | backend/internal/sync/postgres.go:246-286 | returns the events after the cursor in order and accepts them by the same rule |
| `EventLog.ReplayAcceptsIff` | backend/internal/sync/postgres.go:246-286 | a replay below the current cursor is accepted if and only if nothing was committed between its two reads, and then it is exactly the missing slice |
| `EventLog.CommitInBetweenIsRefused` | backend/internal/sync/postgres.go:246-286 | the failing input: one transaction commits between the two reads |
| `EventLog.Store.RunMutation` | backend/internal/sync/postgres.go:305-343 | one mutation leaves the cursors and log and gives the outcome that the interleaved model gives it when nothing comes in between |
| `Planner.SortBy` | extension/src/background/convergence.ts:76 | sorting by id keeps the elements and puts them in ascending order |
| `Planner.CheckMapping` | extension/src/background/convergence.ts:68-73 | the mapping check passes if and only if every mapped pair is a desired node and a managed one, not the root, under a mapped parent |
| `Planner.Decide` | extension/src/background/convergence.ts:76-88 | for one desired node the choice is its one operation, none when the mapped node is in place, or a pause when the identity is open |
| `Planner.Unclaimed` | extension/src/background/convergence.ts:89-91 | what is left for deletion is exactly the managed nodes nobody claimed, each once |
| `Planner.Plan` | extension/src/background/convergence.ts:62-93 | the loop over desired nodes yields a sound outcome: the operations are exactly those asked for, by backend id and then deletions by Chrome id, and a pause has its reason |
| `Planner.NothingToDoIff` | extension/src/background/convergence.ts:62-93 | the plan is unpaused and empty if and only if the mapping is an isomorphism from the desired forest onto the managed nodes under the root |
| `Planner.AdoptionIsExclusive` | extension/src/background/convergence.ts:84-87 | an adopted node was unmapped and is adopted by one desired node only |
| `Planner.PlanPartitions` | extension/src/background/convergence.ts:62-93 | when unpaused every managed node but the root is exactly one of mapped, adopted or deleted, and every unmapped desired node gets exactly one operation |
| `Planner.PlannedIs` | extension/src/background/convergence.ts:62-93 | which operations a plan holds, by the fields of nodes and mapping: a mapped node that differs is reconciled, an unmapped one adopts the one unclaimed node like it or is created, and what nobody wants is deleted |
| `Planner.PausesIff` | extension/src/background/convergence.ts:62-93 | when planning pauses, and for which reason: a mapping that is not two-way, no managed root, an outdated pair, an unclear candidate, or more than 500 operations |
| `Planner.PlanIsDetermined` | extension/src/background/convergence.ts:76-91 | the input alone determines the operations of an unpaused plan and their order |
| `Journal.PruneKeeps` | extension/src/background/convergence.ts:156 | pruning keeps every pending receipt and the last twenty consumed ones, in order |
| `Journal.LoadPausesIff` | extension/src/background/convergence.ts:15-26 | a load leaves a journal paused if and only if it was paused, holds more than 500 operations or 100 intents, keeps more than 100 receipts, has an operation begun and not ended, or keeps a receipt with unsound signatures |
| `Journal.RetryResumesIff` | extension/src/background/convergence.ts:105-110 | a retry resumes the replay if and only if the journal is paused, no rebuild is asked for and nothing is pending; otherwise a paused journal asks for a rebuild |
| `Journal.RebuildKeeps` | extension/src/background/convergence.ts:111-116 | a rebuild keeps the last twenty consumed receipts, the acknowledged intents and the operations done, each in order, and nothing pending or owed |
| `Journal.GatePausesAt` | extension/src/background/convergence.ts:102-110 | a failed effect pauses the journal at its cursor; a retry then resumes unless a bootstrap is required or a receipt is pending |
| `Journal.OnlyRebuildLeaves` | extension/src/background/convergence.ts:102-116 | over any run a pause that asks for a rebuild is left by nothing but a rebuild or another failed effect |
| `Journal.NormalizeIsIdempotent` | extension/src/background/convergence.ts:15-26 | loading a loaded journal changes nothing |
| `Journal.StartedOperationPauses` | extension/src/background/convergence.ts:15-26 | a loaded journal with a started operation stays paused over every run of reducers in which nobody presses retry or rebuild |
| `Journal.RebuiltLoadsUnpausedIff` | extension/src/background/convergence.ts:111-116 | a rebuilt journal loads unpaused if and only if it has at most 500 done operations and 100 acknowledged intents and its last consumed receipts are validly signed |
| `Journal.ManyDonePause` | extension/src/background/convergence.ts:111-116 | the failing input: a journal with 501 done operations is rebuilt and loads paused again |
| `Journal.CaptureLocalIntent` | extension/src/background/convergence.ts:41-60 | the splicing loop captures a local change as specified |
| `Journal.MakeRoomTakesOldest` | extension/src/background/convergence.ts:41-60 | room is made by taking out the oldest acknowledged intents, and no more than needed for a hundred |
| `Journal.CaptureOverflowsIff` | extension/src/background/convergence.ts:41-60 | a new change pauses the journal if and only if a hundred intents are unacknowledged; it is kept all the same |
| `Journal.OnlyRebuildDropsOwed` | extension/src/background/convergence.ts:29-116 | an unacknowledged intent survives every reducer but a rebuild and its own acknowledgement |
| `Journal.OwedUntilAcknowledged` | extension/src/background/convergence.ts:29-116 | over any run without those two it is still there |
| `Journal.OwedAfterIff` | extension/src/background/convergence.ts:29-116 | over any run without a rebuild a change is owed at the end if and only if it was owed before and never acknowledged, or was captured anew and not acknowledged since |
| `Journal.CaptureOwesIff` | extension/src/background/convergence.ts:41-60 | a change just captured is owed if and only if no acknowledged intent with the same payload is still kept |
| `Journal.ThirdMoveIsNeverSent` | extension/src/background/convergence.ts:51 | the failing input: of a move there, back and there again, each acknowledged, the third is not captured |
| `Journal.IdsStayDistinct` | extension/src/background/convergence.ts:41-60 | intent ids stay distinct under every reducer |
| `Journal.PendingAfter` | extension/src/background/convergence.ts:29-39 | after any reducer the pending receipts are those before, less at most one consumed, or with one newly persisted, or none after a rebuild: a consumed receipt never becomes pending again |
| `Journal.OnePendingPerNode` | extension/src/background/projection.ts:1613-1625 | no node ever has two pending receipts |
| `Journal.PersistIsRefusedIff` | extension/src/background/projection.ts:1613-1622 | a receipt is not added if and only if its node has a pending one; the pending ones and the last twenty consumed stay |
| `Journal.PersistedIsAwaitedIff` | extension/src/background/convergence.ts:28-39 | a persisted receipt is consumed by the callback of its node if and only if that shows the node at the place, with the title and, up to its canonical form, the URL expected, and is of a move exactly when the receipt is |
| `Journal.EchoIsNeverAnIntent` | extension/src/background/convergence.ts:29-39 | of the reducers alone: in every run of them a callback for a node with a pending receipt becomes no intent, and takes exactly that receipt off the pending ones if and only if it confirms the effect; the handler then captures what they rejected (`Echoes.EchoIsOwedIff`) |
| `Journal.EveryRunKeepsOrder` | extension/src/background/convergence.ts:29-116 | in every run from the empty journal intent ids are distinct and a node has at most one pending receipt |
| `AutoRepair.EveryRunKeepsInv` | extension/src/background/projection.ts:2088-2189 | in every interleaving the claim that holds a workspace is the one live chain, and the attempts count the chains armed |
| `AutoRepair.BoundedRepair` | extension/src/background/projection.ts:2088-2189 | at most one chain holds a workspace, and at most two are armed between returns to live |
| `AutoRepair.PausedHasChainOrVerdict` | extension/src/background/projection.ts:2088-2146 | pausing leaves the workspace paused and either recovering with a chain in flight or degraded |
| `AutoRepair.SettledHasChainOrVerdict` | extension/src/background/projection.ts:2171-2189 | so does a chain that settles on a journal still paused |
| `AutoRepair.PausedIsAttended` | extension/src/background/projection.ts:2088-2189 | over any steps with the journal paused, its writes succeeding and no logout, a paused workspace is degraded, or recovering with a chain that holds it or is about to settle it |
| `AutoRepair.TakenChainIsSilent` | extension/src/background/projection.ts:2148-2169 | a chain whose claim a logout took begins no repair, never settles, and changes neither journal, health, budget nor claim |
| `AutoRepair.TwoRepairsThenDegraded` | extension/src/background/projection.ts:2088-2189 | the bound is met: two chains in a row may fail, and then the workspace is degraded |
| `AutoRepair.PausedJournalIs` | extension/src/background/projection.ts:2100-2105 | the journal a pause leaves: at the failed cursor, with the reason given, for a rebuild if and only if a receipt is pending, the caller asked for one, or the reason does |
| `AutoRepair.PauseArmsIff` | extension/src/background/projection.ts:2088-2130 | with nothing in flight a pause arms a chain if and only if attempts are left and the repair loses no unacknowledged intent; the chain retries where a retry would leave the pause and rebuilds otherwise |
| `AutoRepair.ArmedRebuildLosesNothing` | extension/src/background/projection.ts:2071-2086 | when a rebuild is armed nothing is unacknowledged |
| `AutoRepair.RebuildAfterGapLosesIff` | extension/src/background/projection.ts:2148-2156 | the chain reads the journal again before it rebuilds: a change is lost by it if and only if it was captured after the arming and not acknowledged since |
| `AutoRepair.ChangeInTheGapIsDropped` | extension/src/background/projection.ts:2148-2156 | the failing input: one local change captured between arming and rebuilding |
| `AutoRepair.UntoldPauseWaits` | extension/src/background/projection.ts:1606-1608 | a pause that is only written into the journal, as that of a rejected callback, arms no chain: over any steps but a pause or a return to live the workspace stays paused, with no chain and its health as it was |
| `AutoRepair.ArmingSpendsBudget` | extension/src/background/projection.ts:2088-2189 | without a return to live the attempts left never grow and each chain armed costs one |
| `Coalesce.EveryRunKeepsInv` | extension/src/background/projection.ts:938-975 | in every interleaving runs follow one another and a waiting request has a run to come or under way that began no earlier |
| `Coalesce.NoRequestIsLost` | extension/src/background/projection.ts:938-975 | runs never overlap, a request that returns normally was served by a complete run that began at or after it, and a free lock means nobody waits and nothing runs |
| `Coalesce.TwoRunsRelease` | extension/src/background/projection.ts:938-975 | from any state of any run, two more executions free the lock and let everybody go, and if neither fails everybody who waited is served |
| `Coalesce.OneMoreServesAll` | extension/src/background/projection.ts:938-975 | of a run under way that succeeds, however many requests came in, one more run serves them all |
| `Coalesce.ThreeRequestsTwoRuns` | extension/src/background/projection.ts:938-975 | three requests, the second and third during the first run, cost two runs |
| `RateLimit.EvictionIsInvisible` | backend/internal/httpapi/ratelimit.go:50-91 | for any nondecreasing clock and any mix of addresses, dropping idle buckets changes no answer when capacity is at most rate times the idle time |
| `RateLimit.EvictionIsInvisibleIff` | backend/internal/httpapi/ratelimit.go:50-91 | for a whole number of tokens that condition is necessary as well |
| `RateLimit.WindowIsBounded` | backend/internal/httpapi/ratelimit.go:50-77 | after any past, a window of length T admits at most capacity + rate * T requests of one address |
| `RateLimit.RefusedIff` | backend/internal/httpapi/ratelimit.go:50-77 | after any past, a request is refused if and only if for some window up to now the requests admitted in it, one more than them, exceed the capacity and what came in since |
| `RateLimit.RefusalsAreForgotten` | backend/internal/httpapi/ratelimit.go:63-77 | taking the refused requests out of the past changes no answer |
| `RateLimit.FarApartIsAdmitted` | backend/internal/httpapi/ratelimit.go:63-77 | an address whose requests are at least one token's time apart is always admitted |
| `RateLimit.SettingsInUse` | backend/internal/secrethide/handler.go:75 | with thirty tokens and half a token a second eviction is invisible and any minute admits at most sixty requests of one address |
| `RateLimit.IPRateLimiter.EvictIdleBuckets` | backend/internal/httpapi/ratelimit.go:82-91 | the loop deletes exactly the idle buckets of other addresses |
| `RateLimit.IPRateLimiter.Request` | backend/internal/httpapi/ratelimit.go:50-77 | answers and updates the table as specified |

## Left out

- Forest.EveryRunKeepsInv: transactions are taken one after the other; create and delete take no scope locks in the source, so two of them at once may leave equal positions, which the model does not show.
- Prepare.NoDriftMeansSerialFolder: the locks themselves are not modelled; what is shown is that nothing read before them decides the result.
- FolderTree.TreeRowsOfForest: folders and bookmarks are read from one state; the source reads them in two queries, between which a transaction may commit.
- ReplayRun.StepFollowed: one event is applied as one piece, without the receipts and callbacks around its Chrome calls; `GatedReplay` has them.
- ReplayRun.ReplayFollowsServer: events are applied as one piece each, without the stop at a pending receipt; `Resync.GatedReplayFollowsServer` has it. Replay alone is modelled, not the live path, on which a folder delete also runs a subtree recovery. No two siblings share a title; viewer exclusions are absent.
- Replay.EventFollowedIff: one event is applied as one piece; `Echoes` and `GatedReplay` have the receipts and callbacks of one event, the ownership records of a removal are not modelled. The removal of a bookmark whose mapped node is gone, which no picture has, only forgets it in the source and is refused here.
- Replay.EventFollowed: as `Replay.EventFollowedIff`.
- GatedReplay.EveryInterleavingPictures: callbacks come in the order Chrome raises them, and the user makes no change of his own meanwhile.
- GatedReplay.RoundOwesIff: the user may write to the workspace; for a viewer a rejected callback starts a resync instead.
- GatedReplay.RetrySendsTheEcho: the entity type recorded for a node, which a retry checks before it sends, is not modelled, nor is what the server does with the request; no further event is replayed before it is sent.
- ClosingReplay.ClosingFollowsCourse: an old event whose position falls among the user's own nodes at the end of the root is excluded; Chrome accepts it there. So are events that would take over a sibling of the same title, and the removal of a node from under a parent that is not there, which leaves the node unmapped.
- ClosingReplay.LoopFollows: recoveries anchored at the workspace folder only. One anchored at a folder below it refills that folder and may leave the moved node behind; it is met only by a folder event whose folder stands in another folder of the server's tree, or by an event whose parent is still there. The server stands still during the replay, and is reached. Callbacks come in time for the loop that applied the event or after the rebuild. The repair chain armed by a recovery that got stuck is not followed.
- ClosingReplay.ClosesInIff: the loops are functions on values; the steps they are made of are methods in `Projection`.
- Resync.FirstRebuildClosesIff: an entry of the log stands for a step of the run, empty where the step records nothing for the workspace, so a cursor counts steps.
- Rebuild.RebuildPicturesTree: viewer exclusions (`filterFoldersForProjection`) are absent.
- Session.EveryOrderlyRunIsSafe: one client at a time; the access token, storage failures and the pause handler are absent.
- Idempotency.ExactlyOncePerLife: response headers and the acknowledged cursor travel with the body as one value; the deprecated `Execute` wrapper is absent.
- Idempotency.CommittedADayApart: the day is counted from the beginning of the first transaction, where the database's clock stands during it, and not from its commit.
- EventLog.EveryRunKeepsInv: the payload, audit entry and activity record of an event are not modelled; the unique indexes are. The PATCH path, whose event is recorded under the idempotency key and only if the patch changes something, is not a step of this machine; `PatchEvents` says what it records.
- AutoRepair.EveryRunKeepsInv: what the repairs do is not modelled; they may leave any journal.
- Coalesce.NoRequestIsLost: `resetRuntimeState`, which clears the lock table, is not a step of the model.
- RateLimit.EvictionIsInvisible: floating point numbers are real numbers here.
- RateLimit.EvictionIsInvisibleIff: stated for whole capacities, as all callers pass.
- Ids are natural numbers instead of UUIDs and strings; only their equality and order are used. Advisory lock keys are an arbitrary function of what they are computed from, so collisions are covered.
- Token derivation, request fingerprints, receipt signatures and intent event ids are injective functions of what they are computed from; hashing is not modelled.
- `createdAt` columns, soft deletion of workspaces, and purging are left out; roles and URL validation are parameters of a call.
- Local mutations and the draining of intents, suppression timers and volatile gates are left out: they depend on wall-clock time.
- `requestEpoch` and `checkpoint` of the convergence journal are left out: each sets one field.
- HTTP handlers, WebSocket transport, cryptography, the admin application, secrets, invitations and activity listing are left out: they would add only easy members.
