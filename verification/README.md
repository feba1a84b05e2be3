# A verified model of composeapp

composeapp keeps Compose Apps in a store of content-addressed blobs and drives updates of them through a
persistent life cycle. This project models its core in Dafny and proves what that core keeps and promises:

| files | component |
|---|---|
| `Base.dfy`, `Reader.dfy`, `Tree.dfy` | shared values, the size- and digest-checking reader, Merkle trees and their traversal |
| `Loader.dfy`, `Integrity.dfy` | loading app and image trees from a store or a registry, and what a loaded tree says about the blobs |
| `AppStore.dfy`, `Closure.dfy` | the app store with its garbage collector, and the closure of the store under every operation |
| `Blobs.dfy`, `Progress.dfy`, `Fetch.dfy`, `Resume.dfy`, `ReadMonitor.dfy` | checking blobs, fetch accounting, the copy loop and its order, resumed attempts, the read-speed window |
| `Init.dfy`, `Rollback.dfy`, `Complete.dfy` | initializing, cancelling and completing an update |
| `Cycle.dfy`, `Instance.dfy` | an update from its initialization to its completion, and a concrete one whose fetch loses a blob |
| `UpdateLog.dfy`, `UpdateRuns.dfy` | the update log, the runner's operations, and runs with several runners and crashes |
| `ImageLoad.dfy`, `Reporter.dfy`, `Layers.dfy` | reading dockerd's messages, the progress reporter, the layer report |

Conventions of the model:

- SHA-256, JSON, YAML, tar and platform matching are arbitrary functions, fields of `Loader.Env`; every result
  holds for all of them. Where one digest must stand for one content, `Closure.CollisionFree` says so.
- All digests are sha256; a digest is the hexadecimal name of its blob file. Integers are unbounded: byte
  counts near the 64-bit range are not considered.
- A registry is a map from digests to bytes that announces true sizes. What a source that sends more than it
  announced does to the reader is the subject of `Reader.PanicExactly`.
- The clock, the network, docker and failing system calls are parameters, or a choice the statement quantifies over.
- Objects the program updates in place are classes; each of their methods is proved against a function of the old
  state, which the lemmas are about, and says besides, without it, what it promises. Loops over Go maps pick
  elements in any order.
- The reporter and the runs of several runners are state machines whose steps are the atomic actions (channel
  operations; an operation under the database lock, cut off by a crash after any write).

Where the code departs from what one would expect of it, the model follows the code, and the result says exactly
when the expectation holds:

- A successful fetch leaves all blobs of the update good exactly when those recorded as fetched before it were good
  (`Fetch.FetchSucceedsExactly`). An interrupted fetch can record an invalid file, or a file it then deletes, as
  fetched (`Fetch.InvalidBlobIsTakenForFetched`, `Fetch.CommittedBlobIsLost`); it keeps its records true whatever
  happens exactly when no file is there for a blob still to fetch (`Fetch.InterruptedFetchKeepsRecordsExactly`).
- So a fetch resumed after two interruptions can succeed without a mandatory blob, and leave the store open
  (`Rollback.TwoInterruptionsBreakClosure`). It closes the store exactly when no mandatory blob recorded as fetched
  has lost its file (`Rollback.InitAndFetchKeepClosed`), which one interruption cannot bring about
  (`Rollback.OnceInterruptedKeepsClosed`) and a new initialization repairs (`Rollback.InitAgainRepairs`). On a concrete
  update this is carried through to the end (`Instance.SucceedsWithoutManifest`).
- One hundred percent does not mean committed (`Progress.FullBeforeCommit`, `Progress.CommittedExactly`). A fetch cut
  off there leaves its record Fetched with its apps not filed (`Cycle.FetchedButNotFiled`), and completing such an
  update sweeps its blobs (`Complete.UnfiledUpdateIsSwept`, `Complete.SurvivesCompleteExactly`). So does completing one
  that an initialization with status check took past fetching (`Cycle.InitSkipsFiling`).
- A manifest or image root of exactly the size limit loads from a registry but not from the store, so that its
  app is not complete after a fetch (`Closure.FetchedAppComplete`).
- The blob check ignores trailing bytes that a limited read rejects (`Blobs.PaddedBlobPassesButDoesNotRead`), so a
  padded app manifest or image root is never fetched again and keeps its app from loading
  (`Loader.CoreReload`, `Rollback.PaddedManifestBreaksClosure`).
- Which descriptor of a layer is reported can depend on the order of iteration: exactly when two services' manifests
  give one layer digest different descriptors (`Layers.ReportIsDeterminedExactly`).
- Cancel leaves the `uri` entries of the apps whose blobs it deletes (`Closure.CancelKeepsClosedExactly`,
  `Rollback.CancelAfterFetchExactly`, `Rollback.CancelAfterFetchBreaksClosure`), and its progress does not always reach 100 (`Rollback.CancelProgressExactly`).
- A record left cancelling can neither be resumed nor replaced (`UpdateRuns.CancellingForever`).
- A stale runner can revive a final record or file its own under another key (`UpdateRuns.RevivedExactly`,
  `UpdateRuns.TwoRunnersReviveCanceled`, `UpdateRuns.MisfiledExactly`, `UpdateRuns.TwoRunnersMisfile`).
- Failures are counted by key suffix, which also matches some longer client references (`UpdateLog.MatchesExactly`).
- The dockerd machine panics on a layer of a single message, and on a surplus message
  (`ImageLoad.SingleMessageLayerPanics`, `ImageLoad.SurplusMessagePanics`); `ImageLoad.PanicsExactly` says for every
  stream whether it does.

## Model

| member | source | states |
|---|---|---|
| `Reader.SecureReader.Read` | pkg/compose/reader.go:86-121 | feeds the digest exactly the bytes handed out; at the end the hashed bytes are the visible prefix of the source, and the ending is the one a reading of the whole source must have |
| `Reader.ReadAll` | pkg/compose/reader.go:63-121 | draining gives the same bytes or the same error for every split of the source into pieces and every sequence of positive buffer sizes |
| `Reader.CleanWithExpectedSize` | pkg/compose/reader.go:163-176 | with an expected size, clean iff the source has that many bytes and their digest matches; a short source is a size mismatch |
| `Reader.CleanWithLimit` | pkg/compose/reader.go:193-207 | with a limit alone, clean iff the source is strictly shorter and its digest matches; otherwise the limit error iff it is not shorter |
| `Reader.MismatchExactly` | pkg/compose/reader.go:114-118 | a source that is long enough, or within the limit, fails with a digest mismatch iff its digest differs, and is told the digest computed |
| `Reader.RefusedExactly` | pkg/compose/reader.go:63-85 | a reader is refused iff its limit is below a given expected size, or it is given neither |
| `Reader.PanicExactly` | pkg/compose/reader.go:94-104 | the panic is reached iff the limit exceeds a positive expected size and the source is longer than that size |
| `Tree.WalkExact` | pkg/compose/tree.go:22-39 | a walk succeeds iff the tree stays within the depth limit, and then visits every node once in preorder |
| `Loader.LayerNodesDistinct` | pkg/compose/image.go:127-136 | layer nodes carry exactly the distinct layer digests, each once |
| `Loader.LoadedTreeIsShallow` | pkg/compose/v1/app.go:118-197 | a loaded tree is at most four levels deep, so walking it never fails and counting its nodes never panics |
| `Loader.CoreFrame` | pkg/compose/v1/app.go:118-197 | loading the mandatory part of an app depends only on its mandatory blobs and, where one is missing, on the app's own directory |
| `Loader.CoreReload` | pkg/compose/v1/app.go:118-197 | an app loaded from a registry, whose blobs the store holds as served or padded, loads from the store iff its manifest and image roots are not padded and none has exactly the maximal size, and then to the same mandatory part |
| `Integrity.LoadedImageMatches` | pkg/compose/image.go:95-181 | an image tree from the store: the root blob has the root's digest and size, its kind is that of the document, and the children are exactly the selected manifests, or config and distinct layers with the sizes and references of their first occurrence, with checked manifests below |
| `Integrity.LoadedAppMatches` | pkg/compose/v1/app.go:118-197 | an app tree from the store: authenticated manifest, the bundle it names, one matching image tree per compose service in order, and only the optional nodes the manifest refers to; every node carries its own reference |
| `Integrity.SelectedExactly` | pkg/compose/image.go:139-170 | an image index contributes its manifests in order, those of the platform; a skopeo-made one contributes all |
| `Integrity.ImageLoadsExactly` | pkg/compose/image.go:95-181 | an image loads from the store iff its root is a valid document below the limit, of its own digest, and each selected manifest of an index begins with a manifest of its size and digest |
| `Integrity.AppLoadsExactly` | pkg/compose/v1/app.go:118-197 | an app loads from a store without fallback iff its manifest is a blob below the limit, of its own digest, that names a bundle, the bundle unpacks into services, and every image of these loads |
| `Integrity.OptionalNodesExactly` | pkg/compose/v1/app.go:129-175 | the metadata node is there iff its blob is good and parses, the index node iff its blob is present |
| `Integrity.RemoteOptionalNodesExactly` | pkg/compose/v1/app.go:129-175 | from a registry the metadata node is there iff its blob is good and parses, the index node iff the manifest refers to one |
| `Integrity.RemoteReadExactly` | pkg/compose/v1/app.go:212-244 | a registry document is read iff it is there, of its own digest, and not longer than the limit, which it may reach |
| `Integrity.FallbackExactly` | pkg/compose/v1/app_store.go:198-279 | a blob missing from the store is read from the apps directory of a skopeo-aware store iff it is an app manifest or an app bundle, which are checked there, or an image root, which is not; a blob read outside these contexts is not found |
| `Integrity.NotFoundExactly` | pkg/compose/v1/app.go:212-225 | a load answers "app not found" iff the app manifest is nowhere to be read |
| `AppStore.AppStore.AddApps` | pkg/compose/v1/app_store.go:65-84 | an unparsable reference refuses the call with nothing changed; otherwise each named directory is there with the last of its references as uri and all else in it kept, and no other directory is touched |
| `AppStore.AppStore.ListApps` | pkg/compose/v1/app_store.go:86-114 | lists exactly the filed references, or fails iff one does not parse |
| `AppStore.AppStore.RemoveApps` | pkg/compose/v1/app_store.go:116-151 | removes exactly the directories of the given apps, absent ones being skipped, and leaves the others and, unless it prunes, all blobs as they are; fails iff asked to prune and a remaining listed app does not load |
| `AppStore.AppStore.Prune` | pkg/compose/v1/app_store.go:153-196 | succeeds iff all listed apps load, and then deletes exactly the blobs that are no node of any of their trees; otherwise deletes nothing |
| `AppStore.SweepKeepsTree` | pkg/compose/v1/app_store.go:153-196 | deleting blobs that are no node of an app's tree leaves what the loader returns for it unchanged, through optional nodes and fallbacks |
| `AppStore.PruneKeepsTrees` | pkg/compose/v1/app_store.go:153-196 | after a prune every listed app has the tree it had before |
| `AppStore.PruneTwice` | pkg/compose/v1/app_store.go:153-196 | a second prune succeeds and deletes nothing |
| `AppStore.RemovedExactly` | pkg/compose/v1/app_store.go:116-145 | removal takes off the list exactly the apps sharing name and digest with a removed one |
| `AppStore.AddedIsListed` | pkg/compose/v1/app_store.go:65-84 | an added app is listed iff no later reference of the same name and digest replaced it |
| `Closure.CompleteExactly` | pkg/compose/v1/app.go:118-197 | an app is loaded and complete iff its mandatory part is |
| `Closure.PruneKeepsClosed` | pkg/compose/v1/app_store.go:153-196 | prune goes through on a closed store and keeps it closed |
| `Closure.RemoveKeepsClosed` | pkg/compose/v1/app_store.go:116-151 | removing apps, with or without pruning, keeps the store closed however many blobs are shared |
| `Closure.GrowthKeepsComplete` | pkg/compose/v1/app.go:118-197 | new blobs never make a complete app incomplete |
| `Closure.FetchedAppComplete` | pkg/compose/v1/app.go:118-197 | an app of a registry, of whose blobs the store holds some, all verified or passing their checks, is complete iff its mandatory blobs are there and its manifest and image roots can be read (not padded, not of the maximal size) |
| `Closure.FetchKeepsClosedExactly` | pkg/update/update.go:277-303 | a fetch that only adds blobs of the update, all intact, and files its apps keeps closure iff the listed update apps have all their mandatory blobs and readable manifests and image roots |
| `Closure.DeletionKeepsCompleteExactly` | pkg/compose/v1/app.go:118-197 | deleting blobs leaves a complete app complete iff none of them is mandatory for it |
| `Closure.CancelKeepsClosedExactly` | pkg/update/cancel.go:34-55 | deleting blobs keeps closure iff none is mandatory for a listed app |
| `Closure.UnreadableBlocksPrune` | pkg/compose/v1/app_store.go:153-170 | as long as the store lists an app without its manifest blob, and no skopeo-made manifest file stands in, it refuses to prune |
| `Blobs.CheckExactly` | pkg/compose/blob.go:116-141 | a blob passes iff its file starts with that many bytes of the right digest, and is else missing, too short or of the wrong digest as the file is; the check itself fails iff a present blob has no positive size |
| `Blobs.PaddedBlobPassesButDoesNotRead` | pkg/compose/blob.go:116-141 | a blob with trailing bytes passes the check but a limited read of it fails |
| `Progress.FetchProgress.constructor` | pkg/compose/fetch.go:100-123 | an unfetched blob starts with exactly its initial bytes, a fetched one with its full size; the counters are the recomputed sums and the number of fetched blobs, in any order of the blobs |
| `Progress.FetchProgress.Poll` | pkg/compose/fetch.go:208-230 | an unfetched blob with an open ingest gets its offset, one with a file and no ingest the file's size and the state of a fetched one, and no other record changes; the counters are again the recomputed sums |
| `Progress.UpdateProgress.OnProgress` | pkg/update/fetch.go:22-48 | takes over the reported record of every blob not yet recorded as fetched and of no other, and sets counters, percentage and the fetched mark |
| `Progress.TotalSurvivesResumes` | pkg/compose/fetch.go:100-123 | however often fetching is interrupted, the records every attempt works on sum up to the same total |
| `Resume.TotalOfTries` | pkg/compose/fetch.go:100-123 | so does the set-up of the attempt that follows any number of attempts of the copy loop |
| `Init.InitUpdate` | pkg/update/init.go:105-185 | the record of an initialized update holds each blob that does not pass, as its first failing node and the open ingest under its reference describe it, and the total of these records |
| `Progress.FetchedIsForever` | pkg/update/fetch.go:22-29 | a blob once recorded as fetched keeps its record through all later attempts |
| `Progress.FetchedWithinTotal` | pkg/compose/fetch.go:208-230 | with plausible offsets the fetched bytes lie between zero and the total and equal it iff every blob is full |
| `Progress.ProgressExact` | pkg/update/fetch.go:30-39 | across resumes the percentage stays in 0..100 and is 100 iff every blob is stored in full length |
| `Progress.FullBeforeCommit` | pkg/update/fetch.go:32-39 | all bytes in open ingests give full records and one hundred percent although no further blob counts as fetched |
| `Progress.StoredIsComplete` | pkg/compose/fetch.go:208-230 | once every blob still to fetch has a file of its size and nothing is being written, a poll gives full records, all fetched, all bytes and one hundred percent |
| `Progress.PercentExactly` | pkg/update/fetch.go:30-39 | the percentage is the whole part of a hundred times the bytes over the total, towards zero, and 100 if there is nothing to fetch |
| `Progress.CommittedExactly` | pkg/compose/fetch.go:208-230 | after a poll every blob counts as fetched iff each one still to fetch has a file and no open ingest or unknown status |
| `Fetch.OrderBlobs` | pkg/compose/fetch.go:232-256 | for any iteration order, a listing of exactly the unfetched blobs, each once, with no layer before a blob of another kind, and in each class those whose fetch was interrupted first |
| `Fetch.OrderedExactly` | pkg/compose/fetch.go:232-256 | a list is a fetch order iff it has these four properties |
| `Fetch.CopyBlob` | pkg/compose/blob.go:143-164 | a forced copy succeeds iff the reply has the right size and digest, and the blob is then whole; failing before the delete it leaves the file, failing after it no file; no other file changes |
| `Fetch.FetchBlobs` | pkg/compose/fetch.go:82-206 | succeeds iff every request is answered with the blob asked for and the context has not ended; up to the first wrong answer each file holds its reply, a wrong reply leaves no file, no reply and everything after leave the files alone; the records are those of the step-by-step attempt for a valid order, and its total is the one recorded by Init |
| `Fetch.AttemptExactly` | pkg/compose/fetch.go:167-205 | the same of the step-by-step attempt, whatever its polls; files of blobs it was not to fetch stay as they are |
| `Fetch.LastPollRecordsAll` | pkg/compose/fetch.go:194-201 | after a successful attempt, a last poll that gets through with nothing being written leaves every blob recorded as fetched |
| `Fetch.FetchSucceedsExactly` | pkg/compose/fetch.go:167-205 | after a successful fetch all blobs are whole and verified iff those recorded as fetched at its start were; no other file is touched |
| `Fetch.InterruptedFetchKeepsRecords` | pkg/compose/fetch.go:148-206 | from true records and no file for any unfetched blob, an attempt leaves true records however it ends |
| `Fetch.InterruptedFetchKeepsRecordsExactly` | pkg/compose/fetch.go:148-206 | from true records, every possible attempt leaves true records iff no file is there for a blob still to fetch |
| `Fetch.AttemptIsItsPolls` | pkg/compose/fetch.go:208-230 | the records an attempt leaves are those of its polls, so the accounting results hold for it |
| `Fetch.InvalidBlobIsTakenForFetched` | pkg/compose/fetch.go:220-226 | any invalid file without an open ingest is recorded as fetched by a poll, stays, and is in no later fetch order |
| `Fetch.CommittedBlobIsLost` | pkg/compose/blob.go:146-156 | a committed but unrecorded file anywhere in the order can be recorded and then deleted by the forced copy |
| `Resume.AllTriedContinue` | pkg/update/fetch.go:15-54 | any number of resumed attempts keep the blobs, sizes and offsets of the update, touch no other file, and leave no stale file if there was none |
| `Resume.LostForever` | pkg/compose/fetch.go:232-256 | a blob recorded as fetched whose file is gone is never fetched again |
| `Resume.TwoInterruptionsLoseBlob` | pkg/compose/blob.go:146-156 | two interruptions after which a blob is recorded as fetched but gone |
| `Resume.RightRepliesSucceed` | pkg/compose/fetch.go:167-193 | an attempt that gets the right reply to every request succeeds |
| `Init.InitBlobs` | pkg/update/init.go:105-185 | records each blob that does not pass once, with the total still to download; fails iff some check fails as a check |
| `Init.CollectedExactly` | pkg/update/init.go:140-161 | a digest is recorded iff some node of it did not pass, whatever the order, with that node's data |
| `Init.RecordedExactly` | pkg/update/init.go:140-161 | the record of a digest has size, kind and reference of its first node that does not pass, and is fetching with the ingest's offset if one is open under that reference, else in the state of the check with no bytes |
| `Rollback.CancelBlobs` | pkg/update/cancel.go:34-55 | deletes exactly the recorded blobs that can be removed and changes no other file, fails iff one that is there cannot be removed; its progress ends at 100 or at what whole rounded steps make of it |
| `Rollback.CancelProgressExactly` | pkg/update/cancel.go:35-51 | the progress of a cancel ends at 100 iff 100 over the number of blobs is whole or rounds up |
| `Rollback.CancelRollsBackExactly` | pkg/update/cancel.go:34-55 | whatever was fetched since one Init, a cancel restores exactly the set of passing nodes, iff no digest occurs with two sizes of which one passes |
| `Rollback.ResumedCancelRollsBackExactly` | pkg/update/cancel.go:34-55 | the same after any number of attempts to fetch |
| `Rollback.FetchAfterInitIsComplete` | pkg/update/fetch.go:50-54 | an attempt made directly from Init's records, if it succeeds, leaves every recorded blob good, invalid ones included |
| `Rollback.ResumedFetchIsCompleteExactly` | pkg/update/fetch.go:50-54 | from a clean start, the successful attempt after any number of interrupted ones leaves every recorded blob good iff each blob it began with as fetched still had its file |
| `Rollback.FetchKeepsClosedFrom` | pkg/update/update.go:262-303 | a successful attempt from any state the update can be in leaves the store closed iff for the listed update apps no manifest or image root was padded at Init or has the maximal size, and no mandatory blob is recorded as fetched without its file |
| `Rollback.FetchFromTrueRecordsKeepsClosed` | pkg/update/update.go:262-303 | if the records it began with were true, iff these manifests and image roots can be read |
| `Rollback.InitAndFetchKeepClosed` | pkg/update/update.go:223-303 | the same exact condition after Init from a clean start, any number of interrupted attempts and one that succeeds |
| `Rollback.OnceInterruptedKeepsClosed` | pkg/update/update.go:223-303 | with at most one interruption the store is closed iff these manifests and image roots can be read |
| `Rollback.TwoInterruptionsBreakClosure` | pkg/compose/blob.go:146-156 | from a clean start, two interruptions after which every later successful fetch leaves the store open |
| `Instance.SucceedsWithoutManifest` | pkg/compose/fetch.go:148-206 | a concrete update, initialized, interrupted twice and then fetched with success, after which the store lists its app and is not closed |
| `Rollback.PaddedManifestBreaksClosure` | pkg/compose/blob.go:116-141 | an app manifest with trailing bytes is in no records, no attempt touches it, and every successful fetch leaves the store that lists the app open |
| `Rollback.InterruptedStartsAgainExactly` | pkg/update/update.go:207-223 | an interrupted update can be initialized again from a clean start iff the blobs fetched so far have the sizes all its nodes give them |
| `Rollback.InitAgainRepairs` | pkg/update/update.go:207-223 | then a fetch that follows at once and succeeds closes the store iff the listed manifests and image roots can be read, whatever interruptions had lost |
| `Rollback.CancelAfterFetchExactly` | pkg/update/cancel.go:34-55 | Init, any number of attempts, and a cancel leave the blobs of before; after a successful attempt the store is closed iff each listed update app had its mandatory blobs, and a readable manifest and image roots, before Init |
| `Rollback.CancelAfterFetchBreaksClosure` | pkg/update/cancel.go:34-55 | in particular it is open, and refuses every prune unless a skopeo-made manifest file stands in, if the fetch brought in the manifest of an app then listed |
| `Complete.VerifyApp` | pkg/update/complete.go:49-85 | true iff the app loads without fallback and every blob of its tree passes |
| `Complete.CompleteUpdate` | pkg/update/complete.go:37-118 | without pruning it succeeds iff the update verifies and the store can be pruned; with pruning iff moreover docker uninstalls, and what is listed without the unwanted apps (the listed ones that load and are not of the update) loads; on a closed store whose update verifies always, if docker uninstalls. Nothing is deleted unless the update verifies, and on success exactly the unwanted apps and the garbage are gone |
| `Complete.VerifiedIsComplete` | pkg/update/complete.go:49-85 | a verified app is complete and has the same tree with and without the fallback |
| `Complete.CompleteLeavesExactlyTheUpdate` | pkg/update/complete.go:90-117 | with all update apps listed, the store then lists exactly them and holds exactly the blobs of their unchanged trees |
| `Complete.SurvivesCompleteExactly` | pkg/update/complete.go:90-117 | after a successful complete a verified app is still complete iff trees of apps still listed have all its mandatory blobs |
| `Complete.UnfiledUpdateIsSwept` | pkg/update/complete.go:90-117 | completing an update of which no app was filed empties the store of all blobs |
| `Complete.CompleteKeepsClosed` | pkg/update/complete.go:90-117 | completing keeps closure |
| `Cycle.FetchedUpdateVerified` | pkg/update/complete.go:49-88 | after the successful attempt that ends fetching, however often interrupted, the check completing begins with passes for an update app iff its manifest and image roots can be read, it lost no mandatory blob, and its nodes give their blobs the recorded sizes |
| `Cycle.UpdateLeavesExactlyItsApps` | pkg/update/update.go:192-437 | a whole update of a closed store from a clean start, its fetch interrupted any number of times: the store is closed iff the apps' manifests and image roots can be read and no mandatory blob was lost, and verifies iff sizes fit as well; then completing cannot fail in the store, and leaves a closed store that lists exactly the update's apps and holds exactly the blobs of their trees |
| `Cycle.FetchedButNotFiled` | pkg/update/update.go:277-303 | a fetch cut off at one hundred percent before its blobs are committed leaves its record Fetched, ready for Install, while the store has no new file and does not list its apps |
| `Cycle.InitSkipsFiling` | pkg/update/update.go:229-256 | an initialization with nothing to fetch and a status check can leave its record fetched, installed or started with no app filed; the blobs verify, and completing the update sweeps them all |
| `UpdateLog.Database.Write` | pkg/update/store.go:85-96 | keeps the number of entries, all keys and every record but the last, which becomes the given one |
| `UpdateLog.Database.FindLatest` | pkg/update/store.go:132-171 | the last record in one of the states, or the last of all if none are given; none iff there is no such record |
| `UpdateLog.Database.NewUpdate` | pkg/update/update.go:83-120 | appends a created record under its own key iff all records are final |
| `UpdateLog.Database.GetCurrent` | pkg/update/update.go:160-186 | a runner over the latest record that is not final, if there is one |
| `UpdateLog.Database.CountFailed` | pkg/update/store.go:98-130 | the backward scan gives the failure count |
| `UpdateLog.Runner.Run` | pkg/update/update.go:192-437 | a refused operation changes nothing; an accepted one fails its record iff its work broke, or for install, start and cancel timed out; interrupted it stays in its working state, or Fetched after a full report; done it reaches its end, for Init what the status check found; and it writes exactly these states in order |
| `UpdateLog.AcceptsExactly` | pkg/update/update.go:192-437 | which operations each state admits, state by state |
| `UpdateLog.FailCountExactly` | pkg/update/store.go:98-130 | the count is the number of failed records of the reference with no completed one of it after them |
| `UpdateLog.MatchesExactly` | pkg/update/store.go:110-112 | a key matches a client reference iff its own reference is that one or ends in "cref:" and that one |
| `UpdateRuns.StepKeepsLogInv` | pkg/update/update.go:83-120 | every step of any runner, with a crash after any write, keeps all but the last record final, never writes to an empty log, and appends only when all are final |
| `UpdateRuns.LogInvOverRuns` | pkg/update/update.go:160-186 | over every run of any number of runners, stale ones included, only the last record can be open, and a new update is possible iff all are final |
| `UpdateRuns.StepKeepsSoloInv` | pkg/update/update.go:192-437 | with one live runner per update a step keeps identities and leaves final records alone |
| `UpdateRuns.FinalIsForever` | pkg/update/update.go:192-437 | over such a run every record keeps the identity of its key, and completed, failed and canceled records never change again |
| `UpdateRuns.RevivedExactly` | pkg/update/store.go:85-96 | a final record can be overwritten iff a live runner holds a copy that still accepts an operation |
| `UpdateRuns.TwoRunnersReviveCanceled` | pkg/update/update.go:192-260 | a run in which a second runner brings a canceled update back |
| `UpdateRuns.MisfiledExactly` | pkg/update/store.go:85-96 | with every record under its own key, some step files one under a foreign key iff a live runner that still accepts an operation holds a copy of another update than the last |
| `UpdateRuns.TwoRunnersMisfile` | pkg/update/store.go:85-96 | a run in which a stale runner stores its record under the next update's key |
| `UpdateRuns.FinishCompletes` | pkg/update/update.go:192-437 | from every resumable state the remaining operations, each lowering the rank, complete the update |
| `UpdateRuns.Resumable` | pkg/update/update.go:160-186 | every open record but a cancelling one, however it was left, can be picked up and completed |
| `UpdateRuns.Cancelable` | pkg/update/update.go:372-402 | such a record can be canceled iff it has not begun to start |
| `UpdateRuns.CancellingForever` | pkg/update/update.go:372-376 | a record left cancelling never changes again, and no new update can start |
| `UpdateRuns.InterruptedCancelIsStuck` | pkg/update/update.go:379-401 | an interrupted or crashed cancel leads there |
| `UpdateRuns.CountOverStep` | pkg/update/store.go:98-130 | in each step the failure count rises by one if an update fails, is zero if one completes, and is otherwise unchanged |
| `UpdateRuns.CountOverRuns` | pkg/update/store.go:98-130 | over every run with one live runner per update, the count is the number of steps that failed an update of the reference since the last that completed one |
| `ReadMonitor.Monitor.Receive` | pkg/compose/fetch.go:344-348 | adds the sample to the byte and time totals, which stay the sums over all samples received |
| `ReadMonitor.Monitor.Tick` | pkg/compose/fetch.go:290-332 | the trimmed window is the end of the history from which on a sample is among the last 200 and ended within the last five seconds, however it was trimmed before, and the totals are its sums |
| `ReadMonitor.WindowIsLastRecent` | pkg/compose/fetch.go:292-305 | trimming a trimmed window equals filtering the full history |
| `ImageLoad.ReportProgress` | pkg/compose/image_loader.go:423-522 | the loop reports and ends as the machine does on the whole stream; no images at all is a panic |
| `ImageLoad.WellFormedStreamReportsEveryImage` | pkg/compose/image_loader.go:423-522 | a well-formed stream is read to its end without panic, and every layer and image end is reported in order |
| `ImageLoad.EveryImageEndsOnce` | pkg/compose/image_loader.go:449-518 | each image ends exactly once, loaded iff it had a layer, else as already there |
| `ImageLoad.PanicsExactly` | pkg/compose/image_loader.go:423-522 | for every stream: the loop panics iff, before any daemon error, a message without progress comes while the layer begun last has had no message that completes it, or when such messages already number the sum of all reference counters |
| `ImageLoad.ReportsExactly` | pkg/compose/image_loader.go:449-518 | for every stream: the reports are exactly what the messages tell before the one at which the loop stops: each progress message its own amounts for the current image and the layer begun last, a completing one that the layer is written, and each end its layer or image |
| `ImageLoad.SingleMessageLayerPanics` | pkg/compose/image_loader.go:476-487 | a layer of one message, complete or not, panics on the next plain message |
| `ImageLoad.SurplusMessagePanics` | pkg/compose/image_loader.go:452-461 | a plain message after the last image panics |
| `Reporter.EveryInterleaving` | internal/progress/reporter.go:22-75 | in every interleaving handled items are a prefix of accepted ones, the queue is bounded, refusal means a full queue, or for a channel without buffer that no worker waits, and a draining stop of a started reporter returns only when all are handled |
| `Reporter.UpdateExactly` | internal/progress/reporter.go:53-60 | an update that meets room, or a waiting worker at a channel without buffer, is accepted behind all items on their way; any other changes nothing |
| `Reporter.HandlesWhatItAdmits` | internal/progress/reporter.go:22-75 | over every interleaving the accepted items are exactly those of the updates that met room; a draining stop of a started reporter has handled exactly these, and all items offered if every update met room |
| `Reporter.OneItemDelivered` | internal/progress/reporter.go:22-75 | an item put in a buffered reporter can be taken, handled, and the reporter stopped |
| `Reporter.StopReturns` | internal/progress/reporter.go:64-75 | until a stop has returned some step of worker or stop is possible, and each leaves less to do |
| `Layers.Collect` | pkg/compose/layers.go:83-162 | the table holds for each architecture and service the digest of the last linux entry of an allowed architecture in its manifest list, or a single manifest's own digest if its config names the architecture, for any order of the images |
| `Layers.ChosenExactly` | pkg/compose/layers.go:101-162 | the chosen manifest is that of the last entry for the architecture with os linux, if allowed; there is none iff no such entry exists |
| `Layers.FullRow` | pkg/compose/layers.go:165-178 | an architecture passes the count and list tests iff it is allowed and every service has a manifest for it |
| `Layers.GetAppLayers` | pkg/compose/layers.go:63-224 | fails iff an image or a needed manifest cannot be read; reports an architecture iff it is allowed and every service's image has such an entry, with the strictly increasing hashes of the union of the chosen manifests' layers, and with descriptors as some order of the manifests leaves them |
| `Layers.ReportedExactly` | pkg/compose/layers.go:165-178 | an architecture is reported iff it is allowed and every service's image has an entry for it |
| `Layers.BeforeExactly` | pkg/compose/layers.go:205-211 | the order of the hashes is that of strings, byte by byte from the left |
| `Layers.ReportIsDetermined` | pkg/compose/layers.go:205-221 | the reported hashes are the same for every iteration order |
| `Layers.ReportIsDeterminedExactly` | pkg/compose/layers.go:184-221 | the reported descriptors are the same for every iteration order iff the chosen manifests give each digest they share one descriptor |

## Left out

- Docker: loading and removing images, containers, `docker compose`, and uninstalling apps (pkg/compose/uninstall.go); their results are parameters.
- The registry client, transport, authentication, proxies and publishing.
- The per-app progress of Start (pkg/update/start.go) and other progress figures written while an operation works; only the states it writes are in the log.
- The moving of images into containerd-backed docker and the tar stream sent to docker (pkg/compose/image_loader.go).
- Cancellation in the middle of Init's walk, and of FetchBlobs's stop handshake, which can block; no claim is made that FetchBlobs returns.
- Data races on shared progress structures: a poll and a delivery of its report are one atomic step each, and a delivered report is the latest.
- Failing directory operations of the app store (creating, writing and removing files), and temporary files.
- App names that contain the directory of another app version: the apps directory is a map keyed by name and digest.
- Increasing update identifiers and the atomicity of NewUpdate's check and save are assumed; encoding of records is the identity.
- Read speeds as quotients; the sums they are quotients of are modelled.
- `CheckAppsStatus` and `UninstallApps` policies: Init's status check is an arbitrary answer.
