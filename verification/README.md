# drun, modelled and proved in Dafny

drun runs an agent's shell commands in sessions. A session keeps a git-like history of checkpoints, each
a map from file key to contents, with a head that writes, deletes, merges, commands, rollbacks, squashes and
drops move around. Underneath, contents are shared through a hash-consing interner, a directory on disk
mirrors the current checkpoint incrementally, and a snapshot codec writes each shared content once. Around
it, many threads serve calls on a registry of sessions with an idle reaper.

The project states what each of these promises in its simplest form, models the code in the form it has, and
proves that the two agree for every input, every run and every interleaving.

    dafny verify dfyconfig.toml

## Layout

| file | what it holds |
|---|---|
| `History.dfy` | a history of checkpoints and its transitions, generic in what a file map is; laws of squash and drop |
| `Store.dfy` | the store on plain maps: every operation, its errors, whole runs, limits |
| `Effects.dfy` | what each transition and each operation of the store does, field by field and error by error |
| `Blobs.dfy` | shared contents as objects (identity is real), and the plain view of a history of them |
| `Interning.dfy` | the interner with weak entries and an arbitrary hash |
| `Mirror.dfy` | the directory mirror that skips work by identity, modification time and length |
| `Sessions.dfy` | the session class: history, interner and mirror changed step by step, each call proved against `Store` |
| `Runs.dfy` | arbitrary sequences of calls refine the plain store; what commands find on the disk; sharing over whole runs |
| `Snapshots.dfy` | saving and restoring |
| `Registry.dfy` | sessions, locks, the reaper, forks and merges as an interleaving step system |
| `Forest.dfy` | the fork forest built from parent references that nothing keeps tidy |
| `Descendants.dfy` | the worklist over a process table |
| `Assets.dfy` | collision-free asset names and the asset loop of a fetch |
| `HermesText.dfy`, `HermesMcp.dfy`, `HermesToolsets.dfy`, `HermesEditor.dfy` | the line editor of the Hermes configuration |
| `Deltas.dfy` | what changed between checkpoints, and the summary of a history |
| `Reading.dfy` | windows, paging and pattern search in a file |
| `Wrappers.dfy`, `Sizes.dfy`, `Utf8.dfy` | Option, Result and the store's errors; sizes of sets; sizes of strings in UTF-8 |

How the fast forms meet the simple ones:

- A session's `View()` is its history with every blob replaced by its bytes. Every method says that the view
  changes as `Store.Apply` says, or stays as it was with the error `Store.Apply` gives. Nothing in `Store`
  knows about blobs, hashes or disks. `Runs.Replay` carries this over all runs, whatever the commands in them
  do: it logs what each call amounted to, and `Runs.CommandFindsFiles` and `Runs.CommandsSeeCurrentFiles` say
  from that log when a command finds the current files.
- What the transitions and operations of `History` and `Store` are for is proved in `Effects` without naming how
  they compute it: every field of a new checkpoint, what squashing one and two checkpoints gives (which with
  `History.SquashInTwoSteps` fixes every range), exactly which files a write, a deletion or a merge leaves, and
  exactly when which error is reported.
- The hash is an arbitrary function. What holds for all hashes (no key or content ever changes) is stated
  without a condition; maximal sharing is stated under the absence of collisions.
- A weak entry's upgrade succeeds for every blob the history refers to and is left open for all others.
- Iteration over a hash map picks an arbitrary element, so each loop is proved for every order.
- A command is an arbitrary function from the disk it finds to the disk it leaves.
- In the registry a step is one lock operation of one thread; a mutex is held by the thread whose program
  point says so.

Properties that fail in general are kept with the exact condition under which they hold:

- Squashing in two steps is squashing once except when the first range records one command, it is empty, and
  the second range records any (`History.SquashInTwoSteps`); a run reaches that case
  (`Store.EmptyCommandBreaksTwoSteps`).
- A sync produces the target exactly when no kept file was altered behind the mirror's back and no unknown
  file lies outside the target (`Mirror.SyncIsExact`), so in every run a command finds the current files
  exactly then (`Runs.CommandFindsFiles`). A command that alters a file and times out spoils it for the next
  one (`Runs.TimeoutSpoilsMirror`), since the mirror is not told what it did.
- Collecting changes is a full read exactly when each file that looks untouched is
  (`Mirror.CollectIsFullRead`).
- A merge takes blobs over without interning them. Equal contents are one allocation afterwards exactly when
  they were among what is kept, and among what is taken over, and every content taken over that is already
  kept comes as the very same blob (`Sessions.MergeKeepsSharing`, with an input where it does not in
  `Runs.MergeBreaksSharing`).
- A squash changes the current files when the head lies in the range before its end and the end holds
  other files (`History.SquashKeepsCurrentFiles`).
- Only updates look at the idle time; switching, listing, reading a session to fork or merge from, and all
  calls of the web interface do not. A call that looked a session up before it was evicted and finds its lock
  free afterwards works on it exactly when it is not an update (`Registry.EvictedIsUsedIff`), and whoever
  holds a handle on an evicted session looked it up before the eviction (`Registry.LookedUpBefore`). A run
  comes to such a call (`Registry.WebCallRunsOnEvicted`).
- The forest leaves out sessions on a cycle of references or forked from a checkpoint that is gone; it shows
  all exactly when there are none (`Forest.AllShownIffTidy`).
- A page called like the manifest is replaced by it (`Assets.BundleIsStored`).
- Removing a Hermes entry or toolset list undoes adding it exactly under the conditions named in
  `HermesMcp.UndoneExactly` and `HermesToolsets.UndoneExactly`.
- Reading in pages of zero bytes never gets anywhere (`Reading.OnlyZeroStalls`).

## Model

| member | source | states |
|---|---|---|
| History.SquashInTwoSteps | crates/drun-core/src/session.rs:454-521 | squashing i..j and then the rest of i..k gives the history and head of squashing i..k once, if and only if not (the first range records exactly one command, an empty one, and the second range records any) |
| Store.EmptyCommandBreaksTwoSteps | crates/drun-core/src/session.rs:485-502 | a session that runs an empty command and then another reaches a history in which the two ways of squashing differ |
| History.CombinedNested | crates/drun-core/src/session.rs:473-507 | the combined checkpoint of a range is the combination of a combined prefix with the rest, under the same exact condition; streams, steps, files and exit code always agree |
| History.CommandsNested | crates/drun-core/src/session.rs:485-502 | joined commands associate except after a prefix that is one empty command |
| History.StreamsNested | crates/drun-core/src/session.rs:473-484 | joining the non-empty streams of a range associates, without exception |
| History.SquashKeepsSurvivors | crates/drun-core/src/session.rs:496-518 | every checkpoint outside the range keeps everything but its id and its order; ids stay indices; the combined one has the files and exit code of the range's end |
| History.SquashKeepsCurrentFiles | crates/drun-core/src/session.rs:514-520 | the head afterwards shows the files it showed before, unless it was in the range before its end; then those of the end |
| History.SquashKeepsStepLog | crates/drun-core/src/session.rs:492-511 | the concatenated step log of the whole history is unchanged |
| History.SquashKeepsLabel | crates/drun-core/src/session.rs:432-437 | a label on one survivor only, not reused by the squash, still resolves to the same contents |
| History.DropKeepsSurvivors | crates/drun-core/src/session.rs:523-552 | every checkpoint outside the range keeps everything but its id and its order, ids stay indices and the current checkpoint stays current |
| History.DropKeepsLabel | crates/drun-core/src/session.rs:432-437 | a label on one survivor only still resolves to the same contents after a drop |
| History.ByLabel | crates/drun-core/src/session.rs:432-437 | the first checkpoint carrying the label, and none only when no checkpoint carries it |
| Effects.PushRecords | crates/drun-core/src/session.rs:674-711 | a new checkpoint follows the head and becomes it; it records the given files, stdout, stderr, command, exit code, tool and description, no label and one step; nothing up to the old head changes and nothing beyond it is left |
| Effects.SquashOne | crates/drun-core/src/session.rs:473-507 | squashing one checkpoint keeps its streams, files, exit code and steps, turns an empty command into none, and carries the squash's own label, tool and description |
| Effects.SquashPair | crates/drun-core/src/session.rs:473-507 | squashing two joins stdout and stderr by a newline between non-empty ones and commands by " && ", appends the steps, and keeps the later files and exit code |
| Effects.InsertedIsLast | crates/drun-core/src/session.rs:225-228 | of several entries for one path the last is stored |
| Effects.InsertedKeepsOthers | crates/drun-core/src/session.rs:224-228 | a path no entry names is left alone |
| Effects.RemovedExactly | crates/drun-core/src/session.rs:270-275 | deletion succeeds if and only if every path is present and named once, and then exactly those are gone; otherwise the first that is not is named |
| Effects.PickedExactly | crates/drun-core/src/session.rs:569-580 | picking keys succeeds if and only if the source has them all, and then overlays exactly those; otherwise the first it lacks is named |
| Effects.ValidKeyExactly | crates/drun-core/src/session.rs:784-809 | a key is accepted if and only if it is not empty, does not start with a slash and no stretch between slashes is `..` |
| Effects.FirstInvalidIsFirst | crates/drun-core/src/session.rs:221-223 | a batch is refused for the first refused key, and accepted if and only if there is none |
| Effects.WriteEffect | crates/drun-core/src/session.rs:215-233 | a write reports the first bad key, then the size, then the checkpoint limit, and otherwise adds a checkpoint of the files written over, recording the tool and nothing else |
| Effects.DeleteEffect | crates/drun-core/src/session.rs:265-282 | a deletion reports the first missing or repeated path, then the checkpoint limit, never the size, and otherwise adds a checkpoint without exactly those paths |
| Effects.MergeEffect | crates/drun-core/src/session.rs:554-594 | a merge reports a missing checkpoint, then the first missing key, then the limits, and otherwise adds a checkpoint overlaid with exactly the chosen files |
| Effects.BashEffect | crates/drun-core/src/session.rs:331-353 | a command's checkpoint holds what was collected with its streams, command and exit code, or is refused at a limit |
| Effects.RollbackEffect | crates/drun-core/src/session.rs:407-413 | only the head moves, or the missing checkpoint is reported |
| Effects.SquashEffect | crates/drun-core/src/session.rs:460-472 | a range is refused if and only if it starts at the first checkpoint, runs backwards or ends too late, in that order |
| Effects.DropEffect | crates/drun-core/src/session.rs:523-542 | the same, and then if and only if the range holds the head |
| Effects.LabelEffect | crates/drun-core/src/session.rs:419-430 | only the one label changes, and an empty text clears it |
| Effects.RecordEffect | crates/drun-core/src/session.rs:713-721 | only the one step log changes, by one step at its end; an unknown checkpoint changes nothing |
| Effects.ForkEffect | crates/drun-core/src/session.rs:103-126 | a fork has one checkpoint with the chosen one's files and nothing recorded; a missing checkpoint is reported |
| Store.ApplyKeepsBounds | crates/drun-core/src/session.rs:674-745 | any successful operation keeps ids equal to indices, the head in range, the checkpoint count and every checkpoint's size within the limits, including those operations that never check the size |
| Store.RunKeepsBounds | crates/drun-core/src/session.rs:674-745 | the same after any sequence of operations, failed ones included |
| Store.SessionsKeepBounds | crates/drun-core/src/session.rs:103-126 | the same for a new session after any run and for a fork of it after any run of its own |
| Store.TotalBytesShrinks | crates/drun-core/src/session.rs:265-282 | deleting never enlarges a workspace, which is why it needs no size check |
| Blobs.PlainSquashed | crates/drun-core/src/session.rs:454-521 | squashing shared blobs is squashing their contents |
| Blobs.PlainPushed | crates/drun-core/src/session.rs:674-711 | pushing shared blobs is pushing their contents |
| Blobs.PlainDropped | crates/drun-core/src/session.rs:523-552 | dropping shared blobs is dropping their contents |
| Interning.CanonicalIsShared | crates/drun-core/src/interner.rs:17-52 | when the table answers with the history's own blobs, equal contents anywhere in the history are one allocation |
| Interning.CanonicalAfterInsert | crates/drun-core/src/interner.rs:17-28 | registering a content displaces no other content unless the two collide |
| Interning.RebuiltIsCanonical | crates/drun-core/src/interner.rs:54-72 | rebuilding the table from the history keeps every canonical blob canonical |
| Interning.Interner.InternBytes | crates/drun-core/src/interner.rs:17-28 | the bytes are never changed; the answer is the registered blob or a new one, and without collisions the history plus the answer stays maximally shared |
| Interning.Interner.InternBlob | crates/drun-core/src/interner.rs:30-52 | one entry of a file map: the registered blob of equal content, or the blob itself |
| Interning.Interner.InternFileMap | crates/drun-core/src/interner.rs:30-52 | no key and no content changes, for any hash; without collisions the result shares maximally with the history |
| Interning.Interner.SeedCheckpoints | crates/drun-core/src/interner.rs:54-61 | seeding a new table with every file of every checkpoint leaves one blob of the history under each hash of its contents |
| Interning.Interner.Retain | crates/drun-core/src/interner.rs:63-72 | the table afterwards holds exactly hashes of blobs the checkpoints refer to, one such blob each |
| Mirror.SyncIsExact | crates/drun-core/src/workspace.rs:32-67 | a sync that skips every key whose allocation did not change yields the target's bytes if and only if no skipped file differs on disk and no file unknown to the mirror lies outside the target |
| Mirror.CollectIsFullRead | crates/drun-core/src/workspace.rs:69-121 | skipping files of equal time and length gives the full read if and only if each skipped file has the recorded bytes |
| Mirror.DetectableIsTrustworthy | crates/drun-core/src/workspace.rs:69-103 | for a mirror that agreed with the disk, that is exactly that every change shows in a time or a length |
| Runs.TimeoutSpoilsMirror | crates/drun-core/src/session.rs:303-311 | a session writes a file, a command alters it and times out, and the next command finds the altered bytes while the history holds the written ones |
| Mirror.Workspace.SyncTo | crates/drun-core/src/workspace.rs:32-67 | the loops compute the sync above; it fails exactly when a file to remove is gone already, and then some stale files are removed from disk and mirror and nothing else happened; a mirror that agrees ends up agreeing, with the target on disk |
| Mirror.Workspace.CollectChanges | crates/drun-core/src/workspace.rs:69-103 | same keys as the disk, the old blob for every file that looks untouched, the read bytes for the others; the mirror agrees afterwards if and only if the shortcut was right |
| Mirror.Workspace.Collect | crates/drun-core/src/workspace.rs:105-121 | the full read: exactly the disk, in new allocations |
| Sessions.Session.constructor | crates/drun-core/src/session.rs:42-60 | a new session has one empty checkpoint and satisfies every invariant |
| Sessions.Session.CheckWorkspaceSize | crates/drun-core/src/session.rs:732-745 | true exactly when the sum of all contents is within the limit, whatever order the files are summed in |
| Sessions.Session.ValidateFilePaths | crates/drun-core/src/session.rs:784-806 | the first key of a batch that escapes the workspace or is not plain, if any |
| Sessions.Session.PushCheckpoint | crates/drun-core/src/session.rs:674-711 | refused if and only if the checkpoint limit is reached, and then nothing is discarded; otherwise the new current checkpoint has every field as given, exactly the checkpoints up to the old head are kept, and nothing else |
| Sessions.Session.WriteFiles | crates/drun-core/src/session.rs:215-233 | the view changes as the plain store's write or not at all, errors in the source's order; without collisions sharing stays maximal |
| Sessions.Session.DeleteFiles | crates/drun-core/src/session.rs:265-282 | on success exactly the named files are gone from the current ones; a missing file is reported if and only if some path is absent or repeated, the first such one, and leaves everything as it was |
| Sessions.Session.ExecuteBash | crates/drun-core/src/session.rs:284-322 | a command the policy refuses changes nothing; otherwise the directory it starts in, what is recorded when it completes, that one that times out or cannot start records nothing, and what each leaves in the mirror; a recorded checkpoint has this run's stdout, stderr and exit code, each in its own field; the mirror agrees after a completed one if and only if the shortcut was right |
| Sessions.Session.RecordBashCheckpoint | crates/drun-core/src/session.rs:331-353 | collected files are interned and recorded in one new checkpoint with this command, stdout, stderr and exit code, each in its own field, or refused as the plain store does |
| Sessions.Session.Rollback | crates/drun-core/src/session.rs:407-413 | only the head moves, and only to an existing checkpoint |
| Sessions.Session.SetCheckpointLabel | crates/drun-core/src/session.rs:419-430 | only the one label changes |
| Sessions.Session.SquashCheckpoints | crates/drun-core/src/session.rs:454-521 | splicing, renumbering and shifting the head in place give the plain squash or its error; interning survives |
| Sessions.Session.DropCheckpoints | crates/drun-core/src/session.rs:523-552 | draining, renumbering and shifting the head in place give the plain drop or its error; interning survives |
| Sessions.Session.MergeFrom | crates/drun-core/src/session.rs:554-594 | the view changes as the plain store's merge; interning survives if the taken-over blobs are canonical too, and the current files are overlaid with exactly the chosen files of the named or current checkpoint; equal contents are one allocation afterwards if and only if the condition below holds |
| Sessions.MergeKeepsSharing | crates/drun-core/src/session.rs:566-588 | after a merge equal contents are one allocation if and only if kept and taken-over blobs each are, and every taken-over content already kept is the same blob |
| Sessions.Session.FromSession | crates/drun-core/src/session.rs:103-126 | a fork starts from the chosen checkpoint's very blobs as its only checkpoint, refers to its parent, takes its overlays, and is as well interned as its source; a missing checkpoint is reported |
| Sessions.Session.RecordStep | crates/drun-core/src/session.rs:713-721 | appends a step to the named or current checkpoint, and does nothing for an unknown one |
| Runs.Replay | crates/drun-core/src/session.rs:284-320 | for every sequence of calls, whatever its commands do: the history is the plain store's, each call did to history and mirror what its event says, and without merges, if no two contents written or collected collide, equal contents are one allocation |
| Runs.CommandFindsFiles | crates/drun-core/src/session.rs:291-293 | at any point of any run, a command finds the disk equal by key and bytes to the current files if and only if nothing its sync skips was altered and no unknown file lies about |
| Runs.CommandsSeeCurrentFiles | crates/drun-core/src/session.rs:284-320 | if every earlier command completed and all its changes show in a time or a length, an allowed command starts and finds exactly the current files; if it behaves too, exactly what it left is recorded |
| Runs.MergeBreaksSharing | crates/drun-core/src/session.rs:573-583 | an input on which the condition fails: an equal content held as two allocations |
| Snapshots.RoundTrip | crates/drun-core/src/snapshot.rs:97-178 | decoding an encoded history restores head, labels, steps, streams and every content, indices are in range, and two files share an allocation afterwards exactly when they did before |
| Snapshots.RestoredIsInterned | crates/drun-core/src/snapshot.rs:172-178 | seeding a new interner from the restored checkpoints makes it answer as well as the original did |
| Snapshots.FromSession | crates/drun-core/src/snapshot.rs:97-142 | the loop numbers exactly the allocations of the history, injectively, and writes each one's bytes once; label, parent, overlays and chat log are copied |
| Snapshots.Restore | crates/drun-core/src/snapshot.rs:147-196 | rebuilds the history from freshly allocated blobs, seeds a new interner, and copies label, parent, chat log and those overlays whose host path still exists |
| Snapshots.SaveAndRestore | crates/drun-core/src/session.rs:658-664 | the whole trip on a session object: same view, same sharing, same label, parent, chat log and remaining overlays, within the same limits, as well interned |
| Registry.InvAlways | crates/drun-mcp/src/handler.rs:164-266 | in every reachable state locks are exclusive, every program point refers to what exists, the map stays within its limit and evicted sessions are idle and unregistered |
| Registry.BlockerIsFurther | crates/drun-mcp/src/server/session_ops.rs:43-64 | a thread that blocks another waits, if at all, for a lock further along one order: older sessions, newer sessions, the map |
| Registry.NoCycle | crates/drun-mcp/src/handler.rs:164-266 | no reachable state has a cycle of threads waiting for each other, of any length |
| Registry.NeverStuck | crates/drun-mcp/src/server/session_ops.rs:140-164 | whenever a call is unfinished, some unfinished call can take its next step |
| Registry.IdleIsAbsorbing | crates/drun-mcp/src/handler.rs:220-278 | under any interleaving an idle session stays idle for the rest of the run, and whoever runs on it later was already running on it then |
| Registry.EvictedForGood | crates/drun-mcp/src/handler.rs:122-132 | what the reaper removed stays removed |
| Registry.EvictedNeverRuns | crates/drun-mcp/src/handler.rs:220-238 | once a session was evicted, no call that holds its handle ever runs its closure on it, and no lookup finds it |
| Registry.HeldIsNotEvicted | crates/drun-mcp/src/handler.rs:122-132 | a session is evicted only while idle and while no thread but the reaper holds its lock |
| Registry.OnlyClosedOrEvicted | crates/drun-mcp/src/handler.rs:185-206 | a registered session keeps its id and handle until it is closed or evicted while idle |
| Registry.UpdateRefreshes | crates/drun-mcp/src/handler.rs:220-238 | when an update goes from holding a session to running on it, that moment becomes the session's last activity |
| Registry.UpdateDecides | crates/drun-mcp/src/handler.rs:268-278 | an update that holds its session runs if and only if the whole seconds since its last activity do not exceed the timeout |
| Registry.RecentlyUsedIsSafe | crates/drun-mcp/src/handler.rs:220-278 | under any interleaving, a session updated within the timeout is not evicted and its next update is not refused |
| Registry.SweepDecides | crates/drun-mcp/src/handler.rs:122-132 | a session the sweep has locked leaves the map if and only if the timeout has passed since its last activity; no other does |
| Registry.SweepVisits | crates/drun-mcp/src/handler.rs:122-132 | a sweep starts with every registered session, takes each once, and passes over one only while its lock is taken |
| Registry.NoTimeoutNoEviction | crates/drun-mcp/src/handler.rs:105-120 | without a timeout no reachable state has an evicted session |
| Registry.CloseRemoves | crates/drun-mcp/src/handler.rs:185-206 | closing takes exactly the one session out of the map |
| Registry.InsertRegisters | crates/drun-mcp/src/handler.rs:164-183 | an insertion is refused if and only if the map is full, and otherwise registers a session no thread knows under an unused id |
| Registry.LookupFinds | crates/drun-mcp/src/handler.rs:208-238 | a lookup leads to the session registered under the id, and ends the call when there is none |
| Registry.SourcesKept | crates/drun-mcp/src/server/session_ops.rs:43-64 | a fork lets go of its source before it inserts, a merge and a fork from the web interface keep theirs, and each may also end there |
| Registry.ClosedGoesOn | crates/drun-mcp/src/handler.rs:185-206 | a closed session is locked once more only for a snapshot, after it has left the map |
| Registry.WalksVisit | crates/drun-mcp/src/state/session_tree.rs:113-124 | the tree takes each session once and keeps exactly those it could lock; the list waits for each in turn |
| Registry.StaysLimited | crates/drun-mcp/src/handler.rs:164-183 | the number of sessions never passes the limit, since it is checked under the lock that inserts |
| Registry.EvictedIsUsedIff | crates/drun-mcp/src/server/session_ops.rs:27-64 | in every reachable state, a thread that looked up a session that is now evicted, and finds its lock free, goes on to work on it if and only if its call is not an update |
| Registry.LookedUpBefore | crates/drun-mcp/src/handler.rs:208-238 | whoever holds a handle on an evicted session held it before the eviction |
| Registry.WebCallRunsOnEvicted | crates/drun-mcp/src/web.rs:704-739 | a run in which a web call holds and uses a session after it was evicted |
| Forest.TryLockAll | crates/drun-mcp/src/state/session_tree.rs:113-124 | splits the sessions into those that could be locked and those that are busy |
| Forest.Group | crates/drun-mcp/src/state/session_tree.rs:126-147 | every open session is filed once: under its parent's checkpoint if the parent is open, and otherwise as a root |
| Forest.BuildForest | crates/drun-mcp/src/state/session_tree.rs:109-167 | every session appears at most once, and exactly the busy ones and those whose references lead to a root appear; each under the checkpoint it was forked from, each with all its checkpoints |
| Forest.NodeLists | crates/drun-mcp/src/state/session_tree.rs:49-107 | a session's node lists exactly the sessions below it, each once |
| Forest.NodeIsPlaced | crates/drun-mcp/src/state/session_tree.rs:57-68 | every fork in a node stands under the checkpoint its reference names |
| Forest.AllShownIffTidy | crates/drun-mcp/src/state/session_tree.rs:126-152 | no open session is left out if and only if references between open sessions are acyclic and name existing checkpoints |
| Forest.UpExactly | crates/drun-mcp/src/state/session_tree.rs:131-147 | a session is shown under the open session its parent reference names, if that has the checkpoint named |
| Forest.DepthIsBounded | crates/drun-mcp/src/state/session_tree.rs:49-107 | a session that leads to a root is nested less deeply than there are open sessions |
| Descendants.AddChildren | crates/drun-core/src/executor.rs:214-218 | one pass over the table adds exactly the children of a pid that are new |
| Descendants.DescendantPids | crates/drun-core/src/executor.rs:211-220 | ends on every table, cyclic ones included, with exactly the pids reachable by one or more child links |
| Assets.DecimalInjective | crates/drun-mcp/src/server/fetch.rs:294-297 | different numbers have different decimal suffixes |
| Assets.CandidateInjective | crates/drun-mcp/src/server/fetch.rs:292-297 | different tries give different candidate names, with or without an extension |
| Assets.AssetFilename | crates/drun-mcp/src/server/fetch.rs:281-308 | ends within one more try than there are used names, with the first free candidate, marked as used |
| Assets.FetchAssets | crates/drun-mcp/src/server/fetch.rs:76-109 | asset paths differ from each other, from the page and from the manifest; contents are stored in order; the fetched list pairs each url with its path; fetched, skipped and failed partition the assets in order |
| Assets.FatesPartition | crates/drun-mcp/src/server/fetch.rs:86-109 | fetched, skipped and failed add up to the number of assets |
| Assets.UrlsAt | crates/drun-mcp/src/server/fetch.rs:84-110 | each asset stands in the list of its own fate, after those before it, and in no other: skipped if its domain is not allowed, else fetched or failed |
| Assets.ContentsAt | crates/drun-mcp/src/server/fetch.rs:94-107 | a fetched asset's content stands where its url stands |
| Assets.RawNameIsLast | crates/drun-mcp/src/server/fetch.rs:282-286 | an asset is called like the last segment of its path, or `asset` when that is empty or missing |
| Assets.CandidateKeepsName | crates/drun-mcp/src/server/fetch.rs:289-299 | a candidate is the name with the number put right before its last dot, or at its end |
| Assets.DecimalReadsBack | crates/drun-mcp/src/server/fetch.rs:296-299 | the suffix is the decimal numeral of the try, without leading zeros |
| Assets.BundleIsStored | crates/drun-mcp/src/server/fetch.rs:113-136 | after the one write every asset and the manifest is stored, and the page if and only if it is not called like the manifest (or says the same) |
| HermesMcp.RemoveUndoesMerge | crates/drun-mcp/src/bridge/hermes.rs:201-257 | removing after merging gives back the identical lines if and only if there was no entry yet, and a servers line followed by the end of the file or by a non-blank line indented less than 3 |
| HermesMcp.MergeKeepsLines | crates/drun-mcp/src/bridge/hermes.rs:201-232 | the original lines stay a subsequence, the entry is there, and merging twice is merging once |
| HermesMcp.RemoveKeepsLines | crates/drun-mcp/src/bridge/hermes.rs:234-257 | no entry is left, no line is invented, and all other non-blank lines indented less than 3 stay in order |
| HermesMcp.MarkedLines | crates/drun-mcp/src/bridge/hermes.rs:197-222 | the opening and the servers line are recognised with any white space after them and nothing else |
| HermesMcp.InsideIsIndented | crates/drun-mcp/src/bridge/hermes.rs:247-250 | a line with text belongs to the entry above it if and only if at least three bytes of white space precede the text |
| HermesMcp.EntryIsUnderServers | crates/drun-mcp/src/bridge/hermes.rs:201-232 | after merging, the first servers line, old or appended after a blank line, is followed by the four lines of the entry with the very url that was given, and no other line is touched |
| HermesEditor.HermesConfig.MergeMcpEntry | crates/drun-mcp/src/bridge/hermes.rs:201-232 | inserting line by line gives the merged lines the lemmas are about; reports a change exactly when there was no entry |
| HermesEditor.HermesConfig.RemoveMcpEntry | crates/drun-mcp/src/bridge/hermes.rs:234-257 | the loop with its skipping flag gives the stripped lines the lemmas are about |
| HermesToolsets.RemoveUndoesMerge | crates/drun-mcp/src/bridge/hermes.rs:300-376 | removing after merging gives back the identical lines if and only if the list existed, was not empty and named none of the names, or the block had no list and nothing after its first line looks like one |
| HermesToolsets.MergeListsAll | crates/drun-mcp/src/bridge/hermes.rs:300-344 | every name is an item of the list found afterwards, and merging twice is merging once |
| HermesToolsets.MergeKeepsLines | crates/drun-mcp/src/bridge/hermes.rs:299-344 | the original lines stay a subsequence, so no entry of the user is ever removed |
| HermesToolsets.MarkedLines | crates/drun-mcp/src/bridge/hermes.rs:259-274 | the agent line and the key are recognised with any white space after them and nothing else |
| HermesToolsets.EndingLines | crates/drun-mcp/src/bridge/hermes.rs:261-283 | a line ends the list or the block exactly by its first characters, and never when it is only white space |
| HermesToolsets.ClearedExactly | crates/drun-mcp/src/bridge/hermes.rs:348-376 | removing takes exactly the named items out of the list that was found, every copy of them and nothing else, and the key with its last line |
| HermesToolsets.NewBlockReads | crates/drun-mcp/src/bridge/hermes.rs:301-311 | a file without an agent block gets one at its end, after a blank line if there were lines, whose list reads back as the names in order |
| HermesToolsets.HermesSuits | crates/drun-mcp/src/bridge/hermes.rs:259-284 | the editor's own prefixes and trimming recognise the lines it writes, and read a plain name back from its item |
| HermesToolsets.HermesRoundTrip | crates/drun-mcp/src/bridge/hermes.rs:300-376 | the laws above for the editor's own marks |
| HermesToolsets.FindAfterNewKey | crates/drun-mcp/src/bridge/hermes.rs:331-342 | the block finders find the list just written, together with whatever followed that looks like its items |
| HermesToolsets.FindAfterAppending | crates/drun-mcp/src/bridge/hermes.rs:259-284 | the finders, run again after items were added at the end of a list, find the same key and exactly the longer list |
| HermesEditor.HermesConfig.InsertMissing | crates/drun-mcp/src/bridge/hermes.rs:311-329 | inserting the missing names one at a time leaves them in order at the end of the list |
| HermesEditor.HermesConfig.MergeDisabledToolsets | crates/drun-mcp/src/bridge/hermes.rs:300-344 | gives the merged lines, and reports a change exactly when something was added |
| HermesEditor.HermesConfig.RemoveDisabledToolsets | crates/drun-mcp/src/bridge/hermes.rs:348-376 | gives the lines without the named items, the key gone with its last item, and reports a change exactly when a line went |
| Deltas.Compute | crates/drun-mcp/src/state/file_delta.rs:12-47 | added, modified and removed hold exactly the keys that differ so by content, each once and in order, despite the identity shortcut and the arbitrary order of keys |
| Deltas.ListIsUnique | crates/drun-mcp/src/state/file_delta.rs:38-40 | the sorted lists are determined by the key sets, so the order of a hash map cannot show |
| Deltas.BeforeIsDictionary | crates/drun-mcp/src/state/file_delta.rs:38-40 | the order of the lists is the dictionary order of the keys |
| Deltas.DeltaIsEnough | crates/drun-mcp/src/state/file_delta.rs:12-47 | dropping the removed keys and taking the added and modified ones turns the older files into the newer |
| Deltas.DeltaIsMinimal | crates/drun-mcp/src/state/file_delta.rs:12-47 | a key is named in some list if and only if it maps to different things |
| Deltas.CountsBalance | crates/drun-mcp/src/state/file_delta.rs:12-47 | files after plus removed is files before plus added |
| Deltas.Summaries | crates/drun-mcp/src/state/checkpoint_summary.rs:29-58 | one summary a checkpoint, with the true counts against the checkpoint before it and the byte lengths of its streams |
| Utf8.Utf8LengthIsLeast | crates/drun-mcp/src/state/checkpoint_summary.rs:51-52 | a character counts as the fewest bytes whose payload bits hold it |
| Utf8.ByteLengthAppend | crates/drun-mcp/src/state/checkpoint_summary.rs:51-52 | the bytes of a stream are the bytes of its parts together |
| Deltas.CountsTelescope | crates/drun-mcp/src/state/checkpoint_summary.rs:29-58 | each file count is the first one plus all added less all removed up to it |
| Reading.Grep | crates/drun-core/src/text_parser_utilities.rs:28-54 | exactly the matching lines, in order, each with its true offset, number and text; binary content and a bad pattern are refused in that order |
| Reading.LineEndings | crates/drun-core/src/text_parser_utilities.rs:36-38 | a line is what stands before a newline or a carriage return and newline, and the last line loses one carriage return too |
| Reading.ReadFile | crates/drun-mcp/src/server/file_ops.rs:15-64 | the answer for every combination of offset, limit and pattern, pages as text exactly when they are UTF-8; a search without a window finds exactly the matching lines of the whole file; a step is recorded exactly on success and nothing else changes |
| Reading.DefaultWindows | crates/drun-mcp/src/server/file_ops.rs:26-32 | without offset and limit the window is the file; a missing offset is the start, a missing limit the rest with no more announced |
| Reading.WindowIsInFile | crates/drun-mcp/src/server/file_ops.rs:26-32 | a window's bytes stand in the file from its start on, no more than the limit, and more is announced exactly when bytes follow |
| Reading.PageIsExact | crates/drun-mcp/src/server/file_ops.rs:26-32 | saturating addition never shortens a page, and more is announced exactly when bytes are left |
| Reading.PagesAreTheFile | crates/drun-mcp/src/server/file_ops.rs:26-59 | following has_more with any limit of at least one ends and concatenates to the rest of the file |
| Reading.OnlyZeroStalls | crates/drun-mcp/src/server/file_ops.rs:26-59 | a page that announces more is empty if and only if the limit is zero |
| Reading.MatchIsInFile | crates/drun-core/src/text_parser_utilities.rs:24-51 | the file's bytes at the window's start plus a match's offset begin with the reported line, and a follow-up read there returns it |
| Reading.MatchIsFileLine | crates/drun-core/src/text_parser_utilities.rs:24-51 | in a window that opens a line, a match that is not cut off is a line of the file, numbered from the window |

## Left out

- Processes, the sandbox, signals, pipes and the timeout thread: a command is a function on the disk that completes or times out.
- JSON, zstd, TOML, PDF, HTML and diff libraries: identities where a round trip passes through them; the regular expression and UTF-8 validity are arbitrary predicates.
- HTTP, tool dispatch, responses, the setup wizard, chat, metrics and the other bridges: plumbing.
- How the command and domain policies match: whether a command or a domain is allowed is an input.
- Package installation, mounting, exporting, text extraction, symlinks and empty directories: the disk holds regular files only, and overlays are carried along but never linked.
- Keys that alias on disk (`./a` and `a`) or run through another key: the disk is keyed by the file's key, so keys are taken as canonical and prefix-free.
- I/O errors other than a missing file during a sync.
- Machine widths in `crates/drun-core/src/session.rs`: sizes and ids are unbounded, so a limit in megabytes never overflows.
- Sessions.Session.ExecuteBash: overlays reach the command only as part of what decides its effect.
- Runs.Replay: configuration is fixed for a run; sharing after merges is stated call by call in Sessions.Session.MergeFrom.
- Snapshots.Restore: needs indices in range, as the program panics otherwise; what Snapshots.FromSession writes always is.
- Registry.EvictedNeverRuns: about updates, which look at the idle time; for the other calls Registry.EvictedIsUsedIff says what holds. The caller and the reaper use one timeout.
- Registry.NeverStuck: a session's work is one step that ends; fairness, and so the end of each single call, is not modelled.
- Session ids in the registry are unbounded and a free one is chosen, where the program retries random five-digit ones; ids are not reused.
- Poisoned mutexes: taken as recovered everywhere, also for the map in `crates/drun-mcp/src/web.rs`, where the program would panic.
- The two small mutexes for current sessions and live output: nothing is acquired while they are held.
- Forest.BuildForest: the nodes' ages, idle times, labels, deltas and running flags are not modelled; the order of roots is the order of the hash map. Parent references are as found, since nothing renumbers them when a parent is squashed.
- Assets.FetchAssets: requests are replies given beforehand; discovering assets in a page is not modelled, nor are the response codes listed in the manifest.
- HermesEditor.HermesConfig: lines only; splitting a file into lines and joining them is not modelled.
- Reading.ReadFile: text and base64 stand for the bytes themselves; how a whole file is wrapped by its media type is left out.
