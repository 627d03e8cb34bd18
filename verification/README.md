# Verified core of LocalAI's grant, stream, permit and replica protocols

LocalAI is a self-hosted inference server. This project models the parts of it that
are protocols, buffers or arithmetic rather than wiring, and proves what they keep:

- **Host grants.** Add-ons hold grants in one revisioned document. `Stage`, `Abort`,
  `Remove` and `Reconcile` are compare-and-set transactions on it, each with three
  attempts; an administrator's edit of the blanket switch or the deny lists is one with a
  single attempt at the revision the page showed. `GrantDocument` is the document, its
  normal form and its validity, `GrantNames` what its rules admit, `GrantOperations` the
  planners, `GrantStore` the store with its receipts, its audit and a disk that may leave
  a write in doubt, `GrantConcurrency` any number of callers interleaved step by step,
  `GrantTransactions` the loops as the program has them, and `GrantRefinement` shows that
  a call with its loops is a run of those steps. `GrantRecords` says record by record what
  each call leaves and which of its writes the document refuses, `GrantProvenance` over
  whole runs which operation a grant belongs to, `GrantPending` what undoing an operation
  restores and what the authority answers while it is pending. `BlanketTag` is the tag
  that one part prints and another parses, `RefreshWorker` the coalescing worker that
  follows every write.
- **Reply stream.** `ReplyStream` is the callback that reassembles runes from chunks cut
  anywhere, over the `Utf8` decoder; the latter is tied to the encoding of RFC 3629 in
  both directions.
- **Permits.** `DecisionPermits`, `GlobalAdmission` and `LiveSession` are step relations
  over channels of slots with cancellation, hand-over, reconfiguration and concurrent
  close; `AudioRecorder` is the bounded recording of a live session.
- **Replicas.** `LibraryReplica` is a frontend's copy of the owner's library sources under
  interleaved refreshes, on top of `GalleryReconcile`; `ModelLedger` is the shared model
  list of a peer-to-peer group.
- **Algorithms.** `Diarization`, `SharedCollections`, `Pooling`, `MatrixSharding` and
  `SoundAcceptors`. `Text` and `Sorting` hold decimal numerals, byte order and stable
  sort, `Basics` what several modules share.

Code that changes things in place is a class or a method with loops, proved against a
function; what the program promises is then proved about that function or about every
run. A concurrent protocol is a step relation: a state, the steps that are enabled in
it, and theorems about every state of every sequence of enabled steps.

## What the proofs found

Where the code does not do what its text says or a reader would expect, the model
follows the code, and the exact condition is a theorem:

- The character U+FFFD, correctly encoded, stops a reply stream for good, because the
  decoder reports it with the value that means "incomplete"
  (`ReplyStream.NothingHeldBackIffWellFormed`, `ReplyStream.ReplacementCharacterStopsTheStream`).
- Staging for a package of another identity takes away, before the operation completes,
  grants that work; aborting does not bring them back (`GrantPending.PendingStageAllowsTheSame`,
  `GrantPending.StageThenAbort`; `GrantPending.WorkingGrantIsLost` is such a run).
- A requested operation that the entry already holds for another, uncompleted operation
  stays ineffective after the new one completes, also when Stage reports success without a
  write (`GrantPending.CompletedStageTakesEffect`, `GrantPending.SuccessWithoutEffect`).
- An add-on cannot be removed with a hint once 128 other add-ons are remembered: the document
  refuses the write, and only removing an add-on again drops its hint
  (`GrantRecords.RemoveLeaves`, `GrantRecords.FullHintsRefuse`). A Stage that asks for one new operation twice is refused
  as a whole (`GrantRecords.StageCommitsIff`).
- An error leaves no trace, except that a write in doubt may be the document after the
  store is opened again (`GrantConcurrency.DoubtfulWriteSurvives`, `GrantRefinement.DoubtHappens`).
- A lifecycle call finds its derived operation ID taken exactly when an administrator's edit
  carried that very ID; it is then refused, never taken for a replay
  (`GrantConcurrency.CurrentRevisionIsNoReplay`).
- Operation IDs are valid up to 128 characters, yet one that leaves no room for the derived
  key cannot be staged (`GrantConcurrency.StageKeyFits`, `GrantConcurrency.LongIdDoesNotFit`).
- The "operation capacity reached" answer of the decision transport cannot occur,
  because the admission limit is the same number (`DecisionPermits.OperationsNeverFull`).
- A live response with only speaker segments or sounds is dropped, while the
  interface promises an event for every response (`LiveSession.AllDeliveredIff`,
  `LiveSession.SpeakersAndSoundsAloneAreLost`).
- After a drain timeout Close normally hides how the receive ended, but not when the receive
  failed just before (`LiveSession.TimeoutHidesReceiveError`, `LiveSession.ErrorAfterTimeout`).
- The library version covers no names, so a rename can go unnoticed
  (`LibraryReplica.AloneMatchesOwner` has the exact condition, `LibraryReplica.RenameHappens` a case).
- When refreshes overlap, a late answer can take a frontend back while its lists are not
  marked stale (`LibraryReplica.GoesBackIff`, `LibraryReplica.LateAnswerGoesBack`); one at a time
  never does (`LibraryReplica.OneAtATimeNeverGoesBack`).
- Announcements on the peer-to-peer list overwrite each other when a node read the list before
  others extended it; no name is lost from the group, and later synchronisations repair the
  list (`ModelLedger.AnnouncementKeepsList`, `ModelLedger.OnlyLateAnnouncementsDrop`,
  `ModelLedger.NothingIsLost`, `ModelLedger.Convergence`; `ModelLedger.RaceDrops` is such a run).
- The speaker list is sorted as text: from 101 speakers on it is not in first-seen order
  (`Diarization.ListedInFirstSeenOrder`, `Diarization.HundredAndOneSpeakers`).
- The unambiguous address of a shared collection is shadowed by a collection of the user
  with that very name (`SharedCollections.AddressRuns`, `SharedCollections.ShareIsShadowed`).
- Entries of one suffix that a shard boundary separates are merged twice
  (`MatrixSharding.MergedOnceOverall`, `MatrixSharding.ShardsMergeOnce`; two entries are enough,
  `MatrixSharding.TwoLegsAreMergedTwice`).

## Model

| member | source | states |
|---|---|---|
| `GrantDocument.ApplyPublishes` | core/services/addons/hostgrants/document.go:198-261 | every document a patch leads to is valid and in normal form: operation lists strictly sorted by name, hints sorted, deny lists within their rules; the revision of the blanket switch grows exactly when its mode or scope changes |
| `GrantDocument.ApplyEntry` | core/services/addons/hostgrants/document.go:198-261 | on a published document a patch decides each add-on by itself: it replaces, deletes or keeps the whole entry, after blanket grants are taken out when it revokes them, and the hint likewise |
| `GrantNames.OpNameIff` | core/services/addons/hostgrants/document.go:53 | the names of operations are exactly two or more words of lower-case letters with a dot between any two |
| `GrantNames.PrefixIff` | core/services/addons/hostgrants/document.go:54 | the deny prefixes are exactly one or more such words, each followed by a dot |
| `GrantNames.AddonIdIff` | core/services/addons/hostgrants/document.go:52 | an add-on ID is a letter or digit followed by letters, digits and hyphens |
| `GrantNames.OperationIdIff` | core/services/addons/hostgrants/document.go:267-289 | an operation ID is exactly a text of 1 to 128 printable characters without a space at either end |
| `GrantNames.DocumentIff` | core/services/addons/hostgrants/document.go:298-384 | a document is valid exactly when each of its at most 128 entries, hints and deny lists follows its rules, record by record and limit by limit, and the mode is one of three |
| `GrantOperations.RevokeTakesBlanketGrants` | core/services/addons/hostgrants/document.go:200-215 | revoking the blanket grants takes exactly the grants of that source; every other keeps its record and holder |
| `GrantOperations.EffectPublishes` | core/services/addons/hostgrants/store.go:211-218 | the effect of a whole transaction is a published document at exactly the next revision, and only an edit can change the revision of the switch |
| `GrantOperations.StageHolders` | core/application/addon_hostgrants.go:394-419 | name by name, a committed Stage gives a name that the continued entry lacks to its own operation, keeps the holder of every other grant of a continued entry, forgets an entry of another identity, and touches no other add-on |
| `GrantOperations.StageDecides` | core/application/addon_hostgrants.go:378-418 | for every request and document, by their fields: Stage is done when the operation is recorded already; else stale exactly when the revision it expects or the switch its tag names differs from the document; else done exactly when the package holds every name |
| `GrantOperations.CommittedStageHonoursClaims` | core/application/addon_hostgrants.go:382-393 | a Stage that commits expected no revision or the one it commits on, and its blanket tag names the revision of the switch it commits under |
| `GrantRecords.StagedRecords` | core/application/addon_hostgrants.go:394-419 | a committed Stage, record by record: package, generation and operation of the entry, the old records unchanged, each new one with its name, source, time, actor, version, switch and operation, and nothing else of the document touched |
| `GrantRecords.StageCommitsIff` | core/services/addons/hostgrants/document.go:323-364 | a Stage with something to write commits exactly when its texts and IDs are valid, each new name is an operation asked for once, and there is room for 32 grants and 128 add-ons |
| `GrantRecords.ThinnedRecords` | core/application/addon_hostgrants.go:462-487 | for Abort, Remove, Reconcile and edits: exactly which records stay, each unchanged with its entry, that an entry goes only when nothing of it stays, and what becomes of hints, switch and deny lists |
| `GrantRecords.ThinningNeverFails` | core/application/addon_hostgrants.go:465-484 | Abort and Reconcile write exactly when some grant does not stay, and the document never refuses that write |
| `GrantRecords.RemoveLeaves` | core/application/addon_hostgrants.go:508-529 | the whole document after Remove: it writes unless there is neither an entry nor a hint to drop, remembers exactly the names held when asked to, and is refused only for a new hint when 128 add-ons have one |
| `GrantRecords.FullHintsRefuse` | core/services/addons/hostgrants/document.go:368-370 | a valid document on which an add-on cannot be removed with a hint, and can without |
| `GrantRecords.EditCommitsIff` | core/services/addons/hostgrants/document.go:298-335 | an edit of the settings is a valid write exactly when its mode, text and deny lists are; revoking never stands in the way |
| `GrantRecords.OutdatedTagIsStale` | core/application/addon_hostgrants.go:387-393 | a blanket grant commits under the switch it was planned for and is stale once an administrator changed it |
| `GrantProvenance.EffectHolders` | core/application/addon_hostgrants.go:464-484 | for each of the four lifecycle calls and for edits of the settings, exactly which grants survive and which operation each survivor waits for |
| `GrantProvenance.ReconcileHolders` | core/services/addons/hostgrants/reconcile.go:40-90 | reconciling keeps a grant exactly when its add-on is installed under the same identity and its operation completed |
| `GrantProvenance.SequentialPublishes` | core/services/addons/hostgrants/store.go:187-249 | a sequential run of transactions keeps every document published and counts one revision per commit |
| `GrantProvenance.RunHonoursClaims` | core/application/addon_hostgrants.go:382-393 | in every run from any published document each Stage committed on the document it was planned against: at the revision it expects, and under the switch its tag names |
| `GrantProvenance.HolderIsOrigin` | core/services/addons/hostgrants/policy.go:128-136 | over every run from the empty document the effective operation of a surviving grant is that of the Stage that added it, whatever was upgraded, aborted, removed, reconciled or revoked in between |
| `GrantProvenance.OriginIsAStage` | core/application/addon_hostgrants.go:404-415 | the origin of a grant is a Stage of the run that named this add-on and this operation |
| `GrantProvenance.AbortRemovesItsOwn` | core/application/addon_hostgrants.go:454-504 | with unique operation IDs, Abort(op) removes a grant if and only if the Stage of op added it, the rest keep their origin, and only the one add-on of that Stage is touched |
| `GrantPending.StageThenAbort` | core/application/addon_hostgrants.go:394-484 | Stage then Abort of the same operation: the Abort is always a valid write, and every operation list is restored in order if and only if the add-on had no entry or one of the same identity; then only the generation of the entry differs |
| `GrantPending.AllowsIff` | core/services/addons/hostgrants/policy.go:114-136 | by the records: the entries allow an operation exactly when the entry is of the installed package and holds a grant of that name whose effective operation completed |
| `GrantPending.PendingStageAllowsTheSame` | core/services/addons/hostgrants/policy.go:114-125 | a Stage whose operation has not completed leaves what the entries allow as it is if and only if it replaces no entry of another identity that grants something now |
| `GrantPending.PendingAbortAllowsTheSame` | core/services/addons/hostgrants/policy.go:114-125 | aborting an operation that did not complete leaves what the entries allow as it is |
| `GrantPending.CompletedStageTakesEffect` | core/services/addons/hostgrants/policy.go:114-125 | for every Stage that reports success, with or without a write: when the operation completes, a requested name that the package already holds is allowed if and only if the operation it is held for completed, and any other if and only if the operation was not already staged |
| `GrantPending.WorkingGrantIsLost` | core/application/addon_hostgrants.go:394-419 | a run of two stages in which a working grant is gone before the second operation completes, and stays gone when that is aborted |
| `GrantPending.SuccessWithoutEffect` | core/application/addon_hostgrants.go:405-418 | a Stage that reports success, writes nothing, and whose completion leaves the requested name refused |
| `GrantPending.HintsGrantNothing` | core/application/addon_hostgrants.go:506-528 | two documents that differ only in their hints allow the same |
| `GrantStore.EvictDropsTheOldest` | core/services/addons/hostgrants/store.go:224-238 | after a write the receipts fit the limit, at most one is dropped, it is older than all that stay, and the new one stays |
| `GrantStore.UpdateShape` | core/services/addons/hostgrants/store.go:187-249 | an update either leaves the whole store alone or puts exactly the next revision and its receipt on disk, and the result tells which |
| `GrantStore.WritesIff` | core/services/addons/hostgrants/store.go:187-249 | a grant never exists without its audit line: a write reaches the disk exactly when the call is not cancelled, nothing speaks against it, its audit line was accepted and the disk did not refuse; without the line the store stays as it is |
| `GrantStore.AnswersIff` | core/services/addons/hostgrants/store.go:190-217 | cancelled, unavailable, bad operation ID, mismatch, replay, conflict and invalid: each answer with exactly the calls that get it |
| `GrantStore.OutcomesIff` | core/services/addons/hostgrants/store.go:219-249 | audit failure, not persisted, uncertain and updated: each outcome of a write that goes ahead, by its audit line and the disk |
| `GrantStore.ReopenAnswers` | core/services/addons/hostgrants/store.go:239-246 | a store opened again answers, from what was on the disk or, when a write in doubt is gone, from the document before it |
| `GrantStore.UpdateKeepsConsistent` | core/services/addons/hostgrants/store.go:187-249 | every call keeps the receipts bounded and of distinct revisions, and memory and disk apart only after a write in doubt |
| `GrantStore.Store.Read` | core/services/addons/hostgrants/store.go:142-153 | a snapshot is returned exactly when the call is not cancelled and the store is open and not in doubt, and is the current document |
| `GrantStore.Store.OldestReceipt` | core/services/addons/hostgrants/store.go:230-236 | the scan finds a receipt of the lowest revision |
| `GrantStore.Store.DropOldReceipts` | core/services/addons/hostgrants/store.go:229-238 | the loop drops exactly the receipts that do not fit |
| `GrantStore.Store.UpdateAudited` | core/services/addons/hostgrants/store.go:187-249 | compare-and-set with replay: every check in the order of the program, and the whole new state of memory, disk and the doubt flag |
| `GrantStore.Store.Publish` | core/services/addons/hostgrants/store.go:239-248 | a refused write changes nothing, a write in doubt reaches the disk and shuts the store, a durable one is published |
| `GrantConcurrency.KeyIdentifies` | core/application/addon_hostgrants.go:425 | two writes of lifecycle calls share an operation ID of the store only if they are for the same kind, target and revision |
| `GrantConcurrency.KeyIs` | core/application/addon_hostgrants.go:425 | the operation IDs of the store as each call derives them, and that of an edit |
| `GrantConcurrency.CurrentRevisionIsNoReplay` | core/services/addons/hostgrants/store.go:205-213 | in every reachable state a lifecycle call that writes at the current revision is never mistaken for a replay: its operation ID is unknown, unless an edit carried that very ID, and then the patches differ |
| `GrantConcurrency.StepKeeps` | core/application/addon_hostgrants.go:373-541 | every step of every caller, lifecycle calls and edits alike, closing and reopening the store keep the invariant that ties document, receipts and callers to the history of commits |
| `GrantConcurrency.TraceInv` | core/application/addon_hostgrants.go:373-541 | that invariant holds in every state of every interleaving of any number of callers |
| `GrantConcurrency.DiskIsSequential` | core/application/addon_hostgrants.go:373-541 | linearizability: the store answers from the last document of a sequential run of whole transactions, one per revision, and the disk holds that document or the write in doubt after it |
| `GrantConcurrency.ReopenIsSequential` | core/services/addons/hostgrants/store.go:239-246 | opening the store again, whether a write in doubt is there or not, finds the last document of a sequential run that extends the settled one |
| `GrantConcurrency.ResultTellsTrace` | core/application/addon_hostgrants.go:425-440 | a call that reports a commit wrote exactly once; success without work, a conflict and every error but a write in doubt left nothing; a replay had an identical commit before it; a caller that gave up lost to three commits of others |
| `GrantConcurrency.ThreeTries` | core/application/addon_hostgrants.go:373-440 | in every interleaving no call tries to write more than three times, and one gives up only after the third |
| `GrantConcurrency.GaveUpLostThree` | core/application/addon_hostgrants.go:425-440 | a lifecycle call that reports a conflict, or a Stage that claims nothing and reports a stale approval, began at least three commits of others before, and left nothing |
| `GrantConcurrency.CommitsHonourClaims` | core/application/addon_hostgrants.go:382-393 | in every interleaving each Stage on disk was planned against the document it was written to: at the revision it expects and under the switch its blanket tag names |
| `GrantConcurrency.ReadAnswersIff` | core/application/addon_hostgrants.go:378-418 | which read step of a Stage answers stale and which success without a write, by the fields of the request and the document |
| `GrantConcurrency.GrantsAreAudited` | core/application/addon_hostgrants.go:425-428 | in every interleaving each Stage and each edit on disk, settled or in doubt, was put there by a write step of its caller whose audit line was accepted, an edit at the revision it names |
| `GrantConcurrency.ClosedIsQuiet` | core/services/addons/hostgrants/store.go:142-153 | from closing to opening again, at any moment, every read and write of every caller is refused and nothing reaches the disk |
| `GrantConcurrency.AuditDecides` | core/application/addon_hostgrants.go:488-490 | the audit decides a write of Stage and of an edit, and no other call |
| `GrantConcurrency.DoubtfulWriteSurvives` | core/services/addons/hostgrants/store.go:239-246 | the one error that can leave a trace: a write in doubt fails for its caller; once the store is opened again it is the document and the caller's one write if it survived, else the document is the one before |
| `GrantConcurrency.GrantsOnDiskKeepTheirOrigin` | core/application/addon_hostgrants.go:394-440 | in every interleaving each grant on disk waits for the operation whose Stage added it |
| `GrantConcurrency.StageKeyFits` | core/application/addon_hostgrants.go:490 | a valid operation ID can be staged or aborted if and only if it and the decimal revision have at most 120 characters together |
| `GrantConcurrency.LongIdDoesNotFit` | core/application/addon_hostgrants.go:490 | IDs of 120 to 128 characters are valid and can never be aborted |
| `GrantTransactions.BuildEntry` | core/application/addon_hostgrants.go:394-415 | the loop over the requested operations builds the planned entry and the list of added names |
| `GrantTransactions.SplitEntry` | core/application/addon_hostgrants.go:465-476 | the loop keeps in order the grants of other operations and drops some exactly when the entry is staged by the operation |
| `GrantTransactions.BuildAbort` | core/application/addon_hostgrants.go:462-487 | the loop over the add-ons builds the planned patch, whatever the iteration order of the map |
| `GrantTransactions.IsStagedBy` | core/application/addon_hostgrants.go:445-452 | the scan finds whether some grant of the entry waits for the operation |
| `GrantTransactions.BuildStage` | core/application/addon_hostgrants.go:378-419 | the checks of Stage in their order, then its loop: done, stale or the planned patch |
| `GrantTransactions.BuildRemove` | core/application/addon_hostgrants.go:514-528 | the loop over the operations keeps their names as a hint when asked |
| `GrantTransactions.SplitCompleted` | core/services/addons/hostgrants/reconcile.go:58-66 | the loop keeps in order the grants whose operations completed, and drops some exactly when one did not |
| `GrantTransactions.BuildReconcile` | core/services/addons/hostgrants/reconcile.go:40-93 | the loop over the add-ons builds the planned patch |
| `GrantTransactions.UndisturbedCallIsAtomic` | core/application/addon_hostgrants.go:373-541 | a call that nothing disturbs publishes its effect on the document it found, or publishes nothing; an edit that names another revision is refused as a conflict |
| `GrantTransactions.HostGrants.PlanCall` | core/application/addon_hostgrants.go:373-528 | each call plans with its own loops what the specification plans |
| `GrantTransactions.HostGrants.WriteAt` | core/application/addon_hostgrants.go:425-428 | a write at the revision read, under the derived operation ID, keeps the store consistent |
| `GrantTransactions.HostGrants.Transact` | core/application/addon_hostgrants.go:457-503 | the loop of three attempts, with other calls between read and write, ends in the state and reply of the specification and keeps the store consistent |
| `GrantTransactions.HostGrants.Stage` | core/application/addon_hostgrants.go:348-441 | a locked store and an unknown blanket tag are refused without a trace; otherwise the tag is parsed and the transaction runs |
| `GrantTransactions.HostGrants.Edit` | core/services/addons/gateway/hostgrants_owner.go:749-905 | an edit of the blanket switch or the deny lists: refused when locked, else one read and one write at the revision that the page showed, without a second try |
| `GrantRefinement.RivalIsSteps` | core/application/addon_hostgrants.go:457-495 | a whole call of another caller is enabled steps of the interleaved system (begin, read, write) that leave the same store and touch no other caller |
| `GrantRefinement.PassIsSteps` | core/application/addon_hostgrants.go:457-495 | one pass of the retry loop is its read step, the steps of the others and its write step, with the same store and outcome |
| `GrantRefinement.CallIsSteps` | core/application/addon_hostgrants.go:373-541 | from any state of the system a whole call with its three attempts is a sequence of enabled steps that ends in the same store and reply |
| `GrantRefinement.CallsAreLinearizable` | core/application/addon_hostgrants.go:373-541 | after any run, a whole call continues that run: the disk holds the last document of a sequential run of transactions that extends the one before, and a call that fails left nothing unless its write is in doubt |
| `GrantRefinement.CallsStayReachable` | core/application/addon_hostgrants.go:373-541 | a new store is one the system reaches, and every call keeps it so |
| `GrantRefinement.DoubtHappens` | core/services/addons/hostgrants/store.go:239-246 | from a new store: a Stage whose write is in doubt, after which the store has the grant or nothing |
| `BlanketTag.ParseIsThePattern` | core/application/addon_hostgrants.go:331 | the parser accepts exactly the strings of the pattern and returns its two groups, a revision above 64 bits saturating |
| `BlanketTag.RoundTrip` | core/application/addon_hostgrants.go:357-372 | a printed tag parses back to the same mode and revision if and only if the mode is on and the revision fits 64 bits |
| `BlanketTag.PrintInjective` | core/application/addon_hostgrants.go:577 | distinct pairs of mode and revision print distinct tags |
| `BlanketTag.GrantedTagIsAccepted` | core/application/addon_hostgrants.go:558-578 | the switch hands out the operations exactly when the store can be used, something is left to grant, and the mode in force (the deployment's, else the document's) is any, or official like the package; and then a tag that Stage reads back to that mode and the document's revision |
| `RefreshWorker.RefreshState.RequestRefresh` | core/application/addon_hostgrants.go:295-302 | the critical section of a caller: the queued flag is set, and a worker is to be started exactly when none runs |
| `RefreshWorker.RefreshState.TakeWork` | core/application/addon_hostgrants.go:305-312 | the critical section of the worker: it takes the queued flag, or clears the running flag and ends |
| `RefreshWorker.StepKeeps` | core/application/addon_hostgrants.go:290-327 | every step of callers and worker keeps: one worker at most, flags truthful, requests answered or still queued |
| `RefreshWorker.AtMostOneWorker` | core/application/addon_hostgrants.go:297-303 | in every interleaving there is at most one worker, and there is one exactly when the running flag is set |
| `RefreshWorker.NoWakeupLost` | core/application/addon_hostgrants.go:290-327 | while the context lives, whenever no worker runs every request was followed by a refresh that the manager started, by the steps of the run |
| `RefreshWorker.RefreshesAreRequested` | core/application/addon_hostgrants.go:290-327 | the refreshes started never outnumber the requests made |
| `RefreshWorker.StepsTell` | core/application/addon_hostgrants.go:290-327 | counters and times of the state are those of the steps, and a refresh starts exactly for a worker that finds the context alive |
| `RefreshWorker.RequestIsServed` | core/application/addon_hostgrants.go:290-327 | a run in which a request on an idle process is served and the worker ends |
| `RefreshWorker.WorkerEnds` | core/application/addon_hostgrants.go:303-326 | without new requests the worker ends within six steps, each of which brings it nearer |
| `RefreshWorker.WorkerCanMove` | core/application/addon_hostgrants.go:303-326 | a worker always has a step to make |
| `Utf8.DecodeReadsEncode` | core/backend/llm.go:293 | the decoder reads back every scalar value encoded as in section 3 of RFC 3629, whatever follows |
| `Utf8.DecodeIsEncode` | core/backend/llm.go:293 | the decoder accepts only such encodings: no overlong form, surrogate or value above U+10FFFF (section 4 of RFC 3629) |
| `Utf8.DecodeRefuses` | core/backend/llm.go:293-297 | the error rune has size 0 for no bytes and 1 otherwise, unless the bytes are U+FFFD itself, of size 3 |
| `Utf8.DecodeIsStable` | core/backend/llm.go:293-299 | a rune that decodes still decodes to itself when more bytes arrive |
| `Utf8.DecodeIsLocal` | core/backend/llm.go:293-297 | four bytes settle the answer of the decoder |
| `ReplyStream.CompleteAppend` | core/backend/llm.go:266-300 | decoding a first part, then its leftover with the rest, is decoding the whole: the boundary between two messages does not matter |
| `ReplyStream.LeftoverIsStuck` | core/backend/llm.go:292-300 | what is held back is empty or does not decode |
| `ReplyStream.NothingHeldBackIffWellFormed` | core/backend/llm.go:292-306 | the whole stream reaches the caller if and only if it is well-formed UTF-8 without U+FFFD |
| `ReplyStream.LeftoverIsShort` | core/backend/llm.go:292-300 | of such a stream at most three bytes are held back after any prefix |
| `ReplyStream.StuckForever` | core/backend/llm.go:294-297 | once four bytes are held back no later message adds anything to the response |
| `ReplyStream.ReplacementCharacterStopsTheStream` | core/backend/llm.go:294-297 | U+FFFD, correctly encoded between two letters, is never forwarded and stops the stream |
| `ReplyStream.ChunkingIsInvisible` | core/backend/llm.go:264-314 | two cuts of one byte stream give the same response, leftover and forwarded text, and response with leftover is all bytes received |
| `ReplyStream.StreamCallback.Call` | core/backend/llm.go:248-251 | one call of the token callback, counted first when usage is on |
| `ReplyStream.StreamCallback.TakeCompleteRunes` | core/backend/llm.go:291-300 | the inner loop splits the buffer into its greedy decodable prefix and the rest |
| `ReplyStream.StreamCallback.Forward` | core/backend/llm.go:302-310 | completed runes go out as one token, an empty message as one empty token, each with the deltas of this reply and the count at that moment; nothing else is sent |
| `ReplyStream.StreamCallback.OnReply` | core/backend/llm.go:265-314 | one reply takes the state of the replies before it to the state of the replies with it, whatever the cut, and sends exactly those tokens |
| `ReplyStream.StreamCallback.Run` | core/backend/llm.go:256-314 | over all replies the response is the greedy prefix of the bytes received, and all of them exactly when they are well-formed without U+FFFD |
| `DecisionPermits.StepKeeps` | core/backend/decision_runner.go:43-137 | every step of callers, workers, cancellation and other users keeps both channel lengths equal to their holders |
| `DecisionPermits.SlotsAreWorkers` | core/backend/decision_runner.go:39-86 | in every interleaving the operation slots in use are the workers that have not returned theirs, at most 8, every slot holder holds an admission, and at most 8 admissions are out |
| `DecisionPermits.OperationsNeverFull` | core/backend/decision_runner.go:73-77 | the answer "operation capacity reached" is never given: a caller that asks for a slot always finds one |
| `DecisionPermits.ReleasedExactlyOnce` | core/backend/decision_runner.go:51-56 | each admission permit is released exactly once, before the hand-over by the admission or the caller, after it by the worker; when all calls are over every permit is back |
| `DecisionPermits.AnswersIff` | core/backend/decision_runner.go:43-137 | which step of a call gives which answer: the end of the context at every look, a full transport only to a live call that finds eight admissions, a bad request after admission, the result only to a live call |
| `DecisionPermits.CallerMoves` | core/backend/decision_runner.go:43-137 | a call goes through its stages in order: a step of its own answers or takes it to the next stage, any other leaves it, and an answer is final |
| `DecisionPermits.WorkerMoves` | core/backend/decision_runner.go:82-127 | the worker starts with the slot, computes, sends, returns the slot and the admission, in that order and by its own steps; the result is in the buffer from the send to the receive |
| `DecisionPermits.ResultWaits` | core/backend/decision_runner.go:108-121 | a result that was sent can be taken as long as the caller has not left, and the caller can leave exactly when its context ended |
| `DecisionPermits.CallerNeverBlocks` | core/systemone/admission.go:22-38 | a caller can always make its next step until it waits for its worker |
| `DecisionPermits.WorkerNeverBlocks` | core/backend/decision_runner.go:82-127 | each worker sends exactly one result into an empty buffer of one and finds its slot and permit to take back, even if its caller has left |
| `GlobalAdmission.StepKeeps` | core/backend/global_admission.go:34-66 | configuring, acquiring and releasing keep each channel length equal to its unreleased tickets and within its capacity |
| `GlobalAdmission.OccupancyIsTickets` | core/backend/global_admission.go:34-66 | that holds in every run, also when a reconfiguration comes between the two halves of an acquire, and no release ever waits |
| `GlobalAdmission.SendGrants` | core/backend/global_admission.go:59-65 | an acquire is granted exactly when fewer tickets of the channel it read are out than it has slots, and gets a ticket of that channel; else it is told the limit it read; nothing else changes |
| `GlobalAdmission.ConfigureOpens` | core/backend/global_admission.go:34-55 | a configuration opens an empty channel of its limit, 1024 when that is not positive, and leaves older channels and tickets alone; an acquire does so once before any configuration |
| `GlobalAdmission.ReturnFrees` | core/backend/global_admission.go:61-62 | the first return of a ticket frees exactly one slot of its own channel, later ones nothing |
| `GlobalAdmission.HeldWithinLimit` | core/backend/global_admission.go:34-73 | in every run as many tickets of a channel are out as it reports, within its slots |
| `GlobalAdmission.ForeignTicketsNeverFree` | core/backend/global_admission.go:59-63 | over any stretch without sends to a channel, its length falls by exactly its own tickets released: tickets of other configurations never free a slot of it |
| `GlobalAdmission.Admission.Configure` | core/backend/global_admission.go:34-42 | a new empty channel replaces the current one; a limit that is not positive means 1024 |
| `GlobalAdmission.Admission.Read` | core/backend/global_admission.go:47-58 | the channel to try and its capacity, made on the first acquire of an unconfigured process |
| `GlobalAdmission.Admission.Send` | core/backend/global_admission.go:59-65 | an acquire is granted exactly when the channel it read has room, and never waits |
| `GlobalAdmission.Admission.Return` | core/backend/global_admission.go:61-62 | the first call of a release returns one slot to the ticket's own channel, later calls nothing |
| `GlobalAdmission.Admission.InFlight` | core/backend/global_admission.go:69-73 | the reported number is that of the tickets of the current channel that are out |
| `LiveSession.StepKeeps` | core/backend/transcript_live.go:273-341 | every step of opening, receiving and any number of concurrent Close calls keeps the invariant on slot, stream and errors |
| `LiveSession.SlotReleasedOnce` | core/backend/transcript_live.go:94-113 | on every path the slot is released at most once, and exactly once after a failed opening that took it or a returned Close |
| `LiveSession.StepsTell` | core/backend/transcript_live.go:273-331 | by the steps of the run: the session is open, failed with its error, failed to close the sending side, or recorded a receive error exactly when the step that means so was taken, the last only before the stream context ended |
| `LiveSession.CancelStep` | core/backend/transcript_live.go:94-113 | the stream context ends exactly with the parent, a failed opening that holds the slot, the drain timeout or the end of Close |
| `LiveSession.ReleaseFollowsReceiver` | core/backend/transcript_live.go:97-110 | when the slot is back the receive goroutine has ended or never started, and the stream context has ended |
| `LiveSession.QuietAfterClose` | core/backend/transcript_live.go:94-113 | once any Close has returned nothing more is delivered and the error of Close stays as it is |
| `LiveSession.DeliveredIsPassing` | core/backend/transcript_live.go:321-339 | the delivered events are the responses that pass the filter, in order, none repeated or skipped, also while one is being delivered |
| `LiveSession.AllDeliveredIff` | core/backend/transcript_live.go:332-337 | every response gives an event if and only if each carries a delta, an end mark, words or the final result |
| `LiveSession.LeftOutIff` | core/backend/transcript_live.go:332-337 | leaving a response out of a stream leaves the events as they are if and only if it has no delta, no mark, no words and no final result |
| `LiveSession.DeliveredAre` | core/backend/transcript_live.go:321-339 | over every run, when nothing is being delivered, the delivered events are exactly the received responses with one of those five, each once and in order |
| `LiveSession.SpeakersAndSoundsAloneAreLost` | core/backend/transcript_live.go:333-335 | a response with only speaker segments and sounds gives no event, wherever it comes |
| `LiveSession.CancelFixesError` | core/backend/transcript_live.go:325-331 | once the stream context has ended it is settled whether a receive error is recorded: if and only if the goroutine had passed its look at the context before |
| `LiveSession.TimeoutHidesReceiveError` | core/backend/transcript_live.go:94-113 | Close returns the error of CloseSend, else that of the receive; after a drain timeout it returns a receive error if and only if CloseSend succeeded and the receive had failed and passed its look at the context when the timeout came |
| `LiveSession.CloseReturns` | core/backend/transcript_live.go:94-113 | what every Close returns, by the steps of the run: the error of CloseSend, else that of a receive that failed before the stream context ended, else none |
| `LiveSession.ErrorAfterTimeout` | core/backend/transcript_live.go:322-331 | a run in which the timeout comes between that look and the end of the goroutine, and Close returns the receive error |
| `LiveSession.CloseNeverStuck` | core/backend/transcript_live.go:94-113 | a Close that has not returned always has an enabled step that brings it nearer: its own, that of the call that won the once, or the end of the cancelled receive |
| `LiveSession.NothingDelaysClose` | core/backend/transcript_live.go:94-113 | no step of anyone takes a Close further from returning |
| `AudioRecorder.EncodeReadsBack` | pkg/sound/float32.go:16-28 | every encoded sample reads back as the truncated and clamped 16-bit value |
| `AudioRecorder.EncodeAppend` | pkg/sound/float32.go:16-28 | encoding a concatenation is concatenating encodings |
| `AudioRecorder.QuantizeIs` | pkg/sound/float32.go:16-28 | a sample is scaled by 32767 and cut towards zero to an integer, and what falls outside of 16 bits becomes the nearest end |
| `AudioRecorder.SnippetIs` | core/backend/transcript_live.go:158-172 | what is kept is a prefix of at most 480000 samples and 960000 bytes |
| `AudioRecorder.Recorder.AddPCM` | core/backend/transcript_live.go:158-172 | a call extends what is recorded from the samples fed before to those with this chunk, never beyond the byte cap |
| `AudioRecorder.Recorder.AddAll` | core/backend/transcript_live.go:158-172 | after any calls the count is the total fed and the bytes encode exactly the first min(total, cap) samples of the concatenated input |
| `GalleryReconcile.ReconcileKind` | core/library/startup.go:164-199 | the two loops compute the reconciled list |
| `GalleryReconcile.ReconciledUrls` | core/library/startup.go:164-199 | an address is listed afterwards exactly when a live source has it, or it was listed and no source of the kind knows it |
| `GalleryReconcile.ListedIff` | core/library/startup.go:164-199 | by the fields of the sources: an address is listed exactly when a source of the kind has it, is switched on, neither removed nor suspended, and in a readable format; or it was listed and no source of the kind has it |
| `GalleryReconcile.GalleriesAre` | core/library/startup.go:179-197 | the whole result by fields: first the listed galleries that stay, in order and as they were but for the mirrors of the last source that offers them; then one for each other offered address, with name, address, mirrors and kind of its first readable source |
| `GalleryReconcile.ReconciledOnce` | core/library/startup.go:192-197 | the second loop only appends, and lists that name no address twice still do not |
| `GalleryReconcile.DeletedSourceLeaves` | core/application/library_snapshot.go:35-37 | rebuilding from the base lists drops a source the owner deleted, rebuilding from the current lists would keep it |
| `GalleryReconcile.SameRowsSameGalleries` | core/library/admin.go:97-114 | source lists with the same version rows give the same galleries up to names |
| `GalleryReconcile.AddedName` | core/library/startup.go:192-197 | an appended gallery carries the name of the first readable source of its address |
| `GalleryReconcile.SameGalleriesIffSameNames` | core/library/admin.go:97-114 | source lists with the same version rows give the same galleries if and only if the first readable sources of every live address not listed yet have the same name |
| `LibraryReplica.StepKeeps` | core/application/library_snapshot.go:53-108 | every step of interleaved refreshes and every change at the owner keeps the replica invariant |
| `LibraryReplica.ListsAreTheRecordedListing` | core/application/library_snapshot.go:53-108 | in every state of every run the lists are the flags' before the first answer, and after it the reconcile of the flags' galleries with the sources the owner had at the one recorded answer, whose version is held; stale implies loaded |
| `LibraryReplica.FailureOnlyMarks` | core/application/library_snapshot.go:58-66 | a refresh that ends in failure changed nothing at any of its steps but the stale flag, and that with its last step and only once loaded |
| `LibraryReplica.EndsIff` | core/application/library_snapshot.go:53-108 | a refresh succeeds exactly when a readable answer arrives, fails exactly when the owner is not ready, does not answer or answers something unreadable, and its last step sets or clears the mark |
| `LibraryReplica.AnswerIs` | core/library/admin.go:192-204 | the owner answers without sources exactly when the caller holds the version of the sources it has now |
| `LibraryReplica.TakenIff` | core/application/library_snapshot.go:87-107 | an answer is taken exactly when it brings sources of a version that is not held; else nothing changes |
| `LibraryReplica.AloneMatchesOwner` | core/application/library_snapshot.go:71-108 | a successful refresh that runs alone clears the flag and matches the owner's sources up to names, and exactly if and only if the version was not held or the held listing names its galleries as the owner does |
| `LibraryReplica.AloneServes` | core/application/library_snapshot.go:71-108 | after a successful refresh that runs alone, held version or not, exactly the addresses that the owner's sources offer, or that the flags name and no source has, are served; one whose sources are all switched off, removed or suspended is not |
| `LibraryReplica.TraceServes` | core/application/library_snapshot.go:53-108 | in every state of every run a loaded frontend serves what the sources of the recorded answer make it serve |
| `LibraryReplica.RenameIsMissed` | core/library/admin.go:97-114 | for both kinds and any source list, a new name of the first source of a live address that the flags do not list is missed by a frontend that holds the version |
| `LibraryReplica.RenameHappens` | core/library/admin.go:97-114 | it happens to any live source that the flags do not list |
| `LibraryReplica.GoesBackIff` | core/application/library_snapshot.go:81-107 | in every run a refresh takes the lists back in time if and only if it applies an answer it asked for before the request that got the recorded answer |
| `LibraryReplica.OnlyApplyMoves` | core/application/library_snapshot.go:91-107 | no other step changes the lists or the recorded answer |
| `LibraryReplica.OneAtATimeNeverGoesBack` | core/application/library_snapshot.go:53-108 | while at most one refresh is in flight the recorded answer never goes back |
| `LibraryReplica.LateAnswerGoesBack` | core/application/library_snapshot.go:83-107 | for any change that the version shows there is a run of two overlapping successful refreshes after which the lists are the old ones again, with nothing in flight and no stale mark |
| `LibraryReplica.Frontend.Take` | core/application/library_snapshot.go:87-107 | the critical section that takes an answer: bases fixed at the first load, lists rebuilt from them, version recorded, or nothing |
| `LibraryReplica.Frontend.Mark` | core/application/library_snapshot.go:56-68 | the critical section that marks the outcome of a refresh |
| `ModelLedger.SyncState` | core/application/p2p.go:173-241 | one synchronisation: what is announced and which installs are asked for, also for a missing and an unreadable list |
| `ModelLedger.AnnouncedNames` | core/application/p2p.go:199-214 | the announced list begins with the old one and holds exactly its names and the node's |
| `ModelLedger.WantedIsMissing` | core/application/p2p.go:217-238 | the installs asked for are listed names the node lacks, and all of them when every operation ID can be made |
| `ModelLedger.WantedIff` | core/application/p2p.go:217-238 | a name is asked for exactly when the node lacks it and an operation ID could be made at a place where it is listed |
| `ModelLedger.UnreadableStays` | core/application/p2p.go:181-191 | data that is no list is never announced over and installs nothing; a missing list is announced and installs nothing |
| `ModelLedger.NodeSteps` | core/application/p2p.go:173-241 | what each step does to its node: a synchronisation asks for what the list it read has and the node lacks, a finished install adds its name, no step touches another node |
| `ModelLedger.AnnouncementKeepsList` | core/application/p2p.go:181-214 | an announcement over a list that changed meanwhile keeps every name if and only if there was nothing to announce or what the node read and has covers the list |
| `ModelLedger.OnlyLateAnnouncementsDrop` | core/application/p2p.go:181-214 | in every run names leave the list only at an announcement, exactly those that its node neither read nor has, and each is still on a node |
| `ModelLedger.RaceDrops` | core/application/p2p.go:181-214 | the run of two nodes that read the same list and announce one after the other drops the first one's name |
| `ModelLedger.StepKeeps` | core/application/p2p.go:173-241 | every step, a whole synchronisation or one of its halves, keeps the list at what it began with or more, and every node within the names of the group |
| `ModelLedger.NothingIsLost` | core/application/p2p.go:173-241 | in every run, also when reads and announcements interleave and overwrite each other, the names on list and nodes together stay the same |
| `ModelLedger.StepGrows` | core/application/p2p.go:199-238 | a whole synchronisation only appends to the list, and no node loses a name it has or asked for |
| `ModelLedger.RunGrows` | core/application/p2p.go:173-241 | over any stretch of whole synchronisations the list only grows at its end and the nodes only grow |
| `ModelLedger.Convergence` | core/application/p2p.go:173-241 | whatever races came before, after any schedule of whole synchronisations in which every node has a turn and then another, and once installs have finished, the list and every node hold exactly the union of the initial sets |
| `Diarization.CollectSegments` | core/backend/diarization.go:142-184 | the loop emits the segments with their speaker identifiers and tracks index, totals and name per label |
| `Diarization.CollectSounds` | core/backend/diarization.go:186-199 | the loop keeps the sounds that are present, in order |
| `Diarization.FromResponse` | core/backend/diarization.go:130-222 | the whole result, also for a missing answer and for an answer without segments |
| `Diarization.OrderDistinct` | core/backend/diarization.go:159-164 | no label is listed twice |
| `Diarization.OrderCovers` | core/backend/diarization.go:155-164 | the listed labels are exactly those of the present segments, an empty one read as "0" |
| `Diarization.ListedBefore` | core/backend/diarization.go:159-164 | a label is listed before another if and only if at some point the one has been seen and the other has not |
| `Diarization.SegmentsNameTheirSpeaker` | core/backend/diarization.go:174-183 | every emitted segment carries the times, text and name of its source segment and the identifier of the speaker entry with its label |
| `Diarization.EmittedInOrder` | core/backend/diarization.go:151-184 | the present segments are emitted in order, each once, under their original numbers |
| `Diarization.SoundsKept` | core/backend/diarization.go:186-199 | the sounds of the result are those present, each once and in order |
| `Diarization.NameIsTheFirst` | core/backend/diarization.go:170-172 | a speaker is named after the first segment with the label that has a name |
| `Diarization.SameSpeakerIffSameLabel` | core/backend/diarization.go:174-177 | two segments have the same identifier if and only if their labels are the same |
| `Diarization.TalliesAddUp` | core/backend/diarization.go:165-169 | the speakers' segment counts and durations add up to those of all segments |
| `Diarization.TotalCountsEmitted` | core/backend/diarization.go:165-169 | the total counts the emitted segments and sums exactly their positive durations |
| `Diarization.TallyIsOwn` | core/backend/diarization.go:165-169 | a speaker's totals are the number and the positive durations of the emitted segments with its label |
| `Diarization.ListedInFirstSeenOrder` | core/backend/diarization.go:206-219 | the speaker list, sorted by identifier, is in first-seen order if and only if there are at most 100 speakers |
| `Diarization.HundredAndOneSpeakers` | core/backend/diarization.go:206-219 | a list of 101 speakers that comes out of order |
| `Diarization.EverySpeakerListed` | core/backend/diarization.go:206-219 | in any case it holds every speaker once, with distinct identifiers |
| `SharedCollections.List` | core/application/share_collections.go:60-83 | the listing: addresses assigned by counting names, sorted by address; none without a user or when the sharing service fails |
| `SharedCollections.AddressesDiffer` | core/application/share_collections.go:72-81 | with distinct IDs the addresses are pairwise distinct and the listing is strictly sorted |
| `SharedCollections.AddressIs` | core/application/share_collections.go:72-81 | the address of a share is its name when no other share has the name, the user has none of it and it does not look like an address; else "shared:" and its ID |
| `SharedCollections.ListingIs` | core/application/share_collections.go:60-83 | every share once, sorted by address; nothing without a user or an answer |
| `SharedCollections.Find` | core/application/share_collections.go:173-187 | the first listed collection whose address or unambiguous name is the name; else the only one of that name, unless the user has one of it |
| `SharedCollections.ResolveIsDenotation` | core/application/share_collections.go:173-187 | a name resolves to a collection if and only if it is its unambiguous name, or its own name, unique among the shares, not the user's, and nobody's unambiguous name |
| `SharedCollections.DenotesOne` | core/application/share_collections.go:173-187 | a name never denotes two collections |
| `SharedCollections.AddressResolves` | core/application/share_collections.go:174-178 | an assigned address and the unambiguous name resolve to exactly that collection |
| `SharedCollections.BareNameResolves` | core/application/share_collections.go:179-185 | a name without the prefix resolves if and only if exactly one shared collection has it and none of the user's own |
| `SharedCollections.WithCollection` | core/application/share_collections.go:135-169 | the chain of decisions: the user's own name first, then the shares, the role and the admission |
| `SharedCollections.ShareAnswers` | core/application/share_collections.go:150-169 | a call on the name of a share runs on it exactly when the role allows the action (an editor reads, outputs and writes, a viewer reads and outputs) and sharing is on and admits it, and every answer with exactly its case |
| `SharedCollections.OtherAnswers` | core/application/share_collections.go:135-150 | a call on any other name: the user's own collection, nothing, or a failed listing |
| `SharedCollections.AddressRuns` | core/application/share_collections.go:144-168 | with working services, calling an assigned address runs on that collection if and only if the role allows the action and the user has no collection under the address; only an unambiguous address can be shadowed so |
| `SharedCollections.ShareIsShadowed` | core/application/share_collections.go:144-146 | a user whose own collection is called as the address of a share |
| `SharedCollections.RunsOnlyOnShares` | core/application/share_host_kinds.go:46-56 | a collection of another account is run on only through a share that the name denotes: to write an editor's, to read or output an editor's or a viewer's, and never to change schema, sharing or existence |
| `Pooling.Reshape` | core/backend/pooling.go:38-50 | refused exactly when the shape is not positive or does not fit, else rows of that shape whose concatenation is the payload |
| `Pooling.ConcatInjective` | core/backend/pooling.go:35-50 | rows of one width are determined by their concatenation, so reshaping undoes packing |
| `Pooling.PoolMean` | core/backend/pooling.go:53-66 | the accumulating loops compute the mean |
| `Pooling.PoolDecayedMean` | core/backend/pooling.go:80-97 | the accumulating loops compute the mean weighted by powers of the one-token decay |
| `Pooling.DecayRecurrence` | core/backend/pooling.go:76-91 | appending a token makes the sum r times the old sum plus the new value, and the weight sum r times the old plus one |
| `Pooling.DecayedMeanBounds` | core/backend/pooling.go:92-96 | each pooled coordinate lies between any bounds on that coordinate of the tokens |
| `Pooling.MeanIsUndecayed` | core/backend/pooling.go:53-66 | the mean is the decayed mean without decay, so it has the same bounds |
| `Pooling.Measure` | core/backend/pooling.go:105-127 | the switch over the norms computes the size that the vector is divided by |
| `Pooling.Normalize` | core/backend/pooling.go:105-140 | the loops compute the normalized vector, zero for a zero size |
| `Pooling.SizeScaled` | core/backend/pooling.go:106-127 | for norm 0 and every p-norm a positive factor on the vector is a factor on its size |
| `Pooling.NormalizedSize` | core/backend/pooling.go:131-139 | a nonzero vector comes out with greatest absolute value 32760 for norm 0 and absolute power sum 1 for every p from 1 on |
| `Pooling.NormalizeTwice` | core/backend/pooling.go:105-140 | normalizing twice is normalizing once, for every norm and vector |
| `Pooling.NormalizeIgnoresScale` | core/backend/pooling.go:105-140 | a positive factor on the vector does not show in the result |
| `Pooling.DivisionDoesNotMatter` | core/backend/pooling.go:167-187 | dividing by the token count or by the weight sum does not affect the final embedding |
| `Pooling.PoolEmbedding` | core/backend/pooling.go:167-187 | shape errors before scheme errors, the default half-life for one that is not positive; "mean", "last" and "decayed_mean" name the three reductions, and the result is normalized |
| `MatrixSharding.SplitByArch` | scripts/changed-backends.js:200-204 | the two classes together hold every entry exactly once |
| `MatrixSharding.ClassHolds` | scripts/changed-backends.js:200-204 | each class holds only entries with, or only without, a platform tag |
| `MatrixSharding.SplitKeepsOrder` | scripts/changed-backends.js:200-204 | each class lists all its entries in the order of the matrix |
| `MatrixSharding.ChunkEqually` | scripts/changed-backends.js:224-235 | exactly the asked number of consecutive chunks that concatenate to the list, sizes non-increasing and differing by at most one |
| `MatrixSharding.GroupBySuffix` | scripts/changed-backends.js:166-172 | the groups in insertion order: each suffix with its entries |
| `MatrixSharding.ComputeMergeMatrix` | scripts/changed-backends.js:165-192 | one merge per suffix in first-seen order, and a warning exactly for the suffixes of two entries that differ in their latest tag |
| `MatrixSharding.EverySuffixOnce` | scripts/changed-backends.js:165-192 | every suffixed entry's suffix is in the matrix, exactly once, and no other is |
| `MatrixSharding.FirstLeg` | scripts/changed-backends.js:179 | the latest tag is that of the first entry of the list with the suffix |
| `MatrixSharding.MergeTells` | scripts/changed-backends.js:173-186 | each suffix is merged once, under the latest tag of the first entry that has it |
| `MatrixSharding.EmitSinglearchShards` | scripts/changed-backends.js:239-261 | the size error comes exactly from 1021 entries on, always at the first shard and before any output; otherwise every shard is written in full and below the limit; all shards together merge every suffix once if and only if no boundary between shards separates entries of one suffix |
| `MatrixSharding.Output.WriteShard` | scripts/changed-backends.js:254-259 | the four lines of one shard |
| `MatrixSharding.LinesAre` | scripts/changed-backends.js:239-261 | the lines of all shards: four of each in order, whether it has entries, whether any of them is merged, its entries and its merges |
| `MatrixSharding.MergedOnceOverall` | scripts/changed-backends.js:239-261 | any number of shards together merge every suffix once if and only if no suffix occurs in two of them |
| `MatrixSharding.ShardsMergeOnce` | scripts/changed-backends.js:224-255 | for the chunks of a list that is so exactly when its entries of one suffix lie on one side of every chunk boundary |
| `MatrixSharding.MergedInOrder` | scripts/changed-backends.js:239-261 | when no two entries share a suffix the merges come in the order of the entries |
| `MatrixSharding.TwoLegsAreMergedTwice` | scripts/changed-backends.js:224-255 | a list of two entries of one suffix is already split by the four shards |
| `SoundAcceptors.KeyscaleValues` | core/backend/sound_expansion.go:108-122 | the nested loops put every combination of note, accidental and mode at its own of 504 positions |
| `SoundAcceptors.ValuesDiffer` | core/backend/sound_expansion.go:108-122 | the 504 values are distinct |
| `SoundAcceptors.KeyAgreement` | core/backend/sound_expansion.go:31 | the key expression with the 32-character cap accepts a string if and only if the enumeration holds it; the cap never decides |
| `SoundAcceptors.PartAgreement` | core/backend/sound_expansion.go:91-95 | one or two digits from 1 through 32 are exactly what a part of the schema pattern matches |
| `SoundAcceptors.MeterAgreement` | core/backend/sound_expansion.go:137 | the meter expression with the range checks accepts a string if and only if the schema pattern does |
| `SoundAcceptors.CheckFields` | core/backend/sound_expansion.go:77-96 | the chain of checks on the two fields accepts exactly what the schema allows, and names the key as the fault exactly when it is not in the enumeration |

## Left out

- GrantDocument.ApplyPublishes: time stamps are not checked, and neither is the size of the document on the way to disk; a write the disk refuses for any reason is one case.
- The editors that change the grants of one add-on, and the blanket switch with "apply to installed"; their patches are modelled, their runs are not. The deny and floor rules of the authority.
- GrantTransactions.HostGrants.Edit: the typed confirmation, the checks of the request before the store is read, and the time stamp of the switch, for which a repeated edit can differ from the first.
- GrantPending.PendingStageAllowsTheSame: compares what the entries allow; the reason given with a refusal can change, from not granted to identity mismatch, and the deny and floor rules are outside.
- GrantPending.PendingAbortAllowsTheSame: the same holds for the reason of a refusal.
- BlanketTag.GrantedTagIsAccepted: which operations the authority leaves to grant enters as an input.
- Wrap-around of 64-bit revisions: revisions are unbounded naturals. Digests of patches and of source lists are taken to identify what they digest.
- Text limits are counted in characters, where the program counts bytes or runes, and trimming in the check of an operation ID looks only at the ASCII space.
- Audit lines and logs, except that a failed audit line refuses a grant.
- `refreshSoon` without a bound manager, which does nothing.
- Log probabilities, timings and prompt counts of a reply stream, the prediction without a callback, and `Finetune`, which depends on regular expressions from configuration.
- What a decision worker computes between taking and returning its slot; loading and checking a model is one step.
- Feeding a live session, its trace record, and time: the drain timeout may pass at any moment, and a cancelled stream's receive returns.
- The cache reset after a library refresh, and how the owner is reached.
- ModelLedger.Convergence: assumes that the two rounds read and announce in one step and that installs succeed.
- Announcing on the ledger takes time and is repeated by its library; here it takes effect at once.
- Diarization.TalliesAddUp: durations are real numbers, without the rounding of floating point.
- AudioRecorder.EncodeReadsBack: samples are real numbers, so float32 rounding and NaN are not modelled.
- Profiles and thresholds around the diarization call.
- How the sharing service lists and admits; its answers are inputs. The shares a user owns, and making a collection shareable.
- Pooling.Normalize: arithmetic is over the reals, so float32 rounding of the reciprocal is not modelled, and the half-life enters as the one-token decay.
- The option string that selects the norm.
- Which entries of the build matrix a change selects, and the texts of the emitted lines.
- The other fields of a sound expansion, JSON parsing, and the words of the error messages.
- The application wiring, the per-modality wrappers around one backend call, the leader gates, which rest on a database lock, and the configuration watcher.
