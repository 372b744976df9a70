# Verified model of the control plane's self-contained protocols

The project models the parts of OpenCAO that decide things on their own, next to the database and the
model provider, and proves what their documentation and tests promise.

- **Cleanup inventory** (`CloseHost`, `CloseRegistry`, `CloseFreeze`, `CloseExecution`, `CloseInventory`):
  the owner-private registry of what may be deleted when a work is closed, the immutable freeze of one
  work's registry, and the executor that removes the frozen targets from the host and answers with
  receipts.
- **Artifact preservation** (`Utf8`, `ArtifactPaging`, `ArchiveStore`, `ArtifactRetention`, `ArtifactSeal`): reading retained
  content in UTF-8 chunks, the content-addressed archive under short writes, crashes and power loss,
  and the ledger that seals one set of receipts.
- **Process fence** (`ProcessFence`): capturing and retiring the process groups of two services before a
  rollback backup, against an environment in which processes exit, appear and reuse PIDs.
- **Event replay** (`EventReplay`, `EventStream`): paging over an append-and-prune log with hidden events,
  and the live stream with its barriers and commit waits.
- **Delivery lanes** (`DeliveryLanes`): the admission predicates of the dispatcher as functions over the
  delivery tables, and runs whose steps are the table updates of the runtime and the service.
- **Codecs and a one-use token** (`Redaction`, `Capsule`, `ReleaseFraming`, `BootstrapToken`).
- `Ordering` and `Wrappers` hold Python's stable sort, the order of `str`, and the optional value.

Code that updates objects or loops is modelled by classes, methods and loops proved against
specification functions; the properties are lemmas about those functions and about all runs of them.
`dafny verify dfyconfig.toml` checks everything.

## What the environment is

- Keyed and unkeyed hashes are parameters. Where a result needs it, the keyed hash is assumed injective or
  the content hash free of collisions; most results need neither. A digest is the number its hexadecimal
  text denotes, so numeric order is text order.
- The host of the cleanup edge is a map from canonical paths to nodes with device and inode numbers, with
  branch tips per common Git directory and the registered worktrees. `missingOk` leaves open whether Git
  removes the registration of a worktree whose directory has gone. Hosts may change arbitrarily between
  calls; during one execution only its own effects, and the failures the environment chooses, change it.
- The process fence runs along an arbitrary timeline of worlds. Audit tokens are never reused; nothing
  else is assumed.
- The event store prunes from the front in the stream results. `EventReplay` shows that this is exactly
  what the window test needs, with a concrete log where it fails.
- Sections under one file lock or one database transaction are atomic steps.

## Findings

These expectations are false of the code as it stands; each has a concrete case and a theorem with the
exact condition.

- Accepted cleanup targets need not be independent: `CloseExecution.NestedTargetsAreAccepted`, and
  `CloseInventory.ExecutionCompletesExactlyWhenReady` for the condition.
- A default protected root does not protect its contents: `CloseHost.DefaultRootContentsAreNotPromised`, and
  `CloseHost.RemovableExactlyBelowAllowedRoots` for the condition.
- A returned staging call need not outlive a loss of power. The directory above the prefix directories is
  never synced, so the first archive under a prefix can go with it: `ArchiveStore.FirstUnderItsPrefix`,
  `ArchiveStore.NewArchiveSurvivesExactlyWithItsPrefix`. A call that finds the archive of an interrupted one
  syncs nothing: `ArchiveStore.InterruptedThenFound`, `ArchiveStore.SurvivesExactlyWhenDurable`.
- An execution can be sent a signal twice. Only the two group numbers are compared, so a process that changes
  group between the two captures is captured twice: `ProcessFence.MoverIsCapturedTwice`,
  `ProcessFence.MoverIsSignalledTwice`, and `ProcessFence.OnceExactlyWhenDisjoint` for the condition.
- The window test of the event log misses a gap behind a retained old event:
  `EventReplay.RetainedAuthorityHidesAGap`, `EventReplay.WindowSoundExactlyForFrontPruning`.
- The admission predicate itself never requeues a dispatch, but the runtime puts back one that provably did
  not start (src/cao_control_plane/runtime.py:5935-5955). If a later delivery has overtaken it meanwhile, the
  attachment can be dispatched out of order: `DeliveryLanes.OvertakenRequeueBreaksOrder`, and
  `DeliveryLanes.RequeueCanBreakOrderExactlyWhenOvertaken` for the condition.
- Two dispatches of one attachment can both count as live, since deliveries of one dispatcher share its owner
  token: `DeliveryLanes.SharedOwnerRevivesALapsedDispatch`, and
  `DeliveryLanes.TwoCanBeActiveExactlyWhenOneIsInFlight` for the condition at admission.
- A capsule whose title ends with the rule heading does not read back: `Capsule.HeadingTitleDoesNotReadBack`,
  `Capsule.RoundTripsExactly`.

## Model

| member | source | states |
|---|---|---|
| `CloseRegistry.Scan` | src/cao_control_plane/close_inventory_edge.py:472-500 | The scan over every work, category and list, in whatever order they come: identical when exactly this resource is registered for this work, conflict when it shares a physical target with any other, fresh when it shares none. |
| `CloseRegistry.AnyOverlapDecides` | src/cao_control_plane/close_inventory_edge.py:484-500 | In a disjoint registry the first overlap found gives the verdict of the whole scan, so scan order cannot matter. |
| `CloseRegistry.Enroll` | src/cao_control_plane/close_inventory_edge.py:454-504 | A category declared not applicable refuses; an identical resource is a duplicate or, when allowed, no change; an overlap is a conflict; otherwise the resource joins its list in identity order. |
| `CloseRegistry.CoverAll` | src/cao_control_plane/close_inventory_edge.py:199-218 | Missing categories become not applicable; what is there must be not applicable or, where lists are kept, a temporary or log category. |
| `CloseRegistry.Adopt` | src/cao_control_plane/close_inventory_edge.py:172-220 | Adoption enrols the worktree (an identical one is accepted) and covers the other three categories, or refuses as a whole. |
| `CloseRegistry.EnrollKeepsInv` | src/cao_control_plane/close_inventory_edge.py:454-504 | Enrolment keeps all physical targets disjoint across works and categories, keeps every list non-empty, of its own kind and sorted, removes nothing and swaps no disposition. |
| `CloseRegistry.AdoptKeepsInv` | src/cao_control_plane/close_inventory_edge.py:172-220 | After adoption the invariant holds, the worktree is registered, all four categories are present and the branch category is not applicable. |
| `CloseRegistry.AdoptMainKeepsInv` | src/cao_control_plane/close_inventory_edge.py:234-261 | Adopting a main worktree keeps the invariant and everything registered. |
| `CloseRegistry.DeclaredExactlyUnlessListed` | src/cao_control_plane/close_inventory_edge.py:113-130 | A declaration is refused exactly for a category that has a list; an accepted one holds afterwards and touches nothing else. |
| `CloseRegistry.EnrolledExactlyWhenFree` | src/cao_control_plane/close_inventory_edge.py:454-504 | Enrolment is accepted if and only if the category is not declared and the target is free, or the same resource is there and that is allowed; then the resource is in its list, once, beside all that was there. |
| `CloseRegistry.AdoptedExactlyWhenFree` | src/cao_control_plane/close_inventory_edge.py:172-220 | A linked worktree is adopted if and only if its category and its targets are free for it and the work lists no branch; then it is registered, missing categories are declared and lists are as they were. |
| `CloseRegistry.MainAdoptedExactlyWhenNothingIsListed` | src/cao_control_plane/close_inventory_edge.py:234-261 | A main worktree is adopted if and only if the work lists nothing; then all four categories are declared. |
| `CloseHost.PhysicalTextInjective` | src/cao_control_plane/close_inventory_edge.py:706-707 | The stored text of two physical targets is equal exactly when they are the same target, so comparing texts compares targets. |
| `CloseHost.LocalInspectionRevalidates` | src/cao_control_plane/close_inventory_edge.py:683-713 | A temporary or log target just inspected passes revalidation on the same host. |
| `CloseHost.BranchInspectionRevalidates` | src/cao_control_plane/close_inventory_edge.py:715-736 | A branch just inspected passes revalidation on the same host. |
| `CloseHost.WorktreeInspectionRevalidates` | src/cao_control_plane/close_inventory_edge.py:738-782 | A linked worktree just inspected passes revalidation on the same host. |
| `CloseHost.LocalAcceptedExactly` | src/cao_control_plane/close_inventory_edge.py:683-713 | A temporary or log target is accepted if and only if it is a regular file with one link, or for a temporary target a directory, it is unprotected, and the first allowed root above it is a directory; what is recorded is what is there. |
| `CloseHost.BranchAcceptedExactly` | src/cao_control_plane/close_inventory_edge.py:715-736 | A branch is accepted if and only if the innermost worktree around the directory is a working repository that has the branch and no listed worktree has it checked out; the commit recorded is the one it points at. |
| `CloseHost.WorktreeAcceptedExactly` | src/cao_control_plane/close_inventory_edge.py:738-782 | A linked worktree is accepted if and only if it is a worktree of a working repository, below the common directory, on a branch that exists. |
| `CloseHost.RevalidatesExactlyWhenUnchanged` | src/cao_control_plane/close_inventory_edge.py:784-864 | A target revalidates if and only if everything recorded about it is still so: file identities, types, roots, Git directories, the branch checked out and the commit it points at. |
| `CloseHost.RemovalSparesProtectedRoots` | src/cao_control_plane/close_inventory_edge.py:1062-1073 | A target that revalidates is a strict descendant of its allowed root, and its subtree contains no default protected root, no allowed root and nothing at or under an explicit protected root. |
| `CloseHost.RemovableExactlyBelowAllowedRoots` | src/cao_control_plane/close_inventory_edge.py:1062-1073 | A path can be taken away by some accepted temporary or log target if and only if it lies strictly below an allowed root, no default or allowed root is at or below it, and no explicit root is above, at or below it. A default root above it changes nothing. |
| `CloseHost.DefaultRootContentsAreNotPromised` | src/cao_control_plane/close_inventory_edge.py:1062-1066 | A concrete target inside a default protected root is accepted: that root protects itself and not its contents. |
| `CloseFreeze.CollectRecords` | src/cao_control_plane/close_inventory_edge.py:506-546 | Complete coverage is required, every list is checked and revalidated in category order with the first failure reported, and the records come out in execution order. |
| `CloseFreeze.TargetsAreUnique` | src/cao_control_plane/close_inventory_edge.py:1378-1390 | The seen-set loop answers true exactly when no two enumerated records share a physical target. |
| `CloseFreeze.CompleteRecordsAreUnique` | src/cao_control_plane/close_inventory_edge.py:312-313 | On a registry that keeps its invariant the uniqueness check inside `prepare` can never fail. |
| `CloseFreeze.CompleteRecordsCover` | src/cao_control_plane/close_inventory_edge.py:506-546 | A complete snapshot covers exactly the four categories. |
| `CloseFreeze.CompleteRecordsAreRegistered` | src/cao_control_plane/close_inventory_edge.py:531-540 | Every enumerated record of a snapshot is registered for the work and was valid when frozen. |
| `CloseFreeze.CompleteRecordsAreAll` | src/cao_control_plane/close_inventory_edge.py:506-546 | A snapshot is made if and only if all four categories are there and every registered resource of the work is unchanged; as a multiset it is one record for each resource of each list and one for each declared category. |
| `CloseFreeze.FrozenExactlyWhenRegistered` | src/cao_control_plane/close_inventory_edge.py:531-540 | A resource is in a snapshot if and only if it is registered for the work, and a category is recorded as empty if and only if it is declared. |
| `CloseFreeze.BuildPublicRecords` | src/cao_control_plane/close_inventory_edge.py:548-616 | The two loops and the sort compute the public set: bases sorted by kind and fingerprint, one set digest over them, an execution digest for each target and evidence for each record. |
| `CloseFreeze.PublicRecordsAreSorted` | src/cao_control_plane/close_inventory_edge.py:579-584 | The public records come sorted by kind and fingerprint. |
| `CloseFreeze.PublicRecordsBindTheFreeze` | src/cao_control_plane/close_inventory_edge.py:548-616 | With an injective keyed hash, equal public records come from one binding and the same private records. |
| `CloseFreeze.ExecutionDigestsIdentify` | src/cao_control_plane/close_inventory_edge.py:585-600 | Exactly the records with a target carry an execution digest, and one digest names one binding, one set and one target. |
| `CloseFreeze.FreezeValidates` | src/cao_control_plane/close_inventory_edge.py:313-325 | A freeze of complete records is accepted under its own binding and refused with a binding mismatch under every other. |
| `CloseFreeze.SealBindsEverything` | src/cao_control_plane/close_inventory_edge.py:618-655 | With an injective keyed hash, an entry that validates and carries the seal of a genuine entry is that entry in every part. |
| `CloseFreeze.SameFingerprints` | src/cao_control_plane/close_inventory_edge.py:548-616 | As multisets, the enumerated private records and the enumerated public records have the same kinds and fingerprints although they are sorted differently. |
| `CloseFreeze.FingerprintsDistinct` | src/cao_control_plane/close_inventory_edge.py:560-570 | Different enumerated records have different fingerprints. |
| `CloseFreeze.ReceiptExists` | src/cao_control_plane/close_inventory_edge.py:903-949 | Looking up the public record of an executed one always succeeds, and the receipt repeats that public record. |
| `CloseInventory.OwnerPrivateCloseInventory.DeclareNotApplicable` | src/cao_control_plane/close_inventory_edge.py:113-130 | New state and answer: declared, already declared, or a category conflict; the revision counts changes only. |
| `CloseInventory.OwnerPrivateCloseInventory.RegisterResource` | src/cao_control_plane/close_inventory_edge.py:132-170 | New state and answer of a registration, with every refusal of its arguments and of the inspection. |
| `CloseInventory.OwnerPrivateCloseInventory.AdoptManagedWorktree` | src/cao_control_plane/close_inventory_edge.py:172-220 | New state and answer of adopting a linked worktree. |
| `CloseInventory.OwnerPrivateCloseInventory.AdoptManagedWork` | src/cao_control_plane/close_inventory_edge.py:222-286 | A main worktree makes all four categories not applicable; any other location is adopted as a linked worktree or refused. |
| `CloseInventory.DeclarationTakesEffect` | src/cao_control_plane/close_inventory_edge.py:113-130 | Which declarations the store accepts, what it holds afterwards, and that a refused one changes nothing. |
| `CloseInventory.RegistrationTakesEffect` | src/cao_control_plane/close_inventory_edge.py:132-170 | A registration is accepted if and only if its target is acceptable and free and its category is not declared; then the store holds it, one revision later, and nothing else has changed. |
| `CloseInventory.AdoptionTakesEffect` | src/cao_control_plane/close_inventory_edge.py:222-286 | Which adoptions are accepted, what each has done to the work, and that the revision moves exactly when the registry does. |
| `CloseInventory.OwnerPrivateCloseInventory.Prepare` | src/cao_control_plane/close_inventory_edge.py:291-329 | An existing entry is validated and its records returned. A new one is made if and only if the binding is well formed, all four categories are there and every registered resource is unchanged; it then holds a record for each registered resource and each declared category and no other. |
| `CloseInventory.OwnerPrivateCloseInventory.VerifyPublicInventory` | src/cao_control_plane/close_inventory_edge.py:331-358 | True exactly when the preparation is frozen, validates under the binding, and its public list is the given one; a malformed binding is an error of its own. |
| `CloseInventory.OwnerPrivateCloseInventory.Execute` | src/cao_control_plane/close_inventory_edge.py:390-440 | Answer and host left behind for every choice of failing steps; the store itself does not change. If anything on the host changed, the binding and list were the frozen ones and every frozen target was unchanged. |
| `CloseInventory.ExecuteRecords` | src/cao_control_plane/close_inventory_edge.py:427-440 | The loop runs the records in order, appends one receipt for each success and stops at the first failure. |
| `CloseInventory.EveryReachableStoreIsSound` | src/cao_control_plane/close_inventory_edge.py:113-329 | In every store that any sequence of declare, register, adopt and prepare calls reaches, on any hosts, the registry invariant holds and every frozen entry validates with disjoint, ordered targets. |
| `CloseInventory.RunKeepsInv` | src/cao_control_plane/close_inventory_edge.py:113-329 | Over any run lists only grow, dispositions never swap and frozen entries never change. |
| `CloseInventory.PreparingAgainRepeats` | src/cao_control_plane/close_inventory_edge.py:305-308 | However the registry has grown, preparing again with the same binding returns the same records and changes nothing; a different binding is rejected. |
| `CloseInventory.VerifiesExactlyTheFrozenList` | src/cao_control_plane/close_inventory_edge.py:331-358 | At any later time verification accepts exactly the frozen list under exactly its binding. |
| `CloseInventory.JustPreparedIsCleared` | src/cao_control_plane/close_inventory_edge.py:291-427 | What was just frozen passes, on the same host, every check an execution makes before its first effect. |
| `CloseInventory.ExecutesExactlyWhenAllStand` | src/cao_control_plane/close_inventory_edge.py:400-427 | At any later time an execution passes its checks if and only if the binding and the public list are the frozen ones and every frozen target is unchanged on the host; otherwise it refuses and the host is as it was. |
| `CloseInventory.ClearedBranchesAreWhereTheyWere` | src/cao_control_plane/close_inventory_edge.py:856-864 | Once the checks have passed, every branch that may be deleted still points at the frozen commit in the frozen repository, and every file, Git directory and root is the recorded one. |
| `CloseInventory.OneStaleTargetRefuses` | src/cao_control_plane/close_inventory_edge.py:422-427 | One frozen target that no longer revalidates, wherever it stands, refuses the whole execution before any effect. |
| `CloseInventory.TargetsInOrder` | src/cao_control_plane/close_inventory_edge.py:428-434 | The enumerated records of a frozen entry are already in execution order, by kind and then identity. |
| `CloseInventory.ExecutionCompletesExactlyWhenReady` | src/cao_control_plane/close_inventory_edge.py:390-440 | A cleared execution without faults answers with receipts if and only if every record is still ready at its turn: no earlier record has removed its place or its Git directories and no other worktree keeps its branch. The host has then lost exactly what the records own. |
| `CloseInventory.ReceiptsMatchPublicRecords` | src/cao_control_plane/close_inventory_edge.py:427-440 | The receipts are one to one with the enumerated public records, and each repeats the public record with its fingerprint. |
| `CloseExecution.AfterIsExact` | src/cao_control_plane/close_inventory_edge.py:866-901 | After k records exactly the paths, refs and worktree registrations they own are gone and everything else is unchanged. |
| `CloseExecution.CompletesExactlyWhenReady` | src/cao_control_plane/close_inventory_edge.py:866-901 | The exact condition under which a run over independent targets completes. |
| `CloseExecution.RunTouchesOnlyItsRecords` | src/cao_control_plane/close_inventory_edge.py:427-440 | However a run ends, nothing is added or changed, everything outside the records up to the failing one is still there, and branches and registrations of later records are intact. |
| `CloseExecution.RunSparesProtectedRoots` | src/cao_control_plane/close_inventory_edge.py:866-877 | No run of revalidated temporary and log records, however it ends, removes a default protected root, an allowed root, or anything at or under an explicit protected root. |
| `CloseExecution.NestedTargetsStall` | src/cao_control_plane/close_inventory_edge.py:484-500 | If an earlier local target contains a later one, the run cannot complete: registration compares inodes and not nesting. |
| `CloseExecution.NestedTargetsAreAccepted` | src/cao_control_plane/close_inventory_edge.py:683-713 | A concrete directory and a log inside it that are both accepted. |
| `Utf8.DecoderInvertsEncoder` | src/cao_control_plane/artifact_preservation_edge.py:184-194 | The strict decoder (section 4 of RFC 3629) accepts a byte string as a text exactly when the bytes are that text encoded. |
| `Utf8.FitIsBest` | src/cao_control_plane/artifact_preservation_edge.py:211-219 | The chosen length decodes, no longer one within the limit does, and it is within three bytes of the limit unless it takes everything. |
| `Utf8.SplitAtBoundary` | src/cao_control_plane/artifact_preservation_edge.py:200-209 | A text splits at a decodable prefix into two texts that concatenate. |
| `ArtifactPaging.LongestChunk` | src/cao_control_plane/artifact_preservation_edge.py:211-219 | The countdown loop finds the longest decodable stretch, and finds an empty one only at the end of the content. |
| `ArtifactPaging.ReadVerifiedTextChunk` | src/cao_control_plane/artifact_preservation_edge.py:149-236 | Granted exactly for intact readable content and an allowed range, with the digest verified and both credential screens passed; then the longest chunk from the offset, and otherwise the first refusal in order. |
| `ArtifactPaging.GrantedExactlyWhenReadable` | src/cao_control_plane/artifact_preservation_edge.py:149-209 | A read is granted if and only if the content has its digest, fits, is text and free of credentials, and the range starts at a character and has an allowed size. |
| `ArtifactPaging.RefusalTellsWhy` | src/cao_control_plane/artifact_preservation_edge.py:149-236 | What each refusal says about the content or the range; the boundary-unavailable one never comes. |
| `ArtifactPaging.ChunkIsLongest` | src/cao_control_plane/artifact_preservation_edge.py:184-236 | Each chunk decodes, is the longest that fits, and a non-final one is at most three bytes short of what was asked. |
| `ArtifactPaging.NextOffsetIsAccepted` | src/cao_control_plane/artifact_preservation_edge.py:200-236 | The offset handed on is further along, inside the content, and passes every check of the next read. |
| `ArtifactPaging.ChunksHoldNoCredential` | src/cao_control_plane/artifact_preservation_edge.py:189-199 | With the screens in service, no chunk that is handed out holds a control-plane credential. |
| `ArtifactPaging.PagingReassembles` | src/cao_control_plane/artifact_preservation_edge.py:149-236 | Following the offsets from 0 with any allowed sizes ends, and the chunks are exactly the content and its text. |
| `ArchiveStore.WriteBuffer` | src/cao_control_plane/artifact_preservation_edge.py:866-878 | However short the single writes are, the buffer ends up appended, one write call at a time. |
| `ArchiveStore.CopyOrValidate` | src/cao_control_plane/artifact_preservation_edge.py:829-909 | A chain of single system calls from the old state to the new one; an existing archive is never touched; a returned call leaves the digest stored, with exactly the bytes read when hashing is collision-free; a new archive is left exactly as written, renamed and with its prefix directory synced, and one left behind by a failed call exactly as renamed. |
| `ArchiveStore.StageBytes` | src/cao_control_plane/artifact_preservation_edge.py:131-147 | The same for bytes from memory, whose digest is checked before the prefix directory is made; a failed call leaves no name behind unless only the directory sync failed. |
| `ArchiveStore.EveryMomentIsSound` | src/cao_control_plane/artifact_preservation_edge.py:829-973 | At every point where a call can be cut short each archive name is absent or holds synced bytes with its digest, and archives that were there are unchanged. |
| `ArchiveStore.EveryReachableDiskIsSound` | src/cao_control_plane/artifact_preservation_edge.py:829-973 | The same in every run of calls cut short anywhere and losses of power. |
| `ArchiveStore.ArchivesNeverChange` | src/cao_control_plane/artifact_preservation_edge.py:829-856 | An archive keeps its bytes through every further call; only a loss of power can take one, and only if its entry or its prefix directory is not durable. |
| `ArchiveStore.SurvivesExactlyWhenDurable` | src/cao_control_plane/artifact_preservation_edge.py:836-856 | An archive survives every loss of power if and only if its own entry was synced and its prefix directory is durable too. |
| `ArchiveStore.NewArchiveSurvivesExactlyWithItsPrefix` | src/cao_control_plane/artifact_preservation_edge.py:1039-1041 | A returned call that made a new archive has synced its entry and not the directory above: the archive survives if and only if its prefix directory was durable before the call. |
| `ArchiveStore.FirstUnderItsPrefix` | src/cao_control_plane/artifact_preservation_edge.py:145-146 | A concrete call: the first archive under a fresh prefix is stored, its entry synced, and a loss of power can take it. |
| `ArchiveStore.InterruptedThenFound` | src/cao_control_plane/artifact_preservation_edge.py:836-856 | Two concrete calls: one fails as it syncs the directory, the next finds the archive and returns without syncing, and a loss of power takes it although the prefix directory is durable. |
| `ArtifactRetention.StagedContentReadsBack` | src/cao_control_plane/artifact_preservation_edge.py:131-236 | From staging to reading: a readable content once archived is read back later, chunk by chunk with any sizes, as exactly its bytes and its text, unless a loss of power took an archive that was not durable. |
| `ArtifactSeal.OwnerPrivateArtifactPreservation.RegisterStagedFile` | src/cao_control_plane/artifact_preservation_edge.py:314-372 | New ledger and answer of a registration: repeated, added after revalidating the archive, answered from a sealed set, or refused. |
| `ArtifactSeal.OwnerPrivateArtifactPreservation.SealReceiptSet` | src/cao_control_plane/artifact_preservation_edge.py:374-444 | New ledger and answer of sealing. |
| `ArtifactSeal.OwnerPrivateArtifactPreservation.VerifyPublicReceiptSet` | src/cao_control_plane/artifact_preservation_edge.py:446-480 | The verification loop answers the specified verdict. |
| `ArtifactSeal.RegistrationTakesEffect` | src/cao_control_plane/artifact_preservation_edge.py:333-372 | Before sealing, a registration is accepted if and only if its reference fits and the id is new with the digest archived, or this artifact is registered with its archive intact; then it is registered and intact and nothing else has changed. |
| `ArtifactSeal.SealingTakesEffect` | src/cao_control_plane/artifact_preservation_edge.py:390-444 | Before sealing, a list is sealed if and only if its ids are distinct and exactly the registered ones and every artifact is registered and intact; then exactly these are sealed, with one receipt each that carries the digest of all. |
| `ArtifactSeal.RunKeepsInv` | src/cao_control_plane/artifact_preservation_edge.py:314-444 | Over any run registrations stay genuine and unchanged and a sealed preparation stays exactly as it is. |
| `ArtifactSeal.SealedStays` | src/cao_control_plane/artifact_preservation_edge.py:341-346 | A sealed preparation is the same in every later state, and its registered ids are its sealed ids. |
| `ArtifactSeal.SealedForever` | src/cao_control_plane/artifact_preservation_edge.py:399-405 | At any later time sealing a list answers with the sealed receipts if and only if the list is a permutation of the sealed set, and never changes anything. |
| `ArtifactSeal.LateRegistrationAddsNothing` | src/cao_control_plane/artifact_preservation_edge.py:341-346 | After sealing, registration succeeds exactly for a sealed artifact, with its sealed receipt, and adds nothing. |
| `ArtifactSeal.VerifiesExactlyTheSealedList` | src/cao_control_plane/artifact_preservation_edge.py:446-480 | Verification is true exactly for the sealed list while every registered archive is there with its digest and the same inode. |
| `ArtifactSeal.JustSealedVerifies` | src/cao_control_plane/artifact_preservation_edge.py:407-480 | Sealing an unsealed preparation answers with a list that verifies at once. |
| `ArtifactSeal.CanonicalExactlyForPermutations` | src/cao_control_plane/artifact_preservation_edge.py:545-561 | Two lists have the same canonical form exactly when they are permutations of each other. |
| `ArtifactSeal.StoreKeepsIntact` | src/cao_control_plane/artifact_preservation_edge.py:975-991 | What the archive store does, short of a loss of power, leaves every registered archive intact. |
| `ProcessFence.CaptureMembers` | src/cao_control_plane/dashboard_lifecycle.py:1950-1968 | Every listed PID is captured once and no member twice. |
| `ProcessFence.Capture` | src/cao_control_plane/dashboard_lifecycle.py:1932-1975 | A captured group was listed twice with exactly its members, and every member was then seen alive; an audit token appears once. Each failure has its cause: an unidentifiable process, a shared or incomplete group, listings that differ, a member of another group or one that died. |
| `ProcessFence.LiveMembers` | src/cao_control_plane/dashboard_lifecycle.py:1977-1995 | One observation of a group: the members it saw alive are captured ones, a member not reported alive was seen dead, a group reported occupied was seen so, and it fails only on a kernel fault or on a listing with an unknown PID. |
| `ProcessFence.Sweep` | src/cao_control_plane/dashboard_lifecycle.py:1997-2008 | One round keeps only groups it saw occupied, and each group dropped was seen empty with all members dead. |
| `ProcessFence.Wait` | src/cao_control_plane/dashboard_lifecycle.py:1997-2008 | A wait that ends with no group has retired all of them; one that gives up has slept between all its attempts and saw each remaining group occupied; observation only. |
| `ProcessFence.SignalExact` | src/cao_control_plane/dashboard_lifecycle.py:2010-2018 | Signals go only to captured executions seen alive before, no more often than they were captured, and stop once an unknown PID is seen; a pass that ends normally has signalled or seen dead every captured execution, and has signalled exactly all of them when they stay alive. |
| `ProcessFence.FenceAfterBootout` | src/cao_control_plane/dashboard_lifecycle.py:2020-2038 | Wait, terminate, wait, kill, wait against arbitrary process behaviour: each captured execution gets each signal no more often than it was captured, terminate comes before kill, nothing is signalled after an uncaptured PID was seen, and a normal return means every group was seen empty and every member dead. No signal precedes a whole wait, and giving up means some group got both signals and was still seen occupied; any other failure is a kernel fault or an unknown PID. |
| `ProcessFence.KillsAreAllWarned` | src/cao_control_plane/dashboard_lifecycle.py:2020-2038 | Every kill is preceded by a terminate to the same execution at least one whole wait earlier, for all behaviour of the processes. |
| `ProcessFence.RetiredIsDead` | src/cao_control_plane/dashboard_lifecycle.py:1977-1995 | What was seen dead is dead from then on, since audit tokens are never reused, PID reuse included. |
| `ProcessFence.Upgrade` | src/cao_control_plane/dashboard_lifecycle.py:3719-3768 | On success every effect happened. Wherever it stops, each happened at most once and in its order, and from the backup on, which needs the stop awaited, no captured execution is alive and both groups were seen empty. Both groups were properly captured first, with this user and session and their roots, and every failure has its cause. |
| `ProcessFence.StepsInUpgradeOrder` | src/cao_control_plane/dashboard_lifecycle.py:3719-3768 | The order by name: both services out and seen unloaded before the stop is awaited, the backup after that and before anything is started, each start awaited before the next, the client told last, nothing twice. |
| `ProcessFence.SignalledAtMostOnce` | src/cao_control_plane/dashboard_lifecycle.py:2010-2038 | When the services share no execution, each signal reaches each captured execution at most once. |
| `ProcessFence.OnceExactlyWhenDisjoint` | src/cao_control_plane/dashboard_lifecycle.py:2010-2018 | A pass that signals everything captured reaches each execution at most once if and only if no execution was captured from both services. |
| `ProcessFence.MoverIsCapturedTwice` | src/cao_control_plane/dashboard_lifecycle.py:1950-1975 | A concrete lawful timeline in which a process changes group between the two captures and both captures hold it. |
| `ProcessFence.MoverIsSignalledTwice` | src/cao_control_plane/dashboard_lifecycle.py:2010-2018 | The signal pass over these two captures sends that process the signal twice. |
| `EventReplay.PageIsExact` | src/cao_control_plane/dashboard.py:237-286 | A page holds exactly the production events from its cursor up to the cursor it hands on, in order; hidden events are passed over; more is promised exactly when more is there. |
| `EventReplay.PageExactlyWithinTheLog` | src/cao_control_plane/dashboard.py:254-263 | A page is given if and only if there is no cursor, or it is of this generation and zero, or neither beyond the last retained event nor before the first by more than the next one; a refusal names its reason and the current cursor. |
| `EventReplay.WindowSoundExactlyForFrontPruning` | src/cao_control_plane/dashboard.py:260-263 | The window test is sound for every positive cursor if and only if pruning left nothing behind the first retained event. |
| `EventReplay.RetainedAuthorityHidesAGap` | tests/test_authority_retention.py:68-112 | A concrete log in which a retained old event hides a pruned one from the window test. |
| `EventStream.PageOfWholeLog` | src/cao_control_plane/dashboard.py:237-286 | With pruning from the front, a page of the retained events equals the page of the whole log. |
| `EventStream.FollowingPagesIsExact` | src/cao_control_plane/dashboard.py:223-286 | Following cursors through pages while events are appended and pruned yields each production event after the start once and in order, from any cursor or none; without one the start is the oldest event retained when the first page moves. |
| `EventStream.FollowingUnprunedPagesIsExact` | src/cao_control_plane/dashboard.py:223-286 | Without pruning that is every production event after the given cursor, from the very beginning when there is none. |
| `EventStream.NextPageIsThere` | src/cao_control_plane/dashboard.py:254-286 | A cursor that a page handed on is accepted by every later store of the generation from which nothing more was pruned, or which still holds an event up to the next one. |
| `EventStream.FollowIsNeverRefused` | src/cao_control_plane/dashboard.py:223-286 | A client whose first read is accepted is never turned away while nothing is pruned and the generation stays. |
| `EventStream.FollowFromTheStart` | src/cao_control_plane/dashboard.py:223-286 | Starting without a cursor on an unpruned log, every read is answered and together they give every production event from the first on. |
| `EventStream.StreamIsNeverRefused` | src/cao_control_plane/dashboard.py:393-452 | A stream started at an accepted cursor is never told to resynchronise while nothing is pruned and the generation stays. |
| `EventStream.CatchesUp` | src/cao_control_plane/dashboard.py:393-443 | Undisturbed, a reading stream without a budget comes, by its own reads, to have sent everything, with a barrier at the end of the log, and then waits. |
| `EventStream.BudgetIsKept` | src/cao_control_plane/dashboard.py:412-417 | A stream with an event budget never sends more than that, or the one event it always lets out, and is closed once it is used up. |
| `EventStream.Stream.Relay` | src/cao_control_plane/dashboard.py:408-443 | One pass over a page: what is sent and the new cursor, barrier, budget and waiting state. |
| `EventStream.Stream.SendItems` | src/cao_control_plane/dashboard.py:412-417 | The item loop publishes items until the event budget is used up, at least one. |
| `EventStream.Stream.ReadOnce` | src/cao_control_plane/dashboard.py:407-411 | One read from the stream cursor with a page limit of 100. |
| `EventStream.WaitThenCatchUp` | src/cao_control_plane/dashboard.py:418-452 | After a wait and the page that catches up, a heartbeat is sent, once and last, if and only if nothing was committed meanwhile; the stream then reads once more before it waits again, and after a commit it waits with the generation it saw. A barrier is sent if and only if the cursor moved. |
| `EventStream.StepKeepsInv` | src/cao_control_plane/dashboard.py:393-452 | Every step of the stream and of its environment keeps the replay invariant. |
| `EventStream.BarriersAreExact` | src/cao_control_plane/dashboard.py:393-452 | In every run, when a barrier or event hands out a cursor, the events sent so far are exactly the production events after the starting point up to it, in order, each once. |
| `EventStream.NoLostWakeUp` | src/cao_control_plane/database.py:7862-7897 | A stream that waits with the current commit generation, with no notification outstanding and no foreign commit since its last read, has sent every production event after its start. |
| `DeliveryLanes.AtMostOneHead` | src/cao_control_plane/delivery_lane.py:63-113 | In every table at most one pending delivery of a runtime lane satisfies the head predicate. |
| `DeliveryLanes.HeadExists` | src/cao_control_plane/delivery_lane.py:63-113 | If paused works hold only queued, unowned deliveries and some other work has a pending one, the lane has a head. |
| `DeliveryLanes.HeadOvertakesOnlyPaused` | src/cao_control_plane/delivery_lane.py:98-105 | A head overtakes only queued, unowned deliveries of other works that are paused. |
| `DeliveryLanes.NotificationHeadExists` | src/cao_control_plane/delivery_lane.py:142-204 | With nothing of an attachment leased and no dispatch alive, its earliest queued delivery is admitted. |
| `DeliveryLanes.StepKeepsInv` | src/cao_control_plane/delivery_lane.py:142-204 | Every update of the delivery table keeps the order of each supervisor attachment, provided no overtaken delivery is put back; messages may go to several recipients and queued deliveries may be rebound. |
| `DeliveryLanes.DispatchedInOrder` | src/cao_control_plane/delivery_lane.py:142-204 | Deliveries of one supervisor attachment enter `dispatched` in sequence order. |
| `DeliveryLanes.OneInFlight` | src/cao_control_plane/delivery_lane.py:142-204 | While one is leased, or dispatched under a running lease, no later one of the attachment is leased or in flight. |
| `DeliveryLanes.TwoActiveExactlyThroughABusyRuntime` | src/cao_control_plane/delivery_lane.py:174-201 | Beside an active later one, an earlier delivery of the attachment is active if and only if its lease has run out and a busy runtime holds it through the owner of the newest dispatch. |
| `DeliveryLanes.TwoCanBeActiveExactlyWhenOneIsInFlight` | src/cao_control_plane/delivery_lane.py:174-201 | As a delivery is leased, some continuation has it and an earlier one active together before it is given up if and only if an earlier one of the attachment is still in flight. |
| `DeliveryLanes.SharedOwnerRevivesALapsedDispatch` | src/cao_control_plane/delivery_lane.py:174-201 | A concrete run in which that happens. |
| `DeliveryLanes.RequeueCanBreakOrderExactlyWhenOvertaken` | src/cao_control_plane/runtime.py:5935-5955 | After a dispatched delivery goes back to the queue, some continuation dispatches the attachment out of order if and only if a later one is leased or was dispatched. |
| `DeliveryLanes.ReactivateCanBreakOrderExactlyWhenOvertaken` | src/cao_control_plane/service.py:8268-8288 | The same for a dead delivery that is reactivated for a runtime. |
| `DeliveryLanes.OvertakenRequeueBreaksOrder` | src/cao_control_plane/runtime.py:5935-5955 | A concrete run in which requeueing an overtaken dispatch breaks the order. |
| `DeliveryLanes.WorkClaimedInOrder` | src/cao_control_plane/runtime.py:4098-4131 | Across pause and resume, and reactivation into another lane that was not passed, the deliveries of a work in a lane are leased in order, and only when the earlier ones are finished. |
| `Redaction.MatcherDecidesPattern` | src/cao_control_plane/security.py:30-33 | The greedy matcher finds the longest credential at the front of a text, and finds one exactly when there is one. |
| `Redaction.SearchDecides` | src/cao_control_plane/security.py:62-63 | Search succeeds exactly on texts with a credential somewhere inside. |
| `Redaction.SubstituteClean` | src/cao_control_plane/security.py:103-104 | A substituted text holds no credential, not even across a replacement. |
| `Redaction.SubstituteKeepsTheRest` | src/cao_control_plane/security.py:103-104 | Only credentials are removed; everything between them survives in order. |
| `Redaction.DetectorDecides` | src/cao_control_plane/security.py:54-71 | The detector is true exactly when some text in the value, key or item at any depth, holds a credential. |
| `Redaction.RedactionLeavesNoCredential` | src/cao_control_plane/security.py:94-118 | No text anywhere in a redacted value has a factor in the credential language. |
| `Redaction.RedactionIsIdentityExactlyWhenClean` | src/cao_control_plane/security.py:94-118 | Redaction is the identity exactly on values where the detector is false. |
| `Redaction.RedactionIsIdempotent` | src/cao_control_plane/security.py:94-118 | Redacting twice is redacting once. |
| `Capsule.LineNormalizes` | src/cao_control_plane/adaptation.py:56-60 | What `_line` returns is words joined by single blanks, and it leaves such text unchanged. |
| `Capsule.ReadHeader` | src/cao_control_plane/adaptation.py:81-88 | The metadata loop collects list items as triggers and other lines as trimmed fields. |
| `Capsule.HeaderReads` | src/cao_control_plane/adaptation.py:278-282 | Printed fields and triggers read back, in order. |
| `Capsule.FindsClose` | src/cao_control_plane/adaptation.py:78-80 | The header pattern ends at the printed closing line and nowhere earlier. |
| `Capsule.TitleReads` | src/cao_control_plane/adaptation.py:95-95 | The title pattern returns the printed title. |
| `Capsule.RoundTripsExactly` | src/cao_control_plane/adaptation.py:74-105 | For every printable capsule within the size limit, reading the printed text returns it if and only if the title does not end with the rule heading; otherwise it reads back with another rule. |
| `Capsule.HeadingTitleDoesNotReadBack` | src/cao_control_plane/adaptation.py:96-105 | A concrete capsule whose file reads back with another rule. |
| `ReleaseFraming.ParseInvertsFrames` | src/cao_control_plane/release_identity.py:81-87 | The length-prefixed frames can be parsed back whatever the bytes, for lengths that eight bytes hold. |
| `ReleaseFraming.FrameFiles` | src/cao_control_plane/release_identity.py:82-87 | The loop builds the frames of the files in order, or stops at a length that does not fit. |
| `ReleaseFraming.PackageContentDigest` | src/cao_control_plane/release_identity.py:76-88 | The digest is the hash of the stream of the files in name order, whatever order they were found in. |
| `ReleaseFraming.ListingOrderIsIrrelevant` | src/cao_control_plane/release_identity.py:27-39 | Any order of finding the files sorts to the same list. |
| `ReleaseFraming.StreamDeterminesRelease` | src/cao_control_plane/release_identity.py:76-88 | Two releases with the same stream have the same names with the same contents. |
| `BootstrapToken.StepKeepsInv` | src/cao_control_plane/dashboard_edge.py:358-388 | Every single system call of any interleaved consume or issue keeps the claim invariant, deaths included. |
| `BootstrapToken.AtMostOneSuccess` | src/cao_control_plane/dashboard_edge.py:358-388 | In every interleaving no two calls succeed with the same issued record. |
| `BootstrapToken.NeverAtOrAfterExpiry` | src/cao_control_plane/dashboard_edge.py:377-383 | A call succeeds only with a record of its own digest, judged strictly before that record expires. |
| `BootstrapToken.ClaimedForGood` | src/cao_control_plane/dashboard_edge.py:366-374 | Once a call has claimed a record no other call ever does, whatever becomes of the first. |
| `BootstrapToken.UndisturbedCallSucceeds` | src/cao_control_plane/dashboard_edge.py:358-388 | A call of its own succeeds exactly when the record is written and not expired, and leaves neither name behind. |
| `BootstrapToken.LoneCallAnswers` | src/cao_control_plane/dashboard_edge.py:358-388 | The system calls of one undisturbed call together accept exactly a written, unexpired record under the digest, and change what waits under that digest and nothing else. |
| `BootstrapToken.FileBootstrapSecretStore.Consume` | src/cao_control_plane/dashboard_edge.py:358-388 | Length bounds, then the system calls one by one: acceptance before expiry, a found record no longer waiting, every other one as before. |
| `BootstrapToken.FileBootstrapSecretStore.Issue` | src/cao_control_plane/dashboard_edge.py:391-422 | A record is created and then written with its expiry only if there is none, for a lifetime of one second to one hour; every other record is as before. |
| `Ordering.SortCanonical` | src/cao_control_plane/artifact_preservation_edge.py:558-558 | Any permutation of a list whose ties are equal sorts to the same result, as for `list.sort` with a key. |

## Left out

- JSON, base64, the dashboard cursor's text form, HMAC and SHA-256 themselves: values and injective functions stand in.
- Stat modes, owners, permissions, symlink and alias resolution, hard-link races and `fcntl` locks: paths are canonical and locked sections atomic.
- Git's own checks beyond those named, such as `check-ref-format`, and its dependence on files inside its directories: Git answers from branch tips and registered worktrees.
- `verify_public_record`, `register_file`, `stage_workspace_file` and the private ledger files' own atomic writes: easy variants of what is modelled.
- Malformed registry and ledger documents: the stores hold well-typed values, so only the malformed cases that typed values can express appear.
- Identifier alphabets of the preservation edge: identifiers and digests arrive checked.
- `codesign`, `lsof`, `launchctl`, plist checks and the plan validation before an upgrade: only the order of effects around the fence is modelled.
- The content of dashboard events and the read model beside history and stream.
- The other conditions of the dispatcher's claim query, which only admit fewer deliveries, and inbox visibility.
- Recording of feedback receipts, merging with existing capsules and recall.
- The choice of tracked release files by suffix: a release is the map of the files chosen.
- FastAPI routes, HTTP probes, settings, Cloudflare checks, attachment sockets, close evaluation, notification queue, memory import, effects and the agent-to-agent listing.
- DeliveryLanes.OneInFlight: does not count a dispatch that only a busy runtime keeps alive, because two such can coexist; the exact case is stated separately.
- EventStream.NoLostWakeUp: excludes commits of other processes since the last read, which the condition variable cannot observe; the timed-out recovery scan reads them.
- ProcessFence.Upgrade: effects are named steps that succeed or fail; what a backup or a bootstrap does is not modelled.
- BootstrapToken.FileBootstrapSecretStore.Consume: is the call without interference, made of the steps whose interleavings are treated beside it.
- BootstrapToken.FileBootstrapSecretStore.Issue: leaves the retry after a digest collision to its caller.
- ArchiveStore.SurvivesExactlyWhenDurable: takes the archive root itself as durable; its own creation is not modelled.
