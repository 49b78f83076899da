# Opslify: a verified model of its stateful core

This project models the parts of Opslify whose correctness is easy to get wrong, and proves what they keep over
whole runs. Five components, hardest first:

1. **Workspace sync** (`Sync`, `SyncRuns`, `SyncTable`, `SyncArtifacts`, `SyncBackup`, `Exclusion`, `Workspace`): the
   three-way merge between a host directory and a sandbox, with its merge base, tombstones, conflict records and
   one-time backup.
2. **Requirements graph** (`Graph`, `SpecGraph`): edge expansion, the three-colour cycle search and Kahn's ordering.
3. **Vault and secrets service** (`VaultModel`, `VaultRuns`, `Vault`, `Consumers`, `SecretsService`): envelope encryption
   with key rotation, throttled last-used stamps and buffer scrubbing, shown to act like a plain map.
4. **Change lifecycle** (`LengthPrefix`, `Pin`, `Lifecycle`, `LifecycleRuns`, `ChangeService`, `ConcurrentCalls`,
   `ConcurrentProgress`): the status machine, the plan pin, and the service under arbitrary interleavings.
5. **Instruction assembly and device flow** (`SkillRouting`, `ContextAssembly`, `DeviceFlow`).

`Prelude` and `Sorting` hold what they share. Each stateful object is a class whose methods are proved equal to functions
on values; the run theorems are about those functions. Verify with `dafny verify dfyconfig.toml`.

## Assumptions

- The hash is collision-free and never yields the empty string (`CollisionFree`).
- AES-GCM opens what it sealed under the same 32-byte key (`Aead.Lawful`); nonces and data keys are given, not drawn.
- Writing the vault file commits all records or fails and leaves the file as it was; a Change store saves one record
  atomically or fails.
- A sync pass is atomic with respect to edits: the code snapshots both sides and then applies; edits fall between passes.
- The deny-list covers every conflict sibling and every backup copy of a path it lets through (`GuardsArtifacts`). The
  list the repository ships does (`Exclusion.DenyListGuards`); beyond that the list is arbitrary, and so is what the
  host's own ignore file adds to it. A backup is named after a time stamp of the form the code writes (`Stamp`).
- Transfers, disk writes, loads, saves, clocks and random sources fail or answer as the parameters `Weather`, `Env`, `Io`
  and `World` say; the theorems hold for every choice.

## Where the code does less than its words

For each, a lemma gives the exact condition under which the promise holds.

- *Never clobber the operator's edit* (workspace.go:303): the host walk also applies the host's ignore file, the sandbox
  listing does not. A file that only the ignore file hides is overwritten by the sandbox's file of that name, and such a
  pull makes the next pass move it to a tombstone. A file the operator keeps under the name of a conflict sibling or of a
  backup copy is overwritten too (`HostEditsSafeExactly`, `SecondPassExactly`).
- *Forget a path gone from both sides* (workspace.go:337): the union of known paths leaves tombstones out, so the tombstone
  of a path without a merge base stays, and a file created there again is never synced (`TombstoneClearedExactly`,
  `BuriedIsFrozen`).
- *The sandbox version is preserved in the sibling* (workspace.go:386): not once the operator has removed or edited the
  sibling of a version already recorded (`SiblingHoldsExactly`).
- *Safety backup before the first write* (workspace.go:411): the flag is set before the copy is made, so a failed backup is
  not tried again, and later passes replace files of which no copy exists (`BackupSparesExactly`,
  `FailedBackupIsNotRetried`).
- *Two concurrent approvals cannot both succeed* (change/service.go:21): true of approvals, but a proposal looks and saves
  outside the lock, so two acceptable proposals of one id under way at once let it be approved twice
  (`ApprovedTwiceExactly`).
- *Deny or expire from proposed* (change/change.go:80): both go through the record check, which then demands an honest
  inverse the proposal need not have (`SucceedsExactly`).
- *A failed Change may be reverted* (change/change.go:85): it need never have run (`FailedRanExactly`,
  `RevertedWithoutApproval`).

## Model

| member | source | states |
|---|---|---|
| Sync.PassAt | daemon/cmd/opslify/workspace.go:246-342 | a pass settles each known path exactly once against what both sides held when it began, independently of all other paths and of the order; an aborted pass leaves each path either settled or untouched |
| Sync.OtherPathsUntouched | daemon/cmd/opslify/workspace.go:284-409 | settling one path, its backup and its conflict sibling included, changes nothing about any other syncable path |
| Sync.OnePathSettles | daemon/cmd/opslify/workspace.go:289-341 | one completed step leaves its path as the three-way decision says on both sides and in all three records; a failed step leaves it unchanged |
| SyncRuns.BaseWasHeld | daemon/cmd/opslify/workspace.go:186-205 | in every run the merge base of a path is the hash of a content both sides held together at some earlier moment |
| SyncRuns.NoUnseenEditLost | daemon/cmd/opslify/workspace.go:284-409 | in every run of edits, uploads and passes, sandbox content a pass replaces, at any path, and host content it replaces, at any shielded path, was held by both sides before: no edit the other side never held is overwritten |
| SyncRuns.IgnoredFileIsOverwritten | daemon/cmd/opslify/workspace.go:230-260 | a host file hidden by the ignore file only is replaced by the sandbox's file of that name |
| SyncRuns.PassMissesOthers | daemon/cmd/opslify/workspace.go:230-409 | a deny-listed host file that is no conflict sibling or backup copy of a visible file is never written by a pass |
| SyncRuns.SiblingIsOverwritten | daemon/cmd/opslify/workspace.go:388-409 | a file of the operator's own under the name of a conflict sibling is replaced by the sandbox's version |
| SyncRuns.BackupCopyIsOverwritten | daemon/cmd/opslify/workspace.go:414-446 | a file of the operator's own under the name of a backup copy, for any time stamp the code can write, is replaced by that copy |
| SyncRuns.HostEditsSafeExactly | daemon/cmd/opslify/workspace.go:230-446 | the operator's edits at a path, any path, are safe in every run if and only if the path is shielded: not hidden by the ignore file only, and not a conflict sibling or backup copy of a visible file |
| SyncRuns.PassMerges | daemon/cmd/opslify/workspace.go:284-342 | a completed pass is a three-way merge at every path: the side that moved wins, two that moved both stay, a new file crosses over, a deletion is not undone |
| SyncRuns.FairPassCompletes | daemon/cmd/opslify/workspace.go:246-281 | a pass completes whenever no transfer, host write or backup fails: no step of a pass makes a later one fail |
| SyncRuns.PassRemovesNothing | daemon/cmd/opslify/workspace.go:306-341 | no pass, complete or aborted, removes a file from either side |
| SyncRuns.SkippedNeverUploaded | daemon/cmd/opslify/workspace.go:183-205 | a path either filter covers never reaches the sandbox by copy-in or by any pass |
| SyncRuns.DeletionIsRespected | daemon/cmd/opslify/workspace.go:306-334 | a synced path found missing on one side is not recreated there by any later pass, complete or aborted, while the other side keeps its copy, whatever is written to that copy; from the first completed pass on it is tombstoned |
| SyncRuns.BuriedIsFrozen | daemon/cmd/opslify/workspace.go:264-276 | a tombstoned path without a merge base stays so, and no pass carries it across, through any edits, until a pass finds equal content on both sides |
| SyncRuns.TombstoneClearedExactly | daemon/cmd/opslify/workspace.go:335-340 | of a path gone from both sides, a completed pass keeps the tombstone if and only if no merge base was left |
| SyncRuns.SecondPassExactly | daemon/cmd/opslify/workspace.go:246-342 | with no edit in between a second pass always succeeds, and changes nothing if and only if the first pulled no file into the blind spot between the two filters |
| SyncRuns.ThirdPassIsIdle | daemon/cmd/opslify/workspace.go:246-342 | after two completed passes further ones change nothing |
| SyncTable.PassTable | daemon/cmd/opslify/workspace.go:284-342 | what a completed pass leaves of each path, written out by cases from the contents on the two sides and the three records: in particular a path on one side only that is tombstoned keeps everything, its merge base included |
| SyncTable.PassCompletesExactly | daemon/cmd/opslify/workspace.go:246-281 | a pass completes if and only if no known path needs an upload, download, backup or write that fails; otherwise every path before the first such one, in byte order, is settled and every other path is as it was |
| SyncTable.PassWritesOnly | daemon/cmd/opslify/workspace.go:388-446 | of the deny-listed host files a pass writes only siblings of paths whose sides differ, and copies of a backup not yet taken, outside git |
| SyncTable.CopyInExactly | daemon/cmd/opslify/workspace.go:186-205 | an upload gives exactly the visible files it got to the host content on both sides and its hash as the base, and changes nothing else |
| SyncTable.TombstonedIsLeftAlone | daemon/cmd/opslify/workspace.go:306-334 | a tombstoned path on one side only comes through any pass, complete or aborted, with both sides, its merge base and its tombstone as they were |
| SyncTable.GoneIsForgotten | daemon/cmd/opslify/workspace.go:335-341 | a path tombstoned beside a merge base, through any run that leaves its gap open, and then gone from both sides, is forgotten by the next completed pass |
| SyncTable.NewFileCrosses | daemon/cmd/opslify/workspace.go:306-319 | a file newly made where nothing is known of the path is on both sides after a completed pass, with its hash as the base |
| Exclusion.DenyListGuards | daemon/internal/wssync/exclude.go:65-111 | the shipped deny-list, path cleaning included, denies every conflict sibling and every backup copy of a path it lets through, whatever credential names it denies besides |
| Exclusion.SegmentsExactly | daemon/internal/wssync/exclude.go:68-78 | path cleaning, one segment after another: empty segments and dots go, two dots take back the segment before them or stay |
| Exclusion.ExcludedExactly | daemon/internal/wssync/exclude.go:85-111 | a path is denied exactly when it is absolute, the root or climbs out of it, has the engine's own mark on some segment, or is denied as a credential name |
| Sync.BackupIsNotSibling | daemon/cmd/opslify/workspace.go:388-446 | no backup copy ever lands on a conflict sibling |
| Sync.NamesExactly | daemon/cmd/opslify/workspace.go:388-446 | the names of conflict siblings and backup copies, character by character, for every stamp the code can write |
| SyncArtifacts.RunPreserves | daemon/cmd/opslify/workspace.go:383-409 | in every run a recorded conflict has its sandbox version in the sibling file, provided only the engine writes that file |
| SyncArtifacts.EveryPathStands | daemon/cmd/opslify/workspace.go:246-409 | after a completed pass each path is agreed with its base, tombstoned on one side, recorded as a conflict with its version in the sibling, or gone |
| SyncArtifacts.SiblingHoldsExactly | daemon/cmd/opslify/workspace.go:388-409 | a completed pass that finds a conflict leaves the sandbox version in the sibling if and only if that version was not recorded before or the sibling still held it |
| SyncBackup.FirstWriteIsUndoable | daemon/cmd/opslify/workspace.go:411-446 | outside git, the pass that first writes to the host leaves every visible file in the backup as it was when the pass began, unless the backup failed |
| SyncBackup.BackupKeptExactly | daemon/cmd/opslify/workspace.go:414-446 | outside git, a pass that marks the backup done really made it, from every starting state, if and only if the backup does not fail |
| SyncBackup.FailedBackupIsNotRetried | daemon/cmd/opslify/workspace.go:414-418 | after a failed backup the next pass replaces the operator's file and no copy of it is left on the host |
| SyncBackup.NothingWrittenBeforeBackup | daemon/cmd/opslify/workspace.go:361-418 | no pass writes to the host before the backup was attempted, and the pass whose attempt fails writes nothing |
| SyncBackup.BackupOutlivesRun | daemon/cmd/opslify/workspace.go:411-446 | a backup that was made keeps every file the attempting pass could see, as it found it, through every later run that leaves the copy alone, whatever happens to the file itself |
| SyncBackup.BackupSparesExactly | daemon/cmd/opslify/workspace.go:411-446 | in every run outside git, whatever follows the one attempt, the versions the attempting pass could see stay on the host until someone else writes them, if and only if the attempt did not fail or the copies were already there |
| Workspace.SyncEngine.constructor | daemon/cmd/opslify/workspace.go:169-181 | a new engine has no base, tombstone, conflict record or backup |
| Workspace.SyncEngine.InitialCopyIn | daemon/cmd/opslify/workspace.go:186-205 | uploads every visible host file in any order and seeds its base; succeeds exactly when no upload fails, and otherwise exactly the files reached before the first failure are in |
| Workspace.SyncEngine.CopyAside | daemon/cmd/opslify/workspace.go:424-446 | copies every visible file, as it was at the start, below the backup directory, although the copies land in the same tree |
| Workspace.SyncEngine.EnsureBackup | daemon/cmd/opslify/workspace.go:414-446 | one attempt, before the first write; git directories are left to git; failure is reported once |
| Workspace.SyncEngine.Push | daemon/cmd/opslify/workspace.go:345-357 | on success the sandbox and the base hold the host's version and the tombstone is gone; on failure nothing changed |
| Workspace.SyncEngine.Pull | daemon/cmd/opslify/workspace.go:361-381 | on success host and base hold the sandbox's version; on failure at most the backup was attempted |
| Workspace.SyncEngine.Conflict | daemon/cmd/opslify/workspace.go:388-409 | writes a version not yet recorded to the sibling and records it; leaves both files alone |
| Workspace.SyncEngine.ReconcileOne | daemon/cmd/opslify/workspace.go:284-342 | the branches on snapshots and records come to the three-way decision of Sync.Decide and its effect |
| Workspace.SyncEngine.Reconcile | daemon/cmd/opslify/workspace.go:246-281 | the loop over the sorted union of known paths performs one pass, stopping at the first error |
| Sorting.SortedKeys | daemon/cmd/opslify/workspace.go:548-555 | the keys in byte order whatever order the map yields them in: one result, sorted, duplicate-free, complete |
| Sorting.LexLeExactly | daemon/cmd/opslify/workspace.go:548-555 | the order of strings: where two first differ the smaller character decides, and a beginning comes before what it begins |
| Graph.FinishedIsAcyclic | spec/tools/specgraph.py:196-213 | nodes that can be listed each after all its successors form no cycle: a search that blackens every node proves the graph acyclic |
| Graph.OmittedExactly | spec/tools/specgraph.py:217-234 | a node is left out of the order if and only if some walk leads to it from a cycle |
| Graph.CompleteExactly | spec/tools/specgraph.py:234 | the order holds all nodes if and only if the graph has no cycle |
| Graph.OrderIsDetermined | spec/tools/specgraph.py:225-234 | there is only one order that goes as far as it can and takes nodes in the turn they became ready in, by name among those ready together |
| SpecGraph.Resolve | spec/tools/specgraph.py:154-159 | a node's resolved dependencies are the sorted list of exactly those it names or that belong to a phase it names, without itself |
| SpecGraph.BuildEdges | spec/tools/specgraph.py:149-163 | the edges are exactly the (dependency, dependent) pairs, listed node by node and within a node by dependency |
| SpecGraph.EdgesInOrder | spec/tools/specgraph.py:161-163 | edges are listed node by node in the order given, and for one node by dependency in byte order |
| SpecGraph.EdgesDistinct | spec/tools/specgraph.py:154-163 | features having distinct ids, no edge is listed twice |
| SpecGraph.ReportDangling | spec/tools/specgraph.py:171-177 | one error per unknown dependency or block, in node order; a block is reported unknown exactly when some feature of that id blocks it and no feature has its name, and a dependency likewise |
| SpecGraph.DanglingExactly | spec/tools/specgraph.py:171-177 | the dangling references reported are exactly those there are, under the right feature and of the right kind |
| SpecGraph.DanglingInOrder | spec/tools/specgraph.py:171-177 | the report of a list of features is that of its first part followed by that of the rest |
| SpecGraph.OneFeatureInOrder | spec/tools/specgraph.py:171-177 | within a feature every unknown dependency comes before every unknown block, each in the order listed |
| SpecGraph.Adjacency | spec/tools/specgraph.py:188-191 | each known node's successor list, one entry per edge, in edge order |
| Graph.SuccessorsInOrder | spec/tools/specgraph.py:188-191 | a node's successors stand in the order of its edges |
| SpecGraph.CycleSearch.Report | spec/tools/specgraph.py:200-203 | the path from the earlier visit of a grey node back to it is a closed walk of the graph |
| SpecGraph.CycleSearch.Visit | spec/tools/specgraph.py:199-205 | following one successor either reports a real cycle or leaves that successor black and the path as it was |
| SpecGraph.CycleSearch.Dfs | spec/tools/specgraph.py:196-208 | either exactly one real cycle is reported, or the node and everything below it is black and the path restored; it ends because white nodes run out |
| SpecGraph.SearchAll | spec/tools/specgraph.py:210-213 | starting from every white node, all nodes turn black unless one cycle is reported |
| SpecGraph.Validate | spec/tools/specgraph.py:166-214 | the dangling references, named exactly, followed by one real cycle of known features if and only if the graph has a cycle |
| SpecGraph.NoneRemaining | spec/tools/specgraph.py:222-224 | a node's count of unfinished incoming edges is zero exactly when all its predecessors are done |
| SpecGraph.RemainingAfter | spec/tools/specgraph.py:230-231 | finishing a node lowers each count by exactly the number of its edges to that node |
| SpecGraph.InDegrees | spec/tools/specgraph.py:219-224 | counts and successor lists agree with the edge list, duplicates counted |
| SpecGraph.Release | spec/tools/specgraph.py:230-233 | after the successors are processed, a node is listed or queued exactly when nothing it waits for is left, and the queue is in the order the nodes became ready, by name among equals |
| SpecGraph.TopoOrder | spec/tools/specgraph.py:217-234 | distinct known nodes, listed exactly when all their known predecessors are, each after them, in the turn they became ready in and by name among those ready together |
| SpecGraph.Agreement | spec/tools/specgraph.py:166-234 | the search reports a cycle exactly when the ordering is incomplete; with no error every feature named as a dependency or a block is known and every feature is listed after everything it depends on |
| SpecGraph.Run | spec/tools/specgraph.py:123-234 | building, validating and ordering any set of features meets that agreement |
| VaultModel.Refines | daemon/internal/broker/vault.go:361-599 | every call on the encrypted vault has the contents and the answer of the same call on a plain map, whether or not the disk works |
| VaultModel.WriteCarriesOver | daemon/internal/broker/vault.go:408-462 | a write to a present ref sets each of provider, scope and TTL to the one given if it is not empty and keeps the one there was if it is; creation and last use stay; no other record changes; a call refused before the write changes nothing |
| VaultModel.WriteAnswers | daemon/internal/broker/vault.go:361-462 | the answer of every write, refusals in the order they are looked for |
| VaultModel.RotationAnswers | daemon/internal/broker/vault.go:606-647 | the answer of a rotation: a key not of 32 bytes, a data key that does not unwrap or a failing random source, a failing disk |
| VaultModel.RotationIsAtomic | daemon/internal/broker/vault.go:606-647 | on success every sealed value is unchanged byte for byte and opens to the same plaintext under the new key; on any error the whole state is unchanged |
| VaultModel.StaysWellKeyed | daemon/internal/broker/vault.go:408-462 | every record stays under its own ref |
| VaultRuns.RunRefines | daemon/internal/broker/vault.go:361-647 | over any run, with failing disks and rotations, the vault holds what a plain map would |
| VaultRuns.VaultTold | daemon/internal/broker/vault.go:408-462 | in every run from any file a ref holds the value last written and not deleted since, or the one found, its creation time is that of the creating write, and provider, scope and TTL are the last non-empty ones given since it was created, found by looking back over the calls |
| VaultRuns.StampsAreTrue | daemon/internal/broker/vault.go:408-489 | in every run from any file the rotation stamp is the time of the last replacement and the last-used stamp that of the last read, whatever the throttle and the disk did |
| VaultRuns.GetReturnsLastWrite | daemon/internal/broker/vault.go:465-502 | after any run from any file Get answers with the last value written or found, with not found, or with a refusal for a record that never opened |
| VaultRuns.DiskHoldsLastCommit | daemon/internal/broker/vault.go:244-277 | the file always decrypts, under the key now in use, to the vault as it stood at the last call that wrote it |
| VaultRuns.DiskAlwaysOpens | daemon/internal/broker/vault.go:244-277 | from any file, a record that opened when found or was written since opens on disk under the key now in use, in every run |
| VaultRuns.LastUsedOnDisk | daemon/internal/broker/vault.go:465-502 | with a working disk and a clock that does not go back, the stamp on disk trails memory by less than 60 000 000 000 nanoseconds and answers "used since rotation" as memory does |
| VaultRuns.FlushesAreSpaced | daemon/internal/broker/vault.go:484-498 | on any disk and clock, n attempts to flush one ref's stamp between its writes span at least n-1 times 60 000 000 000 nanoseconds |
| Vault.Zeroize | daemon/internal/broker/backend.go:123-127 | every byte of the buffer is zero |
| Vault.OpenVault | daemon/internal/broker/vault.go:166-189 | no vault without a key of 32 bytes and a readable file; otherwise one over the records on file with a key array of its own |
| Vault.Vault.Persist | daemon/internal/broker/vault.go:244-277 | the file becomes the records in memory, or stays |
| Vault.Vault.WriteLocked | daemon/internal/broker/vault.go:408-462 | seals and commits a record, carrying over creation, last use and unstated metadata; once the data key is drawn, every buffer the call made is zero when it returns; memory keeps the record when the disk fails |
| Vault.Vault.PutLocked | daemon/internal/broker/vault.go:367-382 | the existence rules of Put and Update, decided and applied together |
| Vault.Vault.Put | daemon/internal/broker/vault.go:361-363 | refuses an existing ref unless told to overwrite; refused for its input or its ref it leaves memory and disk as they were |
| Vault.Vault.Update | daemon/internal/broker/vault.go:541-547 | refuses a missing ref, so it never creates one; existence is decided where the write happens |
| Vault.Vault.Upsert | daemon/internal/broker/vault.go:524-535 | Upsert, with the stored metadata and whether it replaced, as of the write itself |
| Vault.Vault.Decrypt | daemon/internal/broker/vault.go:551-571 | opens both layers into fresh buffers, the only ones left holding anything, and none is if the value does not open |
| Vault.Vault.Get | daemon/internal/broker/vault.go:465-502 | the plaintext in a fresh buffer, every other buffer the call made zero, the stamp set in memory and flushed at most once a minute, a failed flush not failing the call |
| Vault.Vault.List | daemon/internal/broker/vault.go:574-583 | the metadata of every record, each as often as there are records with it, sorted by ref |
| Vault.Vault.Delete | daemon/internal/broker/vault.go:586-599 | the ref and its flush marker are gone from memory even when the disk fails |
| Vault.Vault.RewrapAll | daemon/internal/broker/vault.go:612-631 | re-wraps every data key in any order, succeeds exactly when all unwrap and nonces can be drawn, and leaves every buffer it made zero |
| Vault.Vault.RotateMasterKey | daemon/internal/broker/vault.go:606-647 | all or nothing; the key in use is a fresh copy, the old buffer is scrubbed only on success, and the two never alias even if the caller passes the old buffer; no data key is left in any buffer, only a copy of the new key when the commit is rolled back |
| Consumers.ConfigConsumers | daemon/internal/broker/consumers_sources.go:27-50 | lists exactly the egress rules and upstreams that name a non-empty ref |
| Consumers.PolicyConsumers | daemon/internal/broker/consumers_sources.go:66-87 | lists exactly the grants of every scope |
| Consumers.ConnectionConsumers | daemon/internal/broker/consumers_sources.go:97-116 | lists exactly the connections with a secret ref, environment scope before project scope |
| Consumers.ReportsExactly | daemon/internal/broker/consumers_sources.go:27-116 | each source's consumers from its own fields: kind, name and scope of a rule's host, an upstream's ecosystem, a grant's provider or "grant", and a connection's kind and name under its environment or else its project |
| Consumers.ConsumerLeExactly | daemon/internal/broker/consumers.go:149-157 | consumers are ordered by kind, between equal kinds by name, and between equal names by scope |
| Consumers.DedupeConsumers | daemon/internal/broker/consumers.go:139-159 | the same consumers, strictly sorted by kind, name and scope |
| Consumers.ReadingIsDetermined | daemon/internal/broker/consumers.go:102-128 | a reading of the index is one and the same list for each ref whatever order maps are iterated in |
| Consumers.PresentInOrder | daemon/internal/broker/consumers.go:80-88 | missing sources are dropped and the others keep their order and multiplicity |
| Consumers.ConsumerIndex.constructor | daemon/internal/broker/consumers.go:80-88 | keeps the sources that are not nil, in order and as often as given |
| Consumers.ConsumerIndex.Register | daemon/internal/broker/consumers.go:91-98 | appends a source, ignoring nil |
| Consumers.ConsumerIndex.All | daemon/internal/broker/consumers.go:102-128 | answers exactly when every source does, and then holds a consumer for a ref if and only if some source reports it, sorted and duplicate-free |
| Consumers.ConsumerIndex.Of | daemon/internal/broker/consumers.go:131-137 | the consumers of one ref, failing exactly when a source cannot answer |
| SecretsService.WrittenOpens | daemon/internal/broker/secrets_service.go:130-192 | after a successful write a later Get, whatever its circumstances, returns the value written |
| SecretsService.SecretsService.Find | daemon/internal/broker/secrets_service.go:230-241 | the metadata of a ref from the listing, or none |
| SecretsService.SecretsService.Rotate | daemon/internal/broker/secrets_service.go:130-161 | the caller's buffer is all zero on every path, and after success Get returns the bytes it held at entry |
| SecretsService.SecretsService.Upsert | daemon/internal/broker/secrets_service.go:175-192 | the same, and replaced or created is told by existence at the write |
| SecretsService.SecretsService.Delete | daemon/internal/broker/secrets_service.go:194-226 | unforced it deletes only if every source answered and none names the ref; refusals leave the vault unchanged; refused or done, the caller is handed exactly the consumers of the ref, or none when they are unknowable |
| LengthPrefix.FieldReads | daemon/internal/change/pin.go:40-44 | a length-prefixed field reads back as itself in front of any bytes |
| LengthPrefix.DecimalExactly | daemon/internal/change/pin.go:38-40 | a length is written in decimal, without leading zeros |
| Pin.PreimageReadsBack | daemon/internal/change/pin.go:33-49 | a parser recovers every command and gate from the pin's preimage, for arguments of any bytes |
| Pin.PreimageInjective | daemon/internal/change/pin.go:33-49 | two plans share a preimage if and only if they have the same commands and gates in order |
| Pin.PreimageBytes | daemon/internal/change/pin.go:33-47 | the bytes that are hashed: version line, then per step its place, argument count, arguments and gate mark |
| Pin.ArgvBytesAre | daemon/internal/change/pin.go:39-41 | each argument is written after its length and a colon and before a bar |
| Pin.Pin | daemon/internal/change/pin.go:33-49 | the buffer built step by step is that preimage, hashed |
| Pin.VerifyAcceptsOnlyThePlan | daemon/internal/change/pin.go:57-72 | a plan verifies against the pin of another if and only if it is that plan in every command and gate |
| Lifecycle.MovesGoForward | daemon/internal/change/change.go:79-89 | every legal move raises the rank, so five moves at most; applying can be skipped only by denial, expiry or failure |
| Lifecycle.Utf8LengthExactly | daemon/internal/change/change.go:275-282 | the bytes an intent takes, character by character |
| LifecycleRuns.StepEffect | daemon/internal/change/service.go:182-216 | one call changes at most the record it aims at, only by a legal move, only in the fields that call may change, and keeps all records valid |
| LifecycleRuns.LegalExactly | daemon/internal/change/change.go:79-89 | the moves there are, call by call: from which statuses each call moves a Change, and to which |
| LifecycleRuns.TerminalIsFinal | daemon/internal/change/change.go:92-95 | a record that is denied, expired or reverted is never altered in any field by any later calls |
| LifecycleRuns.LifeIsShort | daemon/internal/change/change.go:79-89 | in every run a Change makes at most five successful moves and is approved at most once |
| LifecycleRuns.AppliedAsReviewed | daemon/internal/change/service.go:62-113 | in every run a Change being applied or applied names the one who approved it, was approved once, and carries the pin and steps of its single preview |
| LifecycleRuns.ApprovalRunsThePreviewedPlan | daemon/internal/change/service.go:95-113 | an approval succeeds only for the plan that was previewed: steps handed in agree with it command by command and gate by gate, and otherwise the stored steps are the previewed ones |
| LifecycleRuns.ApprovalSucceedsExactly | daemon/internal/change/service.go:95-113 | in every run an approval succeeds if and only if the store works, the Change is previewed or awaiting approval, a decider is named, and the steps handed in, if any, are those of the preview |
| LifecycleRuns.AnsweredExactly | daemon/internal/change/service.go:182-216 | the answer of every call on any store, errors included, in the order of the code's checks |
| LifecycleRuns.ProposeAnsweredExactly | daemon/internal/change/service.go:39-55 | the answer of every proposal, from its own fields and the store |
| LifecycleRuns.HonestExactly | daemon/internal/change/change.go:181-201 | an inverse is honest if it has steps for a way back it names, or says in words that there is none and has no steps |
| LifecycleRuns.SucceedsExactly | daemon/internal/change/service.go:62-216 | a call on a stored record succeeds if and only if the store works, the move is legal and the call's own grounds hold; denying, expiring or failing a proposal needs an honest inverse |
| LifecycleRuns.FailedRanExactly | daemon/internal/change/service.go:142-147 | a Change marked failed had been approved if and only if it was being applied at that moment |
| LifecycleRuns.RevertedWithoutApproval | daemon/internal/change/service.go:154-164 | a proposal nobody approved can be failed and then reverted, and the decider of the revert is not stored |
| ChangeService.Service.Propose | daemon/internal/change/service.go:39-55 | stamps, checks and saves a new record, or fails in the code's order of checks |
| ChangeService.Service.Mutate | daemon/internal/change/service.go:182-216 | load, legality, edit, stamp, check, save: the record moves or the store is unchanged |
| ChangeService.Service.Preview | daemon/internal/change/service.go:62-77 | attaches a non-empty plan with an honest inverse and pins it from the steps as previewed; on any failure the store is unchanged |
| ChangeService.Service.RequestApproval | daemon/internal/change/service.go:80-87 | only a pinned plan can be put up for approval; nothing but status and time changes |
| ChangeService.Service.Approve | daemon/internal/change/service.go:95-113 | a named decider moves the Change to applying only if the steps about to run match the pin; on any failure the store is unchanged |
| ChangeService.Service.Deny | daemon/internal/change/service.go:116-125 | records decider and note and ends the Change; the record check may refuse a bare proposal |
| ChangeService.Service.Expire | daemon/internal/change/service.go:129-134 | ends the Change with a reason and no decider; the record check may refuse a bare proposal |
| ChangeService.Service.MarkApplied | daemon/internal/change/service.go:137-139 | completes a Change being applied; nothing but status and time changes |
| ChangeService.Service.MarkFailed | daemon/internal/change/service.go:142-147 | records the reason, from proposed, previewed or applying alike |
| ChangeService.Service.Revert | daemon/internal/change/service.go:154-164 | demands a decider and a runnable inverse, and stores neither |
| ConcurrentCalls.ScheduleInv | daemon/internal/change/service.go:182-216 | under every interleaving of acquire, load, save and release steps the lock holder's copy is current and the answers so far are those of a sequential run |
| ConcurrentCalls.ScheduleOwned | daemon/internal/change/service.go:39-216 | under every interleaving the answers given and the finished calls correspond one to one |
| ConcurrentCalls.KeepsRealTime | daemon/internal/change/service.go:39-216 | at every moment of every schedule, a call already answered precedes in the order every call answered later |
| ConcurrentCalls.Linearizable | daemon/internal/change/service.go:39-216 | if no two acceptable proposals share an id, every interleaving has the store and the answers of the answered calls made one after the other, each once and nothing else, in an order that respects real time |
| ConcurrentCalls.AtMostOneApproval | daemon/internal/change/service.go:21-24 | under every interleaving at most one approval of a Change succeeds |
| ConcurrentCalls.ProposedTwiceApprovedTwice | daemon/internal/change/service.go:39-55 | two acceptable proposals of one id have a schedule in which the Change is approved twice |
| ConcurrentCalls.ApprovedTwiceExactly | daemon/internal/change/service.go:39-55 | two proposals under way at once can lead to a double approval if and only if both are acceptable and share an id |
| ConcurrentProgress.StepsForward | daemon/internal/change/service.go:182-216 | a scheduled call takes a step forward and touches no other call, unless it is done or waits for a mutex that some call is inside |
| ConcurrentProgress.EveryCallCanFinish | daemon/internal/change/service.go:39-216 | no deadlock: after any interleaving at most four steps for each call finish them all, even if every load and save fails |
| ContextAssembly.PreimageDetermines | daemon/internal/agentcontext/hash.go:45-55 | the assembly preimage determines the ordered list of kinds, names and content hashes |
| ContextAssembly.PreimageBytes | daemon/internal/agentcontext/hash.go:45-53 | the bytes that are hashed: version line, then per layer its kind, name and content hash, each after its length |
| ContextAssembly.HashIdentifiesInstructions | daemon/internal/agentcontext/hash.go:17-55 | two instruction sets share a hash if and only if they are the same layers |
| ContextAssembly.AssemblyHash | daemon/internal/agentcontext/hash.go:45-55 | the buffer built layer by layer is that preimage, hashed |
| ContextAssembly.LayersAreRanked | daemon/internal/agentcontext/assemble.go:77-133 | the gathered layers all have a rank and stand in non-decreasing rank |
| ContextAssembly.LayersExactly | daemon/internal/agentcontext/assemble.go:80-125 | a layer is in the assembly if and only if one of the five sources holds it: nothing is dropped or added |
| ContextAssembly.LoadSkills | daemon/internal/agentcontext/sources.go:184-231 | the picked skill files in name order, or a refusal if any picked one is unsafe |
| ContextAssembly.CheckKinds | daemon/internal/agentcontext/assemble.go:167-174 | accepts exactly the lists whose every kind has a rank |
| ContextAssembly.Assemble | daemon/internal/agentcontext/assemble.go:73-163 | succeeds exactly when every source is safe and the total fits, and then the layers are complete, in order within and across kinds, with true totals, hash, budget flag and warnings; an ill-kept, unreadable or misplaced house-rules file is a refusal, and invalid input is answered exactly for a bad environment name or a house file whose place cannot be resolved |
| ContextAssembly.HouseRulesComeFirst | daemon/internal/agentcontext/assemble.go:73-163 | an ill-kept or unreadable house-rules file, or one inside the workspace, is refused as unsafe; an assembly that succeeds has no such file and no house rules, or opens with that file's layer, the only one of its kind, whatever workspaces and everything else hold; so any two under one daemon file have the same house rules |
| ContextAssembly.RefusedExactly | daemon/internal/agentcontext/assemble.go:73-146 | all refusals from the sources' own fields: which are invalid input and which an unsafe source |
| ContextAssembly.HoldsFixedLayers | daemon/internal/agentcontext/assemble.go:80-103 | house rules, project instructions and environment overlay are in the assembly exactly when their file was loaded, the overlay only for a named environment, under those names and with those contents |
| ContextAssembly.HoldsSkill | daemon/internal/agentcontext/sources.go:184-231 | a skill layer is in the assembly exactly when its pack was loaded and no roles were given or a given role is filled by its tool |
| ContextAssembly.HoldsContract | daemon/internal/agentcontext/assemble.go:118-125 | a tool contract is in the assembly exactly when it was given and is not empty |
| ContextAssembly.SkillsByFileName | daemon/internal/agentcontext/sources.go:211-230 | of two packs used, the one whose file name comes first stands first |
| ContextAssembly.ContractsInOrder | daemon/internal/agentcontext/assemble.go:118-125 | contracts keep the order they were given in |
| ContextAssembly.TotalsAdd | daemon/internal/agentcontext/assemble.go:142-145 | bytes and tokens of an assembly are the sums over its parts |
| ContextAssembly.WarnsExactly | daemon/internal/agentcontext/assemble.go:138-162 | a budget not positive means 24000; the overrun warning comes first and exactly when the tokens exceed the budget; each tool asked for without a pack has its warning, and no other tool has one |
| ContextAssembly.AssemblyHashIdentifies | daemon/internal/agentcontext/assemble.go:149 | two assemblies carry the same hash if and only if they are the same instructions |
| SkillRouting.DedupeSorted | daemon/internal/agentcontext/routing.go:104-116 | the distinct non-empty names, sorted |
| SkillRouting.Route | daemon/internal/agentcontext/routing.go:50-98 | one routing whatever order the capability map and the tool set are visited in |
| SkillRouting.RoutesExactly | daemon/internal/agentcontext/routing.go:66-98 | with roles given: the roles are the distinct non-empty ones, sorted; the tools are exactly those filling one, selected those with a pack, missing exactly the rest, once for each role they fill |
| SkillRouting.RoutesEverything | daemon/internal/agentcontext/routing.go:55-69 | with no roles: every pack on disk is selected, and missing is exactly the declared tools without one |
| DeviceFlow.PollForRefreshToken | daemon/internal/broker/oauth2.go:379-428 | polls and outcome by the clock and the answers alone: the first poll one interval after the start, each later one after the previous answer and the interval then in force, at most lifetime/interval + 1 of them, each round begun in time, and each way of ending with its one cause; an interval or lifetime that is not positive means 5 and 600 seconds |
| DeviceFlow.RunIsDetermined | daemon/internal/broker/oauth2.go:379-428 | the answers, the clock and the caller determine the polls and the outcome: no other run meets the loop's contract |
| DeviceFlow.RoundsFit | daemon/internal/broker/oauth2.go:397-403 | rounds begun before the deadline number at most one more than fit into the lifetime |
| DeviceFlow.PollsAreSpaced | daemon/internal/broker/oauth2.go:403-423 | the time and the interval of each poll from those of the one before; the interval grows by five seconds at each slow_down and never otherwise (RFC 8628, section 3.5) |
| DeviceFlow.LastPollMayBeLate | daemon/internal/broker/oauth2.go:400-403 | a poll falls after the deadline by at most its interval and the oversleep |
| DeviceFlow.LatePollHappens | daemon/internal/broker/oauth2.go:391-423 | that bound is reached by the loop itself: with a lifetime of one interval and a prompt first answer it makes a second poll, a whole interval after the deadline |

## Left out

- In the sync engine: `safeHostPath` refusals, symbolic links, files that cannot be read or hashed, and paths where one is a directory of another; paths are flat keys.
- In the sync engine: edits landing while a pass runs, the `export` command (which pulls unconditionally), the watch loop and its timers, and the pattern language of the exclusion filter.
- In the sync engine: a failed backup is taken to have copied nothing; the code may leave a partial copy behind.
- In the requirements graph: parsing of the markdown files, the advisory blocks/depends warnings, and the diagram output; Python's recursion limit, which a dependency chain of about a thousand features would exceed in `dfs`; a feature's dependencies are taken as read from its file.
- In the vault: base64, JSON, the path and permissions of the file, and real cryptography; the rules for refs and metadata fields (`accepts`); several clock readings within one write are one.
- In the vault: copies of a key or plaintext the Go runtime may make beyond the buffers the code holds.
- In the secrets service: the audit log, the listing with consumer counts, and backends without an atomic update or upsert, which the code refuses.
- In the Change lifecycle: JSON storage replaces bytes that are not UTF-8, so a stored plan with such an argument no longer hashes to its pin and cannot be approved from the store; the model keeps the bytes, and its theorems say nothing of that loss.
- In the Change lifecycle: path checks of the store, reading and listing records, statuses outside the table, and summaries.
- In the concurrent service: more than one process; two daemons over one store are not modelled.
- In instruction assembly: rendering, lookup by name, the token estimate, per-file size limits and the environment-name rule, which appear as parameters.
- In the device flow: the requests themselves and the start of the flow; overflow of durations.
- HTTP handlers, the command line, the web pages, containers, cloud adapters and connection kinds.
