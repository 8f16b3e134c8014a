# Verified model of the planner's persistence and control core

This Dafny project models the parts of the astrophotography planner that carry its hard invariants, the persistence
and control code, and proves what they promise. It is written for Dafny 4.11; `dafny verify dfyconfig.toml` checks the
whole project. Nothing was executed.

## Components

- **Field Lab index and writer session** (`Bytes`, `Merging`, `FieldLabIndex`, `FieldLabTables`, `FieldLabBuild`,
  `FieldLabRefresh`, `FieldLabCapacity`, `FieldLabSession`, `FieldLabHistory`). The metadata index is built by
  external merge sort from an immutable inventory of artifacts; a session combines it with a bounded tail of new
  artifacts, counts and limits. It agrees with the plain scan of the inventory at every step.
- **Guardian renewal** (`GuardianRenewal`). Explicit commands with an idempotency journal, one owned execution, a
  service that may fail before or after committing, and an attestation published behind a last-moment check.
- **Lineage stores** (`ObservationLineage`, `AcceptanceLineage`, `AcceptanceHistory`). Correction chains, identities
  that are unique across documents, idempotent acceptance, and the validated cache.
- **Snapshot reads** (`SharedDirectory`, `HistoryReader`, `TornHistory`). A reader without a lock, against any
  interleaving with writers.
- **Crash-safe publication** (`Publication`, `PublicationRace`). Create-only hard-link publication with fsync, its
  rollback and clean-up, in every crash state and every race.
- **Durable schedulers and alert ledger** (`DurableState`, `Schedulers`, `AlertLedger`).
- **Backup container** (`ZipDirectory`, `ZipMember`, `BackupManifest`, `ProfileBackup`, `RefusedBackup`). The bounded
  ZIP walker and member decoder, byte by byte, against what the producer emits.
- **Directory overlap** (`PathOverlap`).
- Shared: `Wrappers` (results) and `Enumeration` (sets as sequences).

Classes keep the fields that the program's classes update; loops stay loops; pure code is functions and lemmas. The
outside world is a nondeterministic choice or a parameter: clocks, I/O faults, other processes, SHA-256, CRC-32,
deflate, JSON. A file system is a map from names to contents; for crashes it also keeps the entries that may survive.
Where other processes interfere, a class keeps the history of all states and may extend it between any two steps.
Times are integers. Locks are mutual exclusion.

## Where the code does less than it says

- `remaining` is not always what saving will admit: a session over an index also refuses beyond 16,384 tail names.
  `FieldLabSession.RemainingIsRoom` and `ReserveIsPublishable` give the exact conditions; with a full tail nothing new
  is admitted (`FullTailAdmitsNothing`), and `FieldLabHistory.FillTail` fills one.
- A refresh trusts the rows of an accepted base. It publishes what a forced rebuild would if and only if the rows that
  the base stores, apart from the outdated ones, which it replaces, are their artifacts' metadata
  (`FieldLabRefresh.RefreshIsRebuild`). `LyingBase` shows accepted bases where they are not; every generation that a
  build published is one where they are (`RefreshHistory`).
- A history read tolerates one document that it could not examine (`HistoryReader.OutcomeHistoryReader.Read`). With
  two of them, whichever they are, it can report a torn snapshot as stable and complete (`TornHistory.TornRead`), and
  one is exactly what its evidence bears (`TornHistory.PromisedExactly`). The reader could count them before it
  reports: they are the `None` entries of its first pass.
- The member loop stops when the decoder leaves no input over, but a limited call may leave no input over and still
  hold output back. A backup with a member of 64 KiB or more can then be refused by the version that made it:
  `RefusedBackup.Refused` shows it for a concrete library and every such document. `RoundTrip` gives the exact
  condition, `PackedDrains` of the manifest and of every file, which the producer could check before it returns an
  archive.
- The session snapshot is keyed by signatures only, so it may keep entries of a file that was created and deleted
  between its two scans (`DeletedFilesLinger`). It is right if and only if it has as many entries as signatures, which
  its reader could check (`SessionReadSnapshot`).
- A commit whose pair is already stored succeeds without recording its request identity, so a later retry of that
  request is not recognized as one (`RetryOfAStoredPair`). A retry is recognized if and only if the request was
  recorded before the first attempt or its pair was not stored yet (`CommitThenRetry`).

## Model

| member | source | states |
|---|---|---|
| `Bytes.BigEndianRoundTrip` | astropilot/field_lab_index.py:336 | a number that fits its width is read back from its big-endian bytes |
| `Bytes.LexLessIsNumericOrder` | astropilot/field_lab_index.py:171-178 | comparing fixed-width records byte by byte is comparing the numbers they encode, and equal bytes are equal numbers |
| `Bytes.FieldsOfRecord` | astropilot/field_lab_index.py:186 | the two fields of a packed record are the two halves of the number it encodes |
| `Merging.Sorted` | astropilot/field_lab_index.py:288-295 | one spilled chunk: sorted, and a permutation of the chunk |
| `Merging.Merge` | astropilot/field_lab_index.py:330 | `heapq.merge`: the k-way merge of sorted runs is sorted and holds exactly the records of all runs, for any number of runs |
| `Merging.SortedEnumerationIsUnique` | astropilot/field_lab_index.py:321-335 | two strictly increasing enumerations of one set are equal, so a table is determined by its contents |
| `FieldLabIndex.Open` | astropilot/field_lab_index.py:142-203 | a stored generation is accepted if and only if sizes and digests match the manifest, names strictly ascend, offsets tile the row bytes with rows of 1 to MAX_ROW bytes, and relations strictly ascend and point at existing rows |
| `FieldLabIndex.CheckOffsets` | astropilot/field_lab_index.py:184-191 | the offset loop accepts exactly contiguous tables that end at the recorded row bytes |
| `FieldLabIndex.CheckRelations` | astropilot/field_lab_index.py:192-198 | the relation loop accepts exactly strictly ascending records whose row numbers exist |
| `FieldLabTables.TablesAccepted` | astropilot/field_lab_index.py:132-205 | every table that a build describes passes the reader's validation |
| `FieldLabTables.OffsetRecord` | astropilot/field_lab_index.py:336 | offset record i locates line i inside the row bytes |
| `FieldLabTables.RelationRecord` | astropilot/field_lab_index.py:338-340 | stored relation record p is the p-th smallest relation, the run's hash and the row number of one comparison row |
| `FieldLabBuild.RelationRow` | astropilot/field_lab_index.py:338-340 | every comparison row has exactly one relation record, and no other row has any |
| `FieldLabTables.ReadRows` | astropilot/field_lab_index.py:208-218 | streaming the rows against the name table succeeds exactly on the parse of the row bytes under those names, with nothing left over |
| `FieldLabTables.ParseOfRowBytes` | astropilot/field_lab_index.py:208-218 | streaming the row bytes of built tables gives back the rows (round trip) |
| `FieldLabTables.BisectLeft` | astropilot/field_lab_index.py:71-74 | binary search over a strictly ascending table of fixed-width records returns the first record not below the key |
| `FieldLabTables.Contains` | astropilot/field_lab_index.py:71-74 | membership in the name table is decided exactly |
| `FieldLabTables.RowSlice` | astropilot/field_lab_index.py:108-110 | reading the row bytes by offset record i decodes to row i |
| `FieldLabTables.Related` | astropilot/field_lab_index.py:100-115 | a query for a run yields exactly the rows of that run in row order, and raises if and only if another run's hash collides with it |
| `FieldLabBuild.MatchedAll` | astropilot/field_lab_index.py:262-264 | as many matches as base names means exactly that every base name is present in the inventory |
| `FieldLabBuild.UpgradeRows` | astropilot/field_lab_index.py:265-274 | outdated rows are replaced by their envelope's metadata, and refused exactly when they disagree with it |
| `FieldLabBuild.ReuseBase` | astropilot/field_lab_index.py:258-274 | a base is reused exactly when it is accepted, readable, names nothing that is gone, and its outdated rows agree with their envelopes; what is reused are its rows, brought up to date |
| `FieldLabBuild.CollectNew` | astropilot/field_lab_index.py:277-286 | reused rows and batches of 64 new envelopes together are the rows of exactly the inventory, each artifact once, in any directory order |
| `FieldLabBuild.SpillRuns` | astropilot/field_lab_index.py:288-314 | chunking keeps every input exactly once in sorted runs, and is refused exactly on a wrong total or an oversized row |
| `FieldLabBuild.MergedRelations` | astropilot/field_lab_index.py:351-353 | sorting relation chunks and merging them gives the strictly sorted set of relation records |
| `FieldLabBuild.WriteTables` | astropilot/field_lab_index.py:315-347 | the merged lines are written as the described tables, or refused exactly on a duplicate key, a wrong count or too many row bytes |
| `FieldLabBuild.MergedRows` | astropilot/field_lab_index.py:330-346 | sorted entries of distinct keys are the rows of the inventory in strict name order |
| `FieldLabBuild.Build` | astropilot/field_lab_index.py:221-365 | over any base, whatever its rows say: a build publishes exactly when the base can be reused and everything else read and indexed; what it publishes are the tables of the inventory with the reused rows in their places, and readers accept them |
| `FieldLabBuild.SameBuild` | astropilot/field_lab_index.py:221-226 | reused rows that are their artifacts' metadata change neither when a build publishes nor what |
| `FieldLabRefresh.TruthfulReuseAgrees` | astropilot/field_lab_index.py:258-274 | all rows reused from an accepted base are their artifacts' metadata exactly when the stored rows that are not outdated are: the outdated ones are replaced either way |
| `FieldLabRefresh.RefreshIsRebuild` | astropilot/field_lab_index.py:221-274 | over a base that can be reused, if a refresh or a forced rebuild publishes, both publish the same exactly when every row that the base stores and that is not outdated is the metadata of its artifact |
| `FieldLabRefresh.LyingBase` | astropilot/field_lab_index.py:258-274 | a concrete family of accepted, complete bases, one fact of whose row differs from its artifact: refresh and rebuild both publish, and differ |
| `FieldLabBuild.BuiltBaseIsUsable` | astropilot/field_lab_index.py:258-275 | a generation built over an earlier inventory is a faithful, usable base for every later one, because artifacts are immutable |
| `FieldLabBuild.RefreshHistory` | astropilot/field_lab_index.py:221-226 | over any growth of the inventory with any failed refreshes in between, each refresh from the last generation publishes exactly when and what a forced rebuild would |
| `FieldLabCapacity.CapacityPolicy` | astropilot/field_lab_capacity.py:10-15 | the reserve fits within the stop, and the stop within the name limit |
| `FieldLabCapacity.RoundedStop` | astropilot/field_lab_capacity.py:12 | truncating the float product gives nine tenths rounded down |
| `FieldLabCapacity.StopIsMonotone` | astropilot/field_lab_capacity.py:10-15 | a lower name limit never raises the stop |
| `FieldLabCapacity.CheckedCycleHasItsReserve` | astropilot/field_lab_collection.py:100-108 | a cycle that passes the default capacity check is left room for at least the whole reserve |
| `FieldLabSession.ReserveIsPublishable` | astropilot/field_lab_collection.py:100-108 | a checked cycle can publish its whole reserve if and only if no index tail gets in the way first |
| `FieldLabSession.RemainingIsRoom` | astropilot/field_lab_collection.py:54-62 | the reported `remaining` is what saving will admit, if and only if the tail has room for as many |
| `FieldLabSession.FieldLabStore.FullTailAdmitsNothing` | astropilot/field_lab_store.py:570-572 | a session with a full tail refuses every new artifact, asking for a refresh, although the reported `remaining` is positive |
| `FieldLabSession.FieldLabStore.OpenQuery` | astropilot/field_lab_store.py:390-436 | without an index no query opens and none is needed; with one, a query opens exactly within its limits on an index over artifacts that are all there, with a tail of at most 16,384 names, and its view is then exact |
| `FieldLabSession.FieldLabStore.BuildTail` | astropilot/field_lab_store.py:406-436 | the tail is exactly the inventory beyond the index, each name once, found by counting matches |
| `FieldLabSession.FieldLabStore.IterMetadata` | astropilot/field_lab_store.py:660-663 | index rows and tail together stream the metadata of exactly the inventory, each artifact once |
| `FieldLabSession.FieldLabStore.Enter` | astropilot/field_lab_store.py:249-290 | a scope opens exactly when the inventory is within its limit; a nested scope can only lower the stop; the count equals the inventory |
| `FieldLabSession.FieldLabStore.Exit` | astropilot/field_lab_store.py:262-268 | leaving a scope restores the stop it found; leaving the outermost one ends the session |
| `FieldLabSession.FieldLabStore.CapacityCount` | astropilot/field_lab_store.py:358-373 | the running count of a session and the recount outside one are the size of the inventory, each refused exactly beyond its limits |
| `FieldLabSession.FieldLabStore.Publish` | astropilot/field_lab_store.py:577-580 | a publication adds exactly one artifact to the files, the count and the query's view, which stays exact |
| `FieldLabSession.FieldLabStore.Save` | astropilot/field_lab_store.py:557-582 | the outcome, the new inventory, count, tail and sidecars of `_save`; saving again changes nothing but the sidecar; the count never reaches the stop |
| `FieldLabSession.FieldLabStore.SaveInOwnScope` | astropilot/field_lab_store.py:553-555 | `save` alone and nested: its exact outcome under the tighter of both limits, and scopes and stop exactly as they were |
| `FieldLabSession.FieldLabStore.SaveMany` | astropilot/field_lab_store.py:566-578 | saving distinct new artifacts until the first refusal admits exactly the room left, whatever their order |
| `FieldLabSession.FieldLabStore.RebuildIndex` | astropilot/field_lab_store.py:354-356 | outside a session a rebuild installs the tables of the whole inventory, exactly when it can be indexed and, unless forced, the old index is usable |
| `FieldLabSession.FieldLabStore.RefreshIndex` | astropilot/field_lab_store.py:375-388 | a refresh leaves an index alone exactly below the threshold, and otherwise makes it that of the whole inventory or fails |
| `FieldLabSession.FieldLabStore.RunValues` | astropilot/field_lab_store.py:681-684 | index rows and tail rows of a run together are exactly the inventory's artifacts of that run |
| `FieldLabSession.FieldLabStore.ComparisonArtifacts` | astropilot/field_lab_store.py:677-707 | a completed query yields exactly the in-range comparison artifacts of the run, each once; it fails exactly on a hash collision or an oversized envelope |
| `FieldLabSession.FieldLabStore.ReportArtifacts` | astropilot/field_lab_collection.py:124-142 | the union of the queries of the runs a report meets is the full in-range scan of comparisons, each once; refused exactly above the limit, on a collision or an oversized envelope |
| `FieldLabHistory.FilesStay` | astropilot/field_lab_store.py:557-582 | in any run of saves, scopes, reports, rebuilds and refreshes, an artifact once in the inventory stays there unchanged |
| `FieldLabHistory.SavedStays` | astropilot/field_lab_store.py:557-582 | what a save reported as saved is in the inventory at every later moment of the run |
| `FieldLabHistory.StopsHold` | astropilot/field_lab_store.py:249-290 | while a scope stays open, no sequence of saves and nested scopes changes its stop or brings a count that was below it to it |
| `FieldLabHistory.RunHistory` | astropilot/field_lab_store.py:249-290 | any sequence of steps from any valid store is such a run: every save is answered by the inventory, the stop and the tail of its moment, every report is that of its moment, the tail of an open session stays within its limit, and nothing else moves |
| `FieldLabHistory.FillTail` | astropilot/field_lab_store.py:570-572 | from a new store, over an index of nothing, 16,384 saves fill the tail: the reported `remaining` is positive and the next new artifact is refused |
| `FieldLabSession.FieldLabStore.PeriodicReport` | astropilot/field_lab_collection.py:118-142 | inside or outside a session, a report over an index selects the full in-range scan of comparisons, and fails exactly where the query cannot open or the report is refused |
| `GuardianRenewal.JournalGrows` | astropilot/guardian_renewal_api.py:169-183 | journaling the result of a new key keeps every other key's result truthful and its effect unique |
| `GuardianRenewal.GuardianAdapter.TransitionExecution` | astropilot/guardian_renewal_api.py:222-225 | the execution service: an allowed transition may fail before or after it takes effect |
| `GuardianRenewal.GuardianAdapter.TrustedNow` | astropilot/guardian_renewal_api.py:107-114 | an accepted clock reading is not behind the receipt or any earlier reading and within the confirmation's life |
| `GuardianRenewal.GuardianAdapter.Eligible` | astropilot/guardian_renewal_api.py:141-158 | eligibility means owned, in progress and freshly attested as active; a loss revokes ownership |
| `GuardianRenewal.GuardianAdapter.WriteEvidence` | astropilot/guardian_session_store.py:60-88 | the check runs last: a replaced file means the check passed at that moment, a rejection leaves the old file |
| `GuardianRenewal.GuardianAdapter.Attest` | astropilot/guardian_session_lifecycle.py:39-54 | a failed publication always gives up ownership; a successful one leaves exactly the new attestation |
| `GuardianRenewal.GuardianAdapter.LifecycleStart` | astropilot/guardian_session_lifecycle.py:56-67 | start ends owned with an active attestation, or unowned; it transitions at most once and only when nothing was owned |
| `GuardianRenewal.GuardianAdapter.LifecycleRenew` | astropilot/guardian_session_lifecycle.py:69-82 | renewal never transitions; success keeps ownership and re-attests, any doubt ends ownership |
| `GuardianRenewal.GuardianAdapter.LifecycleStop` | astropilot/guardian_session_lifecycle.py:84-94 | ownership ends with the committed transition, before the attestation is written |
| `GuardianRenewal.GuardianAdapter.Settle` | astropilot/guardian_renewal_api.py:234-255 | every exception becomes a refusal whose reported commit is the known one; an uncertain transition of the owned execution revokes |
| `GuardianRenewal.GuardianAdapter.Replay` | astropilot/guardian_renewal_api.py:165-176 | a repeated key returns its journaled result, up to the replay mark and server time of a renewal or a clock error; a different fingerprint is a conflict |
| `GuardianRenewal.GuardianAdapter.CommandAdmitted` | astropilot/guardian_renewal_api.py:179-258 | an admitted command journals a truthful answer and makes at most one transition under its key |
| `GuardianRenewal.GuardianAdapter.Command` | astropilot/guardian_renewal_api.py:160-258 | only an admitted command acts; at most one transition per key, never of another execution than the owned one, and ownership survives a transition only when it certainly did not commit |
| `GuardianRenewal.GuardianAdapter.RunHistory` | astropilot/guardian_renewal_api.py:160-258 | over any history: truthful ownership and reports, one effect per key, a journal within capacity, and every later use of a key answered by what was first journaled |
| `GuardianRenewal.GuardianAdapter.Close` | astropilot/guardian_renewal_api.py:92-96 | closing ends ownership and nothing else |
| `ObservationLineage.RootPathIsUnique` | astropilot/field_observation_store.py:131-149 | an observation has at most one path to a root |
| `ObservationLineage.ClosedHasNoRoot` | astropilot/field_observation_store.py:291-306 | a set of observations closed under parents contains no path to a root: a cycle never ends |
| `ObservationLineage.ChainsAreLinear` | astropilot/field_observation_store.py:277-311 | two observations with one root lie on one chain, one an ancestor of the other |
| `ObservationLineage.TipExists` | astropilot/field_observation_store.py:112-129 | from every observation, corrections lead to a tip |
| `ObservationLineage.TipIsUnique` | astropilot/field_observation_store.py:112-129 | each chain has exactly one tip |
| `ObservationLineage.SaveKeepsLineage` | astropilot/field_observation_store.py:313-360 | adding an observation that passes the check keeps the store a disjoint union of finite, unbranched, single-decision chains |
| `ObservationLineage.FieldObservationStore.ValidateSupersession` | astropilot/field_observation_store.py:277-311 | on any store the check ends and passes exactly when the parent is present, of the same decision, rooted and childless; on a lineage it names the reason |
| `ObservationLineage.FieldObservationStore.Save` | astropilot/field_observation_store.py:313-360 | which observations are stored, adopted or refused, on any store; a lineage stays one |
| `ObservationLineage.FieldObservationStore.SaveAll` | astropilot/field_observation_store.py:313-360 | over any run of saves nothing stored changes and nothing unsaved appears |
| `ObservationLineage.ChildrenByParent` | astropilot/field_observation_store.py:92-101 | the table of children holds, for every parent, exactly the observations superseding it, in list order |
| `ObservationLineage.ValidateActiveLineage` | astropilot/field_observation_store.py:103-156 | on any store, even cyclic, the check ends and accepts exactly a childless observation with an intact, unbranched ancestor path; on a lineage exactly the tips |
| `ObservationLineage.FieldObservationStore.ActiveObservationLease` | astropilot/field_observation_store.py:158-176 | a lease is granted exactly for such an observation |
| `ObservationLineage.PagesCoverEverything` | astropilot/field_observation_store.py:227-256 | following `next_before` reads every observation once, newest first, for any page size |
| `ObservationLineage.ListPage` | astropilot/field_observation_store.py:227-256 | a page is the next slice of the newest-first listing after its anchor, or refused exactly for a bad limit, a missing anchor or too many documents |
| `AcceptanceLineage.AppendedIsWellformed` | decision/acceptance_lineage_persistence.py:582-672 | appending a fresh, preflighted pair keeps the document valid, and strictly valid exactly when the old document and the imaging fields are consistent |
| `AcceptanceLineage.AppendKeepsLineage` | astropilot/decision_acceptance_lineage_store.py:336-386 | selection, mission and request identities stay unique across all documents, and documents only grow |
| `AcceptanceLineage.DecisionAcceptanceStore.Write` | astropilot/decision_acceptance_lineage_store.py:156-184 | a document replaces its predecessor exactly when it validates strictly |
| `AcceptanceLineage.DecisionAcceptanceStore.CreateContext` | astropilot/decision_acceptance_lineage_store.py:186-201 | a context is created once; an equal one is accepted, a different one refused |
| `AcceptanceLineage.DecisionAcceptanceStore.CommitSelectionAndMission` | astropilot/decision_acceptance_lineage_store.py:222-386 | a recorded request returns its canonical pair and writes nothing; otherwise success exactly when the pair is already stored here or unused everywhere and consistent, and only then one append |
| `AcceptanceLineage.DecisionAcceptanceStore.CommitAll` | astropilot/decision_acceptance_lineage_store.py:222-386 | over any sequence of commits the identities stay unique and documents only grow |
| `AcceptanceLineage.DecisionAcceptanceStore.CommitThenRetry` | astropilot/decision_acceptance_lineage_store.py:247-281 | however many commits come in between, a retry with the same choice and a fresh selection identity gets the first attempt's answer if and only if the request was recorded before it or its pair was not stored yet |
| `AcceptanceLineage.DecisionAcceptanceStore.RetryOfAStoredPair` | astropilot/decision_acceptance_lineage_store.py:222-386 | a concrete client: a choice committed without a request identity, again with one, and retried, is stored twice and answered with the second pair |
| `AcceptanceLineage.DecisionAcceptanceStore.LoadAcceptance` | astropilot/decision_acceptance_lineage_store.py:407-442 | a recorded request loads the selection and mission stored together for it, and conflicts exactly when several documents record it |
| `SharedDirectory.Constant` | astropilot/decision_acceptance_lineage_store.py:122-128 | with fresh signatures per write, a signature seen twice means the file did not change in between |
| `AcceptanceHistory.Settled` | astropilot/decision_acceptance_lineage_store.py:129-150 | if the second scan finds the first scan's signatures, whatever was read in between belongs to them |
| `AcceptanceHistory.HistoryCache.ValidatedEntries` | astropilot/decision_acceptance_lineage_store.py:111-154 | whenever it returns, its entries are the fresh decoding of all files present at one moment of the call, under any interleaving of writes and deletions; a failed first scan keeps the cache, any later failure clears it |
| `AcceptanceHistory.SnapshotIsRemembered` | astropilot/decision_acceptance_lineage_store.py:60-70 | entries decoded between two equal scans cover the scans' signatures, and are entries of just those files if and only if there is one for each |
| `AcceptanceHistory.RememberedIsDecoded` | astropilot/decision_acceptance_lineage_store.py:43-70 | a remembered snapshot whose signatures are all found again is what the files hold, if and only if it has one entry for each signature |
| `AcceptanceHistory.DeletedFilesLinger` | astropilot/decision_acceptance_lineage_store.py:60-70 | a concrete history in which two scans agree although the entries read in between hold a file that has been deleted again |
| `AcceptanceHistory.HistoryCache.SessionReadSnapshot` | astropilot/decision_acceptance_lineage_store.py:43-70 | a new snapshot is always the fresh decoding of one moment of the call, a reused one if and only if it has as many entries as signatures, as it always has without deletions; a failed first scan keeps the session, any later failure leaves none |
| `HistoryReader.AgreeingPassesFreeze` | astropilot/outcome_history_reader.py:287-289 | two agreeing passes over names and signatures bracket a period in which every file with a signature stood still, and without deletions every other file too, but for those listed without one |
| `HistoryReader.SaidAtOnce` | astropilot/outcome_history_reader.py:183-295 | while all but one of the files that the reader speaks of stand still, everything it says was true at the moment when that one was read |
| `HistoryReader.OutcomeHistoryReader.Load` | astropilot/outcome_history_reader.py:196-252 | one document is collected as decoded, or a diagnostic explains why not; what is said of it holds at one moment unless it is seen to have changed, and nothing else is touched |
| `HistoryReader.OutcomeHistoryReader.Read` | astropilot/outcome_history_reader.py:183-295 | with deletions or without: a stable read that speaks of at most one file without a first-pass signature returns what the whole store held at one moment of the call; a complete one then, without deletions, leaves out only excluded or newer documents and resolves every reference |
| `TornHistory.TornRead` | astropilot/outcome_history_reader.py:162-181 | for any two documents without a signature: both passes agree, every digest is confirmed, and what the reader's own steps collect is reported stable and complete, although the store held it at no moment |
| `TornHistory.PromisedExactly` | astropilot/outcome_history_reader.py:162-181 | what the reader knows after its passes promises one consistent moment, over every store that it may be reading, if and only if at most one listed document has no signature |
| `Publication.CrashIsClean` | astropilot/field_lab_store.py:208-247 | in every crash state a final name is absent or holds one complete document, and a durable one is still there |
| `Publication.Directory.Link` | astropilot/field_lab_store.py:221-228 | linking is atomic and create-only: it takes a free name or none |
| `Publication.Directory.Publish` | astropilot/field_lab_store.py:208-247 | every state on the way is safe to crash in; a normal return is durable; true means this call's own file; a failed publication with rollback leaves the name as it was, unless its own unlink failed |
| `Publication.Directory.TakeBack` | astropilot/field_lab_store.py:236-242 | the rollback removes the name it linked and nothing else, or says that it could not |
| `Publication.Directory.RemoveTemporaries` | astropilot/durable_file_publication.py:55-86 | clean-up never removes, changes or un-publishes a final document |
| `Publication.Directory.Save` | astropilot/outcome_evaluation_store.py:64-106 | the create-only stores: adopt equal, refuse different, else publish; a normal return is durable, and an existing document is never replaced |
| `Publication.Directory.Store` | astropilot/decision_forecast_evidence_store.py:75-120 | the same protocol up to its clean-up, as the evidence store runs it |
| `PublicationRace.TurnKeepsRacing` | astropilot/field_lab_store.py:208-247 | the race invariant survives every step of either publisher |
| `PublicationRace.ExactlyOneWins` | astropilot/field_lab_store.py:208-247 | under every interleaving of two publishers of one name exactly one writes it, and the other adopts an equal document or is told of the conflict |
| `DurableState.StateFile.Replace` | astropilot/guardian_scheduler_state.py:108-129 | only success makes the new document the one that survives a crash; a failure may come before or after it became visible |
| `Cadences.SlotIsTheContainingTick` | astropilot/guardian_scheduler.py:38-42 | the slot of a time is the one aligned instant s with s <= t < s + interval |
| `Cadences.SlotIsIdempotent` | astropilot/guardian_scheduler.py:38-42 | the slot of a slot is itself |
| `Cadences.SlotIsMonotone` | astropilot/opportunity_alert_scheduler.py:32-34 | later times never have earlier slots |
| `GuardianSchedule.GuardianScheduler.Load` | astropilot/guardian_scheduler_state.py:79-106 | a document that can be read passes the checks: the loader never rejects what this store wrote, whatever crash came in between |
| `GuardianSchedule.GuardianScheduler.Claim` | astropilot/guardian_scheduler_state.py:131-143 | a granted claim is durable and later than every slot ever run |
| `GuardianSchedule.GuardianScheduler.Complete` | astropilot/guardian_scheduler_state.py:145-155 | only the reserved slot is completed, durably |
| `GuardianSchedule.GuardianScheduler.Poll` | astropilot/guardian_scheduler.py:82-113 | a poll runs at most the slot of its clock reading, after its reservation is durable; completed means recorded as completed |
| `GuardianSchedule.GuardianScheduler.RunHistory` | astropilot/guardian_scheduler.py:82-113 | over any polls, process deaths, machine crashes and clock steps, every slot is run at most once, in order, on the grid |
| `OpportunityAlertSchedule.OpportunityAlertScheduler.Load` | astropilot/opportunity_alert_scheduler.py:69-104 | the same for the alert state: a document that can be read passes the checks |
| `OpportunityAlertSchedule.OpportunityAlertScheduler.Poll` | astropilot/opportunity_alert_scheduler.py:136-168 | the same for alert cycles, whose failures are recorded as completed results; a cycle time outside the slot is refused |
| `OpportunityAlertSchedule.OpportunityAlertScheduler.RunHistory` | astropilot/opportunity_alert_scheduler.py:136-168 | over any history every slot is run at most once, in order |
| `AlertLedger.Accepts` | astropilot/opportunity_alert_ledger.py:58-78 | the loader accepts exactly documents whose family times are the latest emissions of their entries and no emission is after the watermark |
| `AlertLedger.ClaimKeepsConsistent` | astropilot/opportunity_alert_ledger.py:115-128 | what a claim writes is consistent again |
| `AlertLedger.GrantIsSpaced` | astropilot/opportunity_alert_ledger.py:118-120 | a granted key is new and its time is past every earlier grant of its family by the cooldown |
| `AlertLedger.AlertLedger.Load` | astropilot/opportunity_alert_ledger.py:48-80 | a document that can be read passes the strict loader: it never rejects what `claim` wrote |
| `AlertLedger.AlertLedger.Claim` | astropilot/opportunity_alert_ledger.py:104-131 | when a claim is granted, what it writes, and that the watermark never goes back |
| `AlertLedger.AlertLedger.RunHistory` | astropilot/opportunity_alert_ledger.py:104-131 | over any claims and crashes each key is granted at most once and grants of a family keep the later claim's cooldown |
| `PathOverlap.AboveIsPrefix` | astropilot/field_lab_paths.py:46-68 | an ancestor on the tree is, directory by directory, a prefix of the path |
| `PathOverlap.AncestryOf` | astropilot/field_lab_paths.py:26-43 | the chain lists the existing directories from the deepest to the root, each with the names below it |
| `PathOverlap.ApartForever` | astropilot/field_lab_paths.py:55-67 | paths that do not run together stay apart in every later tree |
| `PathOverlap.Overlaps` | astropilot/field_lab_paths.py:46-68 | exact when both directories exist; a negative answer holds in every future tree, whichever directories tell case apart |
| `ZipDirectory.EndRecordIsUnambiguous` | astropilot/profile_backup.py:249 | no field of an end record of at most 64 MiB and 5001 members can contain the end signature |
| `ZipDirectory.Walk` | astropilot/profile_backup.py:256-265 | the walk accepts exactly when the declared number of headers tiles the directory |
| `ZipDirectory.CentralDirectory` | astropilot/profile_backup.py:243-267 | on any bytes it ends and accepts exactly the sound directories, returning their offset |
| `ZipDirectory.ProducedIsSound` | astropilot/profile_backup.py:233-237 | the walk accepts every archive of the producer's layout and finds its members |
| `ZipMember.OutputIsBounded` | astropilot/profile_backup.py:290-302 | whatever the bytes and whatever the decoder answers, no call ever brings the output past the declared size by more than one byte |
| `ZipMember.GenuineMember` | astropilot/profile_backup.py:290-306 | the loops never give up on a genuine member and give out a prefix of it, all of it when it drains; it can only fail to drain on a last call that filled 64 KiB, so never below 64 KiB |
| `ZipMember.HoardingIsLawful` | astropilot/profile_backup.py:297-302 | a concrete lawful compressor and decoder, and every member of 64 KiB or more under it that does not drain: the input is taken in before the output is out, where the loop stops |
| `ZipMember.LocalReadBack` | astropilot/profile_backup.py:277-289 | a written member passes the header checks and its data is found |
| `ZipMember.ReadDeflated` | astropilot/profile_backup.py:290-302 | the nested loops end on any bytes, fail exactly when a call is refused or exceeds the size, and otherwise return all output of the calls they made |
| `ZipMember.ReadMember` | astropilot/profile_backup.py:270-307 | on any bytes a returned member has its declared length and checksum within the limit; a genuine one is returned, exactly when it drains |
| `BackupManifest.AllowedIsShortAndPlain` | astropilot/profile_backup.py:85-94 | an allowed name has at most 232 plain characters |
| `BackupManifest.ManifestFits` | astropilot/profile_backup.py:228-231 | the manifest of at most 5000 allowed files fits its 2 MiB limit |
| `BackupManifest.BytesAreRead` | astropilot/profile_backup.py:223-231 | the manifest text determines the manifest: its bytes are those of no other manifest and no other order |
| `ProfileBackup.ProducedHolds` | astropilot/profile_backup.py:220-240 | what a produced archive holds for its reader: the files that were packed if the manifest and all of them drain, and nothing otherwise |
| `ProfileBackup.InspectBackup` | astropilot/profile_backup.py:310-347 | on any bytes it succeeds exactly when they are an archive that holds files, and returns those: directory, member names, the parsed manifest, and each file as its own member decodes and its record says |
| `ProfileBackup.HoldsOnce` | astropilot/profile_backup.py:310-347 | an archive holds at most one table of files |
| `ProfileBackup.HeldIsAllowed` | astropilot/profile_backup.py:310-347 | whatever the bytes, the files they hold have allowed names and bounded sizes |
| `ProfileBackup.RoundTrip` | astropilot/profile_backup.py:220-347 | every created archive is accepted by the same version and gives back the same files, if and only if the manifest and every file drain; those below 64 KiB always do |
| `RefusedBackup.WitnessIsLawful` | astropilot/profile_backup.py:220-347 | a concrete library keeps every promise that the round trip asks of compression, hashing and JSON |
| `RefusedBackup.Refused` | astropilot/profile_backup.py:297-302 | with that library every profile document of 64 KiB or more is backed up and then refused by the version that made the backup |

## Left out

- Astronomy, weather, scoring, the night planner, HTTP routes, the launcher, notifications and task generators.
- The offline analyzer's matching, coverage and metrics, whose definitions are their own specification.
- JSON syntax, SHA-256, CRC-32 and deflate themselves: they are functions with the laws `Codec.Valid`, `Lawful` and
  `Inflates` state; hash collisions are allowed wherever the code handles them.
- Directory entries that are temporary, foreign, symbolic links or not regular files, permissions, and path checks.
- Field Lab: naming and choosing generations, version-1 generations inside sessions, the thread pools (results come in
  input order), progress reports, artifacts whose metadata cannot be derived, I/O faults inside a session (an error
  ends it), and the order in which generator errors of a build surface relative to each other.
- FieldLabCapacity.RoundedStop: takes the accuracy of one double-precision product as its premise.
- Guardian: the status query, request parsing, the writer lock file, and asynchronous interrupts (BaseException)
  inside a command. Adapter, lifecycle and attestation store are one class because the store calls back.
- Guardian scheduler without a state store, whose watermark lives only as long as its process.
- AcceptanceLineage: `latest_accepted_mission`, the plain lookups, and the snapshot's index by identity.
- Observation documents that do not decode: every reader that meets one raises.
- ObservationLineage.ListPage: leaves out the byte limits of the scan and the re-check of each file's identity.
- Publication.Directory.Publish: on Windows a directory cannot be synchronized, so durability is the POSIX claim; with
  other writers present none of them takes back a name it linked, as the writer lock guarantees for rollbacks.
- PublicationRace.ExactlyOneWins: the two publishers meet no I/O fault.
- AlertLedger.AlertLedger.Claim: a crash may undo a watermark whose write never returned successfully.
- PathOverlap.Overlaps: symbolic links are resolved beforehand and directories are not moved; two names of one
  directory are equal up to case folding, so volumes that also ignore Unicode normalization are not covered.
- ProfileBackup.CreateBackup: taking the snapshot, the domain validation of the documents and restoring.
- ProfileBackup.RoundTrip: version and creation time are text that JSON writes as it is, together at most 400,000
  characters, as the program's always are; the archive writer and the archive reader of the Python library are their
  documented layout.
- ProfileBackup.InspectBackup: "any bytes" are read by the documented layout (`ZipDirectory`); ZIP64 and Unicode-path
  extra fields, which the library's reader may let change sizes and names, are outside it.
- HistoryReader.OutcomeHistoryReader.Read: that a complete read leaves nothing out is claimed for writers that create
  and replace; where files are also deleted, only that everything returned was held at one moment. The fingerprint, a
  hash of the modelled manifest, is left out.
