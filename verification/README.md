# Verification of the Agentic Development Framework core

A Dafny model of the framework's most stateful code, kept close to its Rust and Python sources: one
module per source concern, imperative code as methods over fields, arrays and maps, pure code as
functions, and the guarantees as lemmas over all inputs, all runs or all interleavings.

`dafny verify dfyconfig.toml` checks the project.

## What is modelled

| files | subject |
|---|---|
| `json`, `sorting` | JSON values with symbolic, injective digests; total orders and sorting |
| `contract_merge*`, `contract_store*`, `contract_files*` | the clause-scoped three-way merge, the compare-and-swap store and its file version with locked writers |
| `health_records`, `contract_health*` | Contract Health: the definition of a clause's status, the two inverted indexes, the restricted digest map and the report |
| `health_index*` | the on-disk index of compacted records, over runs of edits, commits, losses and loads |
| `binder`, `observer`, `binding_records`, `draft_*` | the fail-closed binder, the draft validator and the soundness of one for the other |
| `activation_file`, `binary_install*` | binary installation and rollback by several processes, one file operation at a time |
| `framework_switch*` | Framework lock switches and rollbacks that may stop anywhere |
| `linked_packages` | the package walk over dependency graphs |
| `detector_benchmark` | two-pointer comparison, scores and the pass decision |
| `detection*` | typed-fact detection and its coverage reader |
| `execution_record*`, `execution_log*` | append-only attempt events and the log built from them |
| `framework_lock` | structural JSON difference and lock validation |
| `markdown_record*` | replacing and reading the payload of a Markdown record |

Conventions: a digest of a value is the constructor `Digest(value)`, so digests are injective and
never equal an ordinary string; values with floating-point numbers have no digest, as in
`canonical_digest`. Schema registries, decoders, the YAML printer and reader, release checks,
catalogs and the order of digest texts are parameters. Sets and maps stand for sorted vectors
and B-tree maps where only membership matters.

## Where the code falls short of its promise

Each of these has a lemma with a concrete input and names where the exact condition is stated.

- A new Contract is written to `<id>.md` or `<id>.yaml` even when that document holds another record,
  which is then lost (`ContractFilesLaws.OccupiedDocumentLosesRecord`, exact condition for one write in
  `WriteKeepsOtherRecordsIff` and `OtherStoredAfter`, its part over whole runs in
  `LostClauseWasOverwritten`).
- The store interface accepts a correction that gives a Result the ID of another Result
  (`ContractStoreLaws.CorrectionDuplicatesId`, exact condition in `ResultIdsStayDistinctIff`).  Its one
  caller under `src` derives the ID from a digest over Action and Context (src/submission.rs:139-172),
  so a submission does not reach this.
- Compacting a cached Result inserts a null `outcomes` into a payload without one, so the cached
  report can fail where the uncached one succeeds (`HealthIndexResidual.CachedReportFails`, exact
  condition in `HealthIndexLaws.CompactedReportableIff`).
- The draft validator looks at one candidate symbol per `resource.method`, so a valid draft can leave
  a gap for another caller (`DraftResidual.AcceptedYetUnbound`, exact condition in
  `DraftSoundness.OtherCallsAreBoundIff`).
- Switching to a reformatted copy of a lock that was active before is accepted, and from then on every
  switch and rollback is refused (`FrameworkSwitchRuns.ReformattedCopyLocksOut`, exact condition in
  `SwitchSticksIff`).
- A completion file cut short by a crash blocks its attempt and hides the events of its change
  (`ExecutionRecordLaws.TornCompletionHappens`, exact conditions in the contracts of
  `ExecutionRecord.ExecutionEventStore.Complete_` and `Events`).
- A title with a line that opens a block spoils a generated Markdown document
  (`MarkdownRecordLaws.SpoilingTitleIsNotReadBack`, exact condition in `NewDocumentRoundTrip`).

A side condition no real corpus reaches: `score` stays exact while 10000 times the matched count fits in
64 bits (`DetectorBenchmark.ScoreRange`).

## Model

| member | source | states |
|---|---|---|
| ContractMerge.ContractClauseMap | src/application.rs:706-725 | Indexing succeeds exactly on clause lists with distinct string IDs; the map finds each clause by its ID, and the error is that of the first offending clause. |
| ContractMerge.MergeExisting | src/application.rs:656-688 | The loop over the stored clauses keeps, replaces, drops or refuses each of them as the one-clause decision says, in order, and stops at the first refusal. |
| ContractMerge.AppendNew | src/application.rs:690-700 | Clauses with IDs that are not stored follow in patch order; stored IDs add nothing. |
| ContractMerge.MergeContractClauseUpdate | src/application.rs:611-704 | The imperative merge, error order included, is the specified merge of the stored record and the patch. |
| ContractMergeLaws.MergeIsPointwise | src/application.rs:648-703 | The merge succeeds exactly when the decision for every ID succeeds, and the result holds under each ID exactly what that decision says; IDs stay unique. |
| ContractMergeLaws.MergeOrder | src/application.rs:648-703 | Surviving clauses keep their order, additions follow in patch order. |
| ContractMergeLaws.DigestMergeIsThreeWay | src/application.rs:664-688 | For a client that sends the digest of the value it read, the decision succeeds exactly when the textbook three-way merge of that value, the client's value and the current value does, and agrees with it. |
| ContractMergeLaws.MergeRecordMeaning | src/application.rs:611-704 | Exact conditions for success of a clause update on whole records; metadata is untouched and every ID takes its decided value. |
| ContractMergeLaws.DisjointPatchesCommute | src/application.rs:648-703 | Two patches that touch disjoint IDs and each succeed alone also succeed after each other, and both orders give the same clause under every ID. |
| ContractMergeLaws.DisjointPatchesCommuteInOrder | src/application.rs:648-703 | When one of the two adds no clause, both orders give the same clause list, order included. |
| ContractMergeLaws.ReplayOnlyIfUnchanged | src/application.rs:648-703 | Replaying a successful patch succeeds exactly when the patch had changed nothing. |
| ContractStore.InMemoryProjectStore.AppendResultRecord | src/application.rs:430-448 | The new store state is the state machine's: a Result is appended unless its ID is taken or it is invalid, and a refusal changes nothing. |
| ContractStore.InMemoryProjectStore.ReplaceResultRecord | src/application.rs:450-477 | A Result is replaced in place by Action and Context only when the stored one has the expected ID. |
| ContractStore.InMemoryProjectStore.AddEvidenceRecord | src/application.rs:479-497 | Evidence is appended unless its ID is taken or it is invalid; a refusal changes nothing. |
| ContractStore.InMemoryProjectStore.UpsertDecisionRecord | src/application.rs:499-515 | A Decision is replaced only by a request that names the digest of the stored one. |
| ContractStore.InMemoryProjectStore.UpsertContractRecord | src/application.rs:517-533 | The whole-record compare-and-swap of a Contract: state and refusal are those of the state machine. |
| ContractStore.InMemoryProjectStore.UpsertClauses | src/application.rs:535-554 | The clause update: the stored record becomes the merge, and a refusal changes nothing. |
| ContractStore.InMemoryProjectStore.UpdateRepositoryValue | src/application.rs:556-563 | The repository observation is replaced and nothing else. |
| ContractStoreLaws.ContractAfter | src/application.rs:378-400 | What any request leaves under one Contract ID: the sent record, the merge, or the old record. |
| ContractStoreLaws.OverwriteIsNamed | src/application.rs:566-609 | A request that removes or replaces a clause names the digest of that clause value or of the whole record; only a Contract that belongs to a Change can also be replaced blindly, by a version that does too. |
| ContractStoreLaws.MetadataOverwriteIsNamed | src/application.rs:566-609 | The metadata of a Contract changes only through a request that names the stored record, or blindly for a Contract that belongs to a Change. |
| ContractStoreLaws.AddedOnlyWhenAbsent | src/application.rs:690-700 | The clause path adds a clause ID only when it is not stored. |
| ContractStoreLaws.BlindReplacementIff | src/application.rs:566-609 | Without an expected digest a stored Contract is replaced exactly when the stored and the sent version both belong to a Change. |
| ContractStoreLaws.LostClauseWasNamed | src/application.rs:566-609 | No lost updates over whole runs of the in-memory store: a clause value that was once stored and is gone later was overwritten, while it was current, by a request that named this very value or the record holding it; a Contract that was not shared at that moment may also have been replaced blindly. |
| ContractStoreLaws.LostDecisionWasNamed | src/application.rs:751-782 | Over whole runs a Decision goes only through a request that carried its digest while it was stored. |
| ContractStoreLaws.LostResultWasNamed | src/application.rs:450-477 | Over whole runs a Result goes only through a correction of the same Action and Context that gave its ID while it was stored. |
| ContractStoreLaws.EvidenceIsAppendOnly | src/application.rs:479-497 | Over whole runs Evidence is only ever appended, and no Evidence ID is stored twice. |
| ContractStoreLaws.ResultIdsStayDistinctIff | src/application.rs:450-477 | An accepted request keeps Result IDs distinct if and only if it is no correction that takes the ID of another Result, which nothing checks. |
| ContractStoreLaws.CorrectionDuplicatesId | src/application.rs:450-477 | Concretely: two Results and an accepted correction of the first that bears the ID of the second. |
| ContractStoreLaws.StaleEditIsRefused | src/application.rs:664-688 | A client whose copy of a clause is out of date cannot edit or delete it; the store stays as it is. |
| ContractStoreLaws.CommitIsThreeWayMerge | src/application.rs:611-704 | However old the client's copy, a committed clause update is the three-way merge of that copy, the edit and the current Contract, ID by ID. |
| ContractFiles.FileContractStore.RecordPath | src/filesystem_project.rs:545-561 | The scan loads every document of a root, in subdirectories too, and finds the only document of a record, none, or a duplicate; one document that cannot be read or parsed makes it fail. |
| ContractFiles.FileContractStore.UpsertContractFile | src/filesystem_project.rs:377-416 | The whole-record write leaves exactly the specified documents, under the preferred format for a new one, and reports exactly the specified error; a write that fails changes nothing. |
| ContractFiles.FileContractStore.UpsertContractClausesFile | src/filesystem_project.rs:418-451 | The same for the clause update. |
| ContractFiles.FileContractStore.UpsertDecisionFile | src/filesystem_project.rs:453-471 | The same for Decisions, which are replaced only by a request that carries the stored digest. |
| ContractFilesLaws.WriteKeepsOtherRecordsIff | src/filesystem_project.rs:377-451 | A successful write keeps every other record if and only if the document it is written to is not occupied by another record. |
| ContractFilesLaws.OtherStoredAfter | src/filesystem_project.rs:377-471 | After a successful write any other stored record is as it was, or gone if and only if the write created a new record in its document. |
| ContractFilesLaws.OccupiedDocumentLosesRecord | src/filesystem_project.rs:377-416 | A concrete loss: `a.md` holds record `b`, and creating record `a` without an expected digest destroys `b`. |
| ContractFilesLaws.ClauseOverwriteIsNamed | src/filesystem_project.rs:377-451 | On arbitrary documents a write that removes or replaces a stored clause names the clause or its record, replaces a Contract of a Change blindly, or creates another record in its document. |
| ContractFilesLaws.LostClauseWasOverwritten | src/filesystem_project.rs:377-451 | No lost updates on arbitrary documents, over every interleaving of locked writers with failures and crashes: a clause value that was stored at some moment and is gone at the end was overwritten, while it was current, in one of exactly those ways. |
| ContractFilesLaws.LostMetadataWasOverwritten | src/filesystem_project.rs:377-416 | The same for the metadata of a Contract, which goes only through whole-record writes: one that names the record, a blind one within a Change, or one that creates another record in its document. |
| ContractFilesLaws.LostDecisionWasOverwritten | src/filesystem_project.rs:453-471 | The same for a Decision: by a request that carried its digest, or by a new Decision that was given its document. |
| ContractFilesLaws.FilesRefineMemory | src/filesystem_project.rs:377-471 | On loadable documents named after their records, the file store accepts exactly the requests the in-memory store accepts when its registry also refuses IDs that make no file name, and holds the same Contracts and Decisions afterwards. |
| ContractFilesLaws.FileRunsRefineMemory | src/filesystem_project.rs:377-471 | The same over whole runs. |
| ContractFilesLaws.LockedStep | src/filesystem_project.rs:523-543 | While a writer is between loading and renaming, what it loaded is still current; every step keeps this, also a failure or a crash. |
| ContractFilesLaws.WritersAreSerializable | src/filesystem_project.rs:377-471 | Every interleaving of any number of locked writers, with failures and crashes anywhere, leaves the documents as the requests that reached their rename leave them when run one after another. |
| ContractFilesLaws.InterleavingsRefineMemory | src/filesystem_project.rs:377-471 | On such documents every interleaving leaves the records that the in-memory store leaves for the requests that reached their rename. |
| ContractHealth.VerificationOutcomesByEvidence | src/contract_health.rs:224-251 | The inverted index holds, under each Evidence ID, exactly the verifying outcomes that cite it. |
| ContractHealth.EvidenceByClause | src/contract_health.rs:203-222 | The inverted index holds, under each clause reference, exactly the Evidence that covers it. |
| ContractHealth.VerificationFreshnessRefs | src/contract_health.rs:253-278 | The collected references are exactly those that some outcome's manifest can consult. |
| ContractHealth.CurrentArtifactDigests | src/contract_health.rs:418-468 | The loops over all collections compute the restricted digest map, and fail where it fails. |
| ContractHealth.RestrictedMapAgrees | src/contract_health.rs:418-468 | The digest map restricted to the required references agrees with the full one on all of them, and exists exactly when their sources have digests. |
| ContractHealthReport.TallyClause | src/contract_health.rs:294-337 | The nested loops over Evidence and outcomes tally exactly the pairs the indexes deliver: result IDs, stale references and the three flags. |
| ContractHealthReport.IndexesGiveSamePairs | src/contract_health.rs:294-337 | The pairs met through the indexes are exactly the pairs of the definition, and their stale references under the restricted map are those under the full one. |
| ContractHealthReport.StatusAgrees | src/contract_health.rs:338-351 | The success, failure and history flags are the definition's quantifiers over all Evidence, Results and outcomes. |
| ContractHealthReport.BuildContractHealthReport | src/contract_health.rs:91-166 | The report is built exactly for reportable projects (unique IDs, valid needed records, digestible consulted records, distinct clause references) and says of every clause, and nothing else, what the brute-force definition says. |
| ContractHealthLaws.AppendKeepsDigest | src/contract_health.rs:418-468 | Adding records whose IDs nothing refers to changes no digest that is consulted. |
| ContractHealthLaws.AppendNeverLowersHealth | src/contract_health.rs:294-351 | Adding any Results and Evidence with fresh IDs never lowers a clause's status, and loses none of its Evidence or Results. |
| ContractHealthLaws.AppendTransitions | src/contract_health.rs:338-351 | Under such additions `verified` and `review` stay, and `failed` stays or becomes `verified`. |
| ContractHealthAppend.AppendedReportableIff | src/contract_health.rs:91-166 | For a project that can be reported on, the report can still be built after adding Results and Evidence if and only if their IDs are new strings, the added and the newly consulted records are valid where the report needs them, and what is newly consulted has a digest. |
| ContractHealthAppend.AppendedReport | src/contract_health.rs:91-166 | Between the reports before and after an addition of unreferenced IDs, the clauses are the same, none has a lower status, and each has at least its Evidence and Results. |
| HealthIndex.CompactOutcomesInPlace | src/filesystem_project.rs:960-979 | The in-place removal of repeated references turns the outcomes into their specified compacted form. |
| HealthIndex.IndexIsTransparent | src/filesystem_project.rs:636-716 | With a sound index every load returns exactly what decoding every file afresh returns, errors included, whatever the working tree. |
| HealthIndex.IndexedRecords.LoadIndexedHealthRecords | src/filesystem_project.rs:636-716 | The load is that of decoding afresh, and the index it writes back stays sound and holds exactly the loaded paths. |
| HealthIndexLaws.CompactionKeepsManifest | src/filesystem_project.rs:960-979 | Compaction keeps the freshness manifest in force for every outcome. |
| HealthIndexLaws.CompactClauseHealth | src/filesystem_project.rs:960-979 | Compaction changes nothing the definition of health says about any clause. |
| HealthIndexLaws.CompactedReportIsTheReport | src/filesystem_project.rs:595-634 | With the original digests at hand and IDs distinct across collections, compacted records describe the same report as the originals, and it can be built from them exactly when it can from the originals under a registry that judges Results in compacted form; if the registry judges both forms of every needed Result alike (`VerdictsAgree`), exactly when it can from the originals. |
| HealthIndexLaws.CompactedReportableIff | src/filesystem_project.rs:595-634 | Exactly when the cached report succeeds where the fresh one does: the Schema Registry accepts the compacted form of every Result the report needs. |
| HealthIndexLaws.ConsultedPlainResultBreaksCachedReport | src/filesystem_project.rs:960-979 | Where it does not: compaction inserts a null `outcomes` into a payload without one, so a registry that refuses it refuses the cached report once some manifest consults such a Result. |
| HealthIndexResidual.CachedReportFails | src/filesystem_project.rs:960-979 | Concretely: two Results and a registry for which the uncached report can be built and the cached one cannot. |
| HealthIndexLaws.ReportIsUnique | src/contract_health.rs:91-166 | A project has one report: two reports that describe it are equal. |
| HealthIndexRuns.RunsStaySound | src/filesystem_project.rs:636-716 | Over every run of edits, commits, lost or detectably damaged indexes and loads, each index entry holds what its source identity's bytes say. |
| HealthIndexRuns.LoadAfreshMeaning | src/filesystem_project.rs:636-716 | Decoding afresh succeeds exactly for indexable records with distinct IDs and delivers their compacted forms under their original digests. |
| HealthIndexRuns.HealthIndexIsTransparent | src/filesystem_project.rs:595-716 | Over every such run, for records that can be indexed with IDs distinct across collections (`WellIdentified`): the cached and compacted records describe the very report that decoding every file afresh uncompacted describes, and it can be built exactly when the other can under a registry that judges Results in compacted form, or under the same registry if that judges both forms alike (`VerdictsAgree`). |
| Binder.SymbolAliases | src/git_repository.rs:1105-1114 | The map holds, for each short name, exactly the set of qualified symbols observed under it. |
| Binder.ResolveKinds | src/git_repository.rs:997-1076 | The loop over fact kinds yields one fact per kind when all can be produced, otherwise one gap. |
| Binder.BindObservation | src/git_repository.rs:911-1076 | One observation yields its facts and no gap when everything it needs is declared, otherwise exactly one gap, of the kind its first missing requirement calls for, and no fact. |
| Observer.ObserveArtifact | src/git_repository.rs:190-262 | An artifact adds no gap exactly when it is fully covered; the facts added are those of its bindable observations. |
| Observer.Observe | src/git_repository.rs:108-304 | Observation succeeds exactly for distinct declarations; it records each artifact, in order, with the observations that were looked at; coverage is complete exactly when every artifact is fully covered and every source target is declared; the facts are those of the bindable observations. |
| Observer.CompleteMeansEveryBuiltInCallIsAFact | src/git_repository.rs:911-1076 | Under complete coverage every write and publish of every declared artifact yielded its fact. |
| Observer.ShortNameIsUnambiguous | src/git_repository.rs:919-948 | A binding reached through a short name applies only when all observations of that short name have one qualified symbol. |
| DraftValidation.ExactFields | src/binding_draft_validation.rs:916-941 | One issue per unexpected and per missing field, none for exactly the expected fields. |
| DraftValidation.ValidateRecordFields | src/binding_draft_validation.rs:826-877 | No issue is added exactly for a record with the right fields, an owner and an accepted authority. |
| DraftValidation.ValidateSymbols | src/binding_draft_validation.rs:408-455 | No issue is added exactly when every symbol binding was observed, is well-formed and names an operation; all given names are returned as bound. |
| DraftValidation.ValidateResources | src/binding_draft_validation.rs:457-526 | No issue is added exactly when every resource binding is good; the returned map holds exactly the usable logical bindings. |
| DraftValidation.ValidateMethods | src/binding_draft_validation.rs:528-647 | No issue is added exactly when every method binding was offered, its candidate's symbol and resource are bound and every kind is known, distinct and supported by the resource. |
| DraftValidation.ValidateRequired | src/binding_draft_validation.rs:649-696 | No issue is added exactly when each write or publish has its symbol and its resource's logical binding. |
| DraftValidation.ValidateOther | src/binding_draft_validation.rs:698-734 | No issue is added exactly when each other call on a bound resource is classified. |
| DraftValidation.ValidateUnused | src/binding_draft_validation.rs:736-824 | No issue is added exactly when every bound symbol and resource is used by a retained call or candidate. |
| DraftReport.Candidates | src/binding_draft_validation.rs:335-365 | The offered candidates: the last framework candidate of a key, otherwise the first other call with that key. |
| DraftReport.ValidateBindingArtifact | src/binding_draft_validation.rs:265-406 | No issue is added exactly for a good binding artifact. |
| DraftReport.ArtifactMap | src/binding_draft_validation.rs:879-914 | No issue is added exactly for an array of entries with distinct paths; the map holds the last entry of each path. |
| DraftReport.ValidateFreshness | src/binding_draft_validation.rs:196-263 | No issue is added exactly when digest, inventory and source digests are well-formed and equal the current observation. |
| DraftReport.Build | src/binding_draft_validation.rs:27-91 | The report is valid exactly when the whole draft is good; its issues are in order and each is listed once, and its counts are those of the distinct paths. |
| DraftSoundness.GoodBindingsParse | src/git_repository.rs:687-909 | Bindings the validator accepts are accepted by the binder's own parsers. |
| DraftSoundness.BuiltInCallsAreBound | src/binding_draft_validation.rs:649-696 | Under a draft without issues every write and publish is bound. |
| DraftSoundness.OtherCallsAreBoundIff | src/binding_draft_validation.rs:698-734 | Under a draft without issues another call on a bound resource is bound exactly when its own symbol resolves. |
| DraftSoundness.ValidDraftCoversArtifactIff | src/git_repository.rs:911-1103 | An artifact is fully covered under accepted bindings exactly when every other call on a bound resource has a symbol that resolves. |
| DraftSoundness.ValidDraftCoversInventory | src/binding_draft_validation.rs:27-91 | The same for every artifact of a draft whose report has no issue. |
| DraftResidual.AcceptedYetUnbound | src/binding_draft_validation.rs:335-365 | Concrete records for the residual case: two symbols call one method of a bound resource, one is bound, the validator accepts and the binder leaves a gap. |
| ActivationFile.ReadPublished | src/binary_install.rs:505-543 | Reading a published activation returns exactly the two tags written. |
| ActivationFile.ReadIsPublishable | src/binary_install.rs:505-543 | Whatever is read has valid tags, and publishing it again reads the same. |
| ActivationFile.LauncherStartsCurrent | src/binary_install.rs:421-429 | The first line the launcher reads is the current tag. |
| ActivationFile.PrintIsInjective | src/binary_install.rs:530-543 | Equal activation texts name equal tags. |
| BinaryInstall.InspectionReadsAssets | src/binary_install.rs:113-262 | Inspection depends on the eight release assets only. |
| BinaryInstall.InstallRoot.PublishActive | src/binary_install.rs:545-573 | Publishing replaces the activation file as a whole and leaves no temporary file; a taken temporary name fails without a change to it, and a directory sync that fails is reported after the change. |
| BinaryInstall.InstallRoot.Stage | src/binary_install.rs:304-319 | The copy loop fills a new staging directory with exactly the release assets of the candidate. |
| BinaryInstall.InstallRoot.AddRelease | src/binary_install.rs:297-333 | A new release directory is the inspected copy of the candidate's assets; the staging directory is gone in every case; a failed directory sync is reported with the release in place. |
| BinaryInstall.InstallRoot.WriteLauncher | src/binary_install.rs:412-456 | An unmanaged launcher is refused and kept, a current one is left alone, any other is replaced. |
| BinaryInstall.InstallRoot.Install | src/binary_install.rs:264-354 | Success exactly under the stated conditions; then exactly the release, the launcher and the activation are new, the old current tag is the previous one and reinstalling the active tag keeps the activation; an error changes the activation exactly when only the last directory sync failed, and then to the new one; installed releases never change. |
| BinaryInstall.InstallRoot.RollBack | src/binary_install.rs:357-388 | Success exactly with two different tags, a verified previous release and a directory sync that works; the two tags are swapped exactly when nothing but that sync fails, otherwise the activation is unchanged. |
| BinaryInstallSafety.OperationIsGood | src/binary_install.rs:264-388 | Every single file operation of an install or rollback, failing or not, keeps all releases and the safety of the activation, and changes the activation only by a published change. |
| BinaryInstallSafety.RunsAreSafe | src/binary_install.rs:264-388 | Over every interleaving of processes with failures and crashes after any operation: the activation names verified installed releases, two different ones; installed releases never change; and the activation is what the published changes in order make of the first one. |
| BinaryInstallSafety.LauncherStartsVerifiedRelease | src/binary_install.rs:264-388 | From an empty root, in every run, there is no activation file or it reads as different tags of verified installed releases. |
| BinaryInstallSafety.ChangesAreEnabled | src/binary_install.rs:337-347 | A change that takes effect activates an installed tag that was not current, or swaps two different tags. |
| BinaryInstallSafety.RollBackUndoes | src/binary_install.rs:337-388 | In every run, a rollback right after an update reactivates the tag before it, and two rollbacks in a row are the identity. |
| BinaryInstallSafety.OnlyHolderWrites | src/binary_install.rs:575-594 | Only the process that holds the lock changes the installation root. |
| BinaryInstallAlone.UndisturbedInstall | src/binary_install.rs:264-354 | An install that nothing disturbs, run operation by operation, ends within 33 operations, frees the lock and leaves exactly the disk that the method leaves. |
| BinaryInstallAlone.UndisturbedRollBack | src/binary_install.rs:357-388 | The same for a rollback, within six operations. |
| FrameworkSwitch.FrameworkLock.AtomicWrite | src/delivery.rs:837-872 | The target is replaced as a whole, and no temporary file stays behind. |
| FrameworkSwitch.FrameworkLock.Switch | src/delivery.rs:297-353 | Success exactly when the candidate is accepted and the active lock can be put aside; then the old text is backed up under its value and the candidate is active; a failed switch leaves the active lock and every backup unchanged. |
| FrameworkSwitch.FrameworkLock.RollBack | src/delivery.rs:356-376 | Only an existing file of the backup directory is restored, under the conditions of a switch; a failure leaves the active lock and every backup unchanged. |
| FrameworkSwitchRuns.WriteIsAtomic | src/delivery.rs:837-872 | After any prefix of an atomic write its target is as before or complete. |
| FrameworkSwitchRuns.ActiveLockIsWhole | src/delivery.rs:297-376 | Wherever a call stops, the active lock is the text from before or the whole candidate. |
| FrameworkSwitchRuns.EveryLockIsHeld | src/delivery.rs:297-376 | Over every run of calls that stop anywhere: each lock text that was ever active is still active or is held byte for byte in the backups, and no backup is ever overwritten. |
| FrameworkSwitchRuns.RollBackRestores | src/delivery.rs:356-376 | Rolling back to the receipt of a completed switch, whatever ran in between, restores the exact replaced text if and only if the rollback may proceed. |
| FrameworkSwitchRuns.WholeCall | src/delivery.rs:297-353 | A call that finds its temporary names free and whose operations all happen leaves what the method leaves. |
| FrameworkSwitchRuns.ReformattedLockSticks | src/delivery.rs:330-348 | A lock whose value is backed up under another text can never be replaced again: every later call is refused. |
| FrameworkSwitchRuns.SwitchSticksIff | src/delivery.rs:330-348 | An accepted switch leads there exactly when the candidate is another text for a value already backed up, or for the value it replaces. |
| FrameworkSwitchRuns.ReformattedCopyLocksOut | src/delivery.rs:330-348 | Concretely: a switch from a lock to a copy of it with another layout is accepted, and no later call on any run changes a file. |
| LinkedPackages.PushNew | scripts/collect-third-party-notices.py:208-211 | The inner loop enqueues exactly the dependencies that were not seen, each once. |
| LinkedPackages.Walk | scripts/collect-third-party-notices.py:201-211 | The work list terminates on every finite graph, cyclic ones included, pops each reachable node exactly once, and yields the pairs of exactly the reachable nodes other than the root; it fails exactly when such a node has no package. |
| LinkedPackages.LinkTarget | scripts/collect-third-party-notices.py:167-211 | One target: success exactly when its metadata resolves everything reachable; its pairs join those of earlier targets. |
| LinkedPackages.Linked | scripts/collect-third-party-notices.py:160-212 | The sorted, repetition-free list of exactly the name and version pairs that some target links. |
| DetectorBenchmark.Diff | src/detector_benchmark.rs:434-453 | The two-pointer loop on sorted lists yields the two multiset differences, sorted, and counts that add up. |
| DetectorBenchmark.Compare | src/detector_benchmark.rs:425-461 | Missing is expected minus detected, unexpected is detected minus expected, matched is the size of the intersection, and both counts are conserved. |
| DetectorBenchmark.ScoreRange | src/detector_benchmark.rs:476-482 | Scores lie between 0 and 10000; 10000 exactly when nothing is lacking and the 64-bit product is not cut. |
| DetectorBenchmark.MetricMeaning | src/detector_benchmark.rs:463-474 | Aggregate precision (recall) is 10000 exactly when no case has an unexpected (missing) item, unless the product is cut. |
| DetectorBenchmark.RunCase | src/detector_benchmark.rs:339-423 | A case passes exactly when it parses and each reviewed output equals the expected one as a multiset. |
| DetectorBenchmark.RunBenchmark | src/detector_benchmark.rs:271-336 | The run passes exactly when no case fails to parse and all four aggregate scores reach their minimum. |
| DetectorBenchmark.FullScoresMeanAllInOrder | src/detector_benchmark.rs:279-327 | With all minimum scores at 10000 the run passes exactly when every case is in order. |
| DetectorBenchmark.InOrderAlwaysPasses | src/detector_benchmark.rs:279-327 | A run whose cases are all in order passes under every valid choice of minimum scores. |
| DetectionCoverage.HasEqualNeighbours | src/detection.rs:247-253 | On a sorted list, comparing neighbours finds a pair exactly when some reference is repeated. |
| DetectionCoverage.ReadCoverage | src/detection.rs:211-314 | Coverage is accepted exactly when it is absent or has the four fields, distinct references and well-formed gaps, complete exactly without gaps; it is returned sorted. |
| DetectionCoverage.CoverageIgnoresOrder | src/detection.rs:211-314 | Acceptance and the result do not depend on the order of references and gaps. |
| DetectionCoverage.ObservedCoverageIsAccepted | src/git_repository.rs:287-292 | Every coverage that observation of distinct declarations produces is accepted, given non-empty parse messages. |
| DetectionCoverage.EmptyMessageIsRefused | src/detection.rs:272-283 | A gap with an empty reason makes coverage refused. |
| Detection.FingerprintIsInjective | src/detection.rs:99-106 | Two candidates share a fingerprint only if signal and bindings are equal. |
| Detection.AddContribution | src/detection.rs:107-114 | Entering one emitted signal keeps the map exact: one entry per candidate, holding the merged evidence of its facts. |
| Detection.DetectTypedFacts | src/detection.rs:80-174 | Detection succeeds exactly when coverage and every fact are accepted, and returns one candidate per logical candidate, in order, with its digests. |
| DetectionLaws.MergedMeaning | src/detection.rs:107-114 | Merged evidence is sorted and has exactly the elements of all lists; repetitions remain only in a lone list. |
| DetectionLaws.DetectionIgnoresOrder | src/detection.rs:80-174 | For every permutation of the facts and of coverage references and gaps, success and the whole report, digest included, agree. |
| DetectionLaws.CandidatesMeaning | src/detection.rs:117-145 | Candidates correspond one to one to the distinct signal and bindings pairs, strictly ordered, each with the union of the evidence of its facts. |
| ExecutionRecord.ExecutionEventStore.WriteNew | src/execution_record.rs:360-383 | A file is created once: an existing one is a conflict and never changed, an interrupted write leaves a file without an event. |
| ExecutionRecord.ExecutionEventStore.Begin_ | src/execution_record.rs:169-198 | A valid start is written under its own name exactly when that is free. |
| ExecutionRecord.ExecutionEventStore.Complete_ | src/execution_record.rs:200-230 | A completion of a started attempt is written once; repeating an equal one succeeds and says so, a different one fails without a change. |
| ExecutionRecord.ExecutionEventStore.Events | src/execution_record.rs:244-268 | The events of a change are those of its files, each once; one unreadable file makes the whole list fail. |
| ExecutionRecord.ExecutionEventStore.CompleteBound | src/execution_record.rs:232-242 | A completion that names a Result is refused without a change unless that Result belongs to the attempt's Action and Context. |
| ExecutionRecord.ValidateResultBinding | src/execution_record.rs:282-320 | Success exactly when the first Result file with the ID matches Action and Context and all files before it are readable. |
| ExecutionRecordLaws.EventsAreAppendOnly | src/execution_record.rs:169-242 | Over every run, interrupted writes included, each attempt has at most one start and one completion, neither ever altered, and only started attempts are completed. |
| ExecutionRecordLaws.CompletionIsSettled | src/execution_record.rs:200-230 | Once a completion is recorded, on every later run the same one is accepted without a change and no other is. |
| ExecutionRecordLaws.TornCompletionIsStuck | src/execution_record.rs:360-390 | A completion whose writing was interrupted can never be made up for, and hides the events of its change. |
| ExecutionRecordLaws.TornCompletionHappens | src/execution_record.rs:360-390 | Concretely: from an empty store, a start and an interrupted completion, after which no completion of the attempt is accepted on any run. |
| ExecutionRecordLaws.FinishMeaning | src/execution_record.rs:200-230 | An accepted completion is stored under the attempt; one that is not accepted changes nothing. |
| ExecutionLog.RunnerEntries | src/execution_log.rs:166-252 | Exactly one entry per started attempt, in ID order, made of its last start and its last completion. |
| ExecutionLog.SumKnown | src/execution_log.rs:274-279 | A total is known exactly when every value is, and is then the 64-bit sum. |
| ExecutionLog.TotalCost | src/execution_log.rs:281-287 | The total cost is known exactly when every entry reports a cost, and is then their sum. |
| ExecutionLog.BuildWithEvents | src/execution_log.rs:56-105 | The log is the sorted join of the entries of Results that no succeeded attempt names and the entries of the attempts; every total is known exactly when all entries report the value, and the counts are exact. |
| ExecutionLogLaws.AttemptsAreCountedOnce | src/execution_log.rs:166-252 | Over every run of the store, the log has exactly one entry for each started attempt, made of its own start and completion files. |
| ExecutionLogLaws.ResultEntriesMeaning | src/execution_log.rs:62-72 | Result entries are exactly those of self-measuring Results that no succeeded attempt names, one each. |
| FrameworkLocks.Differences | src/framework_lock.rs:175-203 | The list is exactly the set of differences of the two trees (missing, unexpected, different, with their key paths), and is empty exactly for equal trees. |
| FrameworkLocks.ValidateFrameworkLock | src/framework_lock.rs:63-102 | A lock is accepted exactly when it is the manifest of the runtime, or that manifest signed with a well-formed label and artifact block. |
| FrameworkLocks.AcceptsIff | src/framework_lock.rs:110-133 | Comparing the plain form of a lock with the expected manifest decides acceptance. |
| FrameworkLocks.AcceptedLocksAgree | src/framework_lock.rs:63-133 | Two accepted locks differ at most in schema version, release label and artifact block. |
| MarkdownRecord.SplitIsText | src/filesystem_project.rs:1320-1339 | Splitting a text into lines loses nothing. |
| MarkdownRecordLaws.BlocksMeaning | src/filesystem_project.rs:1320-1329 | The search finds the next opening line and the first closing line after it, and goes on behind that. |
| MarkdownRecordLaws.ReadsBackIff | src/filesystem_project.rs:1320-1339 | Fenced lines read back as the payload exactly when no line before opens a block of the kind and no payload line is a closing fence. |
| MarkdownRecordLaws.ReplaceRoundTrip | src/filesystem_project.rs:1292-1300 | Replacing the payload of a text with exactly one block keeps all text before and after, and reads back the new payload exactly when it has no closing fence line. |
| MarkdownRecordLaws.NewDocumentRoundTrip | src/filesystem_project.rs:1301-1311 | A generated document reads back exactly when its payload has no closing fence line and no title line after the first opens a block. |
| MarkdownRecordLaws.SpoilingTitleIsNotReadBack | src/filesystem_project.rs:1301-1311 | Concretely: for every kind, a title whose second line opens a block of that kind spoils the document. |
| MarkdownRecordLaws.RecordRoundTrip | src/filesystem_project.rs:1254-1314 | A record that prints without a closing fence line is read back from any document with one block of its kind, or from a new one with a one-line title. |

## Left out

- Text of error messages: errors are constructors; which error comes first is kept where a caller can see it.
- Digest, signature, YAML, JSON and Git implementations: digests are symbolic, YAML print and parse are parameters assumed to be inverse where a lemma says so, and Git's answers are part of the modelled tree.
- `kernel`, `rules`, `submission`, `record_storage`, `storage_io`, `schema`, `signal_catalog`: not part of this model; what they decide enters as a parameter.
- Symbolic links, path containment, permissions and the filesystem-root guard: single-branch checks.
- Power loss that undoes synced writes: a crash keeps every operation that happened, and what a half-written file holds is arbitrary.
- The Windows variants of launcher text and file replacement: the launcher is a script with a marker, replacement is one atomic operation.
- The text of Contract and Decision documents: a written record is taken to read back as itself, which `MarkdownRecordLaws.RecordRoundTrip` states for the text; names of temporary record files are taken to be free.
- An ID whose text is a digest: digests are kept apart from other strings, so such an ID counts as no string.
- The file store's Results and Evidence: they are single files created or replaced by name.
- Concurrent Framework lock switches: runs are sequential, as their guard is shared.
- Self-consistent changes to the health index from outside: damage is whatever the projection digest detects.
- ContractHealthReport.BuildContractHealthReport: the clause list, sorted by its unique references, is a map; no state is left out, only its order.
- Observer.Observe: facts are a set, and analyzed references and gaps are not sorted, because later readers do not depend on their order (`DetectionCoverage.CoverageIgnoresOrder`); path, language and digests of an artifact record are those of its declaration.
- Binder.BindObservation: some gap reasons are shortened; their kinds, references and non-emptiness are kept.
- ExecutionLog.TotalCost: costs are exact numbers, so the rounding of 64-bit floating-point sums is not captured.
- ExecutionLog.SumKnown: an overflowing 64-bit sum wraps, as in release builds; a checked build stops instead.
- DetectorBenchmark.RunBenchmark: reading the corpus, its digest and the order of case reports are left out; sums of list lengths are not bounded by the machine word.
- Detection.DetectTypedFacts: the fingerprint map is iterated in the order of the sorted candidates, which the code establishes by sorting afterwards.
- FrameworkLocks.Differences: paths are key sequences; joining them with dots is display.
- LinkedPackages.Linked: running cargo is a parameter, the metadata of each target or its failure.
- BinaryInstall.InstallRoot.Install: the method is one call by itself in which only names and directory syncs can fail; other failures, crashes and other processes are in the machine of `BinaryInstallSafety`.
- FrameworkSwitch.FrameworkLock.Switch: the verification of the lock against its installed Release is a parameter.
- The uncached `snapshot`, Markdown prose, text rendering, the command line, the MCP server, runners, language detectors and release scripts: display, process plumbing or foreign grammars.
