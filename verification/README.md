# Release platform verification

A Dafny model of the release platform's stateful core and proofs about it. Databases and
object stores are maps of rows and objects, a committed transaction is one atomic step, and a
crash is a step that never comes. Hashes, signatures and digests are given functions; where a
result needs them not to collide, it says so, and only about the values at hand.

| part | files | main results |
|---|---|---|
| Directory synchronisation | `OrganizationGraph`, `DirectoryModel`, `DirectorySync`, `DirectoryApply`, `DirectoryHierarchy`, `DirectoryPreview`, `DirectorySessions`, `DirectoryBatches`, `DirectoryExecutor`, `DirectoryHandler` | cycle search and propagation against walks in the graph; every completed run equals one declarative snapshot; preview counts are exactly what an apply then does; the hierarchy stays acyclic in every state; whoever loses access is logged out; the exact number of transactions a job takes |
| Directory reading | `ScimPaging`, `ScimProgress`, `DirectoryListing`, `DirectoryStaging`, `DirectoryMirror`, `DirectoryOutcome` | accepted pages tile both resources, and an honest directory is read to its end; one response per cursor with racing workers; fetching and applying an unchanging directory leaves every user, group and membership as its entries and the old tables say, with the exact disputes that leave a row alone |
| MFA secrets | `MfaSecrets`, `MfaSafety`, `MfaLifecycle`, `MfaLeases`, `MfaCollector` | no live reference names a deleted secret in any interleaving, exactly when confirmations wait at most 45 minutes and no commit is mistaken for a failure; leases exclude other collectors for exactly half a minute |
| Breach corpus | `CorpusLines`, `CorpusSpelling`, `CorpusMerge`, `CorpusRelease`, `CorpusVerify` | chunked external merge sort with a heap equals the sorted set union; built releases verify, with the exact condition for the manifest bound; a lookup finds exactly the digests that some line spells |
| Catalog | `CanonicalJson`, `CanonicalStrings`, `CanonicalGrammar`, `CanonicalMinimal`, `CanonicalCodec`, `CatalogVerify`, `CatalogRevocations`, `CatalogMeaning`, `CatalogWitness`, `Publication`, `PublicationVersions`, `PublicationService` | the parser accepts exactly a declarative grammar; parse and print undo each other, and no text of a value is shorter than its canonical one; `Verify` accepts exactly the bundles of five documents that are sealed, governed, in force, pinned and offer nothing revoked; which spellings of a revoked digest it catches; the current pointer only names catalogs stored byte for byte; versions of a channel are consecutive |
| Authentication state | `LocalAuth`, `Reauthentication`, `ReplayStore` | counters rise, recovery codes and challenges work once, requests that read stale data are refused, lockouts add up; the exact condition under which a replay store admits a context twice |
| Artifacts and audit | `Artifacts`, `ArtifactService`, `AuditChain` | content-addressed objects hash to their keys in every interleaving; the chain head determines the history, which is that of one product |

`Strings` holds the order of `sort.Strings` and listings and sizes of sets, `Wrappers` an option type. State machines are
proved over values (`Step`, `Run`, an invariant, and a theorem about every run). Code that
updates rows in loops is a class or a method whose contract ties the new state to those values.
Where a contract speaks through a function of the model, a reference definition in the system's own
terms says what that function means, and an equivalence for all inputs connects the two:
`DirectoryListing` and `DirectoryOutcome` for staging, conflicts and the snapshot, `ScimProgress` for
accepted pages, `CorpusSpelling` for lines and digests, `CanonicalGrammar`, `CanonicalStrings` and
`CanonicalMinimal` for canonical JSON, `CatalogMeaning` and `CatalogRevocations` for bundles,
`MfaLeases` and `MfaLifecycle` for secrets, `PublicationVersions` for versions.

Where the code and a promise about it differ, the code is kept, the failing input is given and the
exact condition is proved:

- `MfaSafety.SafeExactlyWhenSound`: collection is safe if and only if confirmations wait at most 45
  minutes and a begin whose commit reports an error never committed (`LateRunIsUnsafe`,
  `MistakenRunIsUnsafe`).
- `ReplayStore.AdmittedTwiceIff`: a context is admitted twice if and only if its entry lapses at a later
  reading of the clock while a claim with an older reading is still to come (`StaleReadingReadmits`);
  readings are taken before the lock, so a clock that only moves forward is not enough.
- `CatalogRevocations.RevokedManifestsRefusedIff`: every manifest revoked by digest is refused if and only
  if revocations and targets spell their digests the same way (`OtherSpellingPasses`).
- `DirectoryPreview.UnchangedIff`: a preview that counts nothing announces an apply that changes nothing,
  except for ended memberships, moved organisations and pending users that are disabled, which no count
  covers (`QuietPreviewCanHide`).
- `LocalAuth.CommitSpacingIff`: between commits a lock loses at most the longest wait of a request, or the
  longest lock if that is less, and no less than that can be promised (`LateCommitsAreClose`).
- `CorpusVerify.BuiltManifestIsValidIff`: the entry bound of the manifest check (`TwoBareSourcesFail`).
- `CorpusVerify.AcceptedIsCanonicalIff`: a corpus file may be accepted with one carriage return in place of
  its last line feed (`AcceptedWithoutBreak`).

## Model

| member | source | states |
|---|---|---|
| OrganizationGraph.CycleMembers | internal/iam/directory_sync_apply.go:1053-1093 | the report is ascending, holds only organisations on a closed walk of parents, hits every closed walk, and is exactly the organisations on cycles when each has one parent |
| OrganizationGraph.Visit | internal/iam/directory_sync_apply.go:1057-1077 | the recursive visit keeps the search invariant (stack is a walk, finished nodes are ranked, reports are witnessed by cycles), finishes its node and restores the stack |
| OrganizationGraph.Report | internal/iam/directory_sync_apply.go:1062-1070 | walking the stack down to the node found again adds exactly the stretch from there to the top |
| OrganizationGraph.Propagate | internal/iam/directory_sync_apply.go:949-998 | the unsafe set is exactly the organisations with a chain of parents into the conflicted ones, which is the least child-closed set; the new ones come back sorted |
| OrganizationGraph.ChildrenOf | internal/iam/directory_sync_apply.go:973-978 | the children map has the same edges, turned round |
| OrganizationGraph.OnOrBelowCycleIsUnsafe | internal/iam/directory_sync_apply.go:949-998 | a child-closed set that meets every cycle contains everything on or below a cycle |
| DirectorySync.SafeParent | internal/iam/directory_sync_apply.go:878-998 | an organisation without conflict has at most one staged parent, and that parent is staged and without conflict |
| DirectoryExecutor.PropagationIsConflict | internal/iam/directory_sync_apply.go:940-998 | whichever node of each cycle is reported, propagation ends at the declaratively defined conflicts |
| DirectoryExecutor.DiscoverOrganizationConflicts | internal/iam/directory_sync_apply.go:774-947 | queries, cycle search and propagation together find exactly the organisations that a chain of staged parents leads into trouble |
| DirectoryExecutor.BuildParents | internal/iam/directory_sync_apply.go:922-939 | the map built from the rows has exactly their edges |
| DirectoryExecutor.Executor.DiscoverUserConflicts | internal/iam/directory_sync_apply.go:774-876 | exactly the users in conflict; `DirectoryOutcome.ConflictMeansDispute` says which those are |
| DirectoryExecutor.Executor.DiscoverMembershipConflicts | internal/iam/directory_sync_apply.go:1000-1051 | exactly the pairs whose organisation or user is missing or in conflict are marked processed |
| DirectoryExecutor.Executor.PrepareSnapshot | internal/iam/directory_sync_apply.go:22-109 | conflicts recorded and marked, then the user phase or the end of a preview; the three counts are exactly the differences between the live rows and what a complete apply makes of them |
| DirectoryPreview.CountsArePredictions | internal/iam/directory_sync_apply.go:52-91 | the sums of the counting query are the rows that appear, the staged rows that change plus the memberships gained between present rows, and the active rows that are disabled |
| DirectoryPreview.PreviewPredictsApply | internal/iam/directory_sync_apply.go:52-91 | what a preview counts is what every completed apply of the same stage changes, whatever its batches, aborts and crashes |
| DirectoryPreview.QuietIffLooksSame | internal/iam/directory_sync_apply.go:52-91 | a preview counts nothing if and only if the apply adds no row, leaves every name, address and status looking as it does, and gains no membership |
| DirectoryPreview.UnchangedIff | internal/iam/directory_sync_apply.go:52-91 | the apply changes nothing but run markers if and only if the preview counts nothing and no membership ends, no organisation moves and no pending user is disabled |
| DirectoryPreview.QuietPreviewCanHide | internal/iam/directory_sync_apply.go:52-91 | a preview that counts nothing and whose apply removes a membership |
| DirectoryExecutor.Executor.ApplyUserRows | internal/iam/directory_sync_apply.go:135-264 | for every batch size a step of the run: a full batch of unprocessed users applied in order, or the next phase when none is left; sessions of exactly the users it disables are revoked |
| DirectoryExecutor.Executor.UpsertUser | internal/iam/directory_sync_apply.go:182-248 | a late mapping conflict records the conflict and skips the row, otherwise the row takes the staged values; either way it is processed |
| DirectoryExecutor.Executor.ApplyOrgRows | internal/iam/directory_sync_apply.go:266-354 | a full batch of upserts that leave parents alone, or the linking of all parents |
| DirectoryExecutor.Executor.LinkParents | internal/iam/directory_sync_apply.go:293-317 | only processed organisations without conflict change, and only their parent, to some present staged parent or none |
| DirectoryExecutor.Executor.ApplyMemberRows | internal/iam/directory_sync_apply.go:356-506 | a full batch of activated memberships with the sessions of exactly those users revoked, or the next phase; where all pending pairs resolve it commits exactly if this batch changes nothing or the guard accepts the tables it leaves, and otherwise changes nothing |
| DirectoryExecutor.Executor.FinalizeApply | internal/iam/directory_sync_apply.go:508-685 | commits exactly if nothing would change or the break-glass guard accepts the result; then what this source no longer lists is disabled or removed, sessions of exactly the affected users are revoked and the stage is dropped; a refusal changes nothing |
| DirectoryExecutor.Executor.AdvanceJob | internal/iam/directory_sync_executor.go:158-201 | a changed source is reported and nothing changes, a completed job is returned as it is, otherwise the step that was prepared commits exactly if the guard does not refuse its tables, and a refusal changes nothing |
| DirectorySessions.NobodyKeepsAStaleSession | internal/iam/directory_sync_apply.go:486-497 | over a whole run, whoever is disabled, joins or leaves an organisation, or stays in a disabled one has been logged out by some transaction |
| DirectoryHandler.Handle | internal/iam/directory_sync_handler.go:79-141 | whatever earlier workers did, a finished apply holds the snapshot of its start and a finished preview has changed nothing; the call ends early only for a job that already failed, a source that changed or tables that the guard refuses, and logs out whom it affects |
| DirectoryHandler.LimitSuffices | internal/iam/directory_sync_handler.go:79-141 | the limit a call needs is exactly the number of transactions its job still takes: it has finished after so many turns and not before |
| DirectoryHandler.NothingUnresolved | internal/iam/directory_sync_apply.go:397-403 | in no run, preview or apply, is a membership pending that does not resolve |
| DirectoryBatches.CommitCounts | internal/iam/directory_sync_executor.go:173-198 | every transaction of an executor with full batches lowers that number by exactly one |
| DirectoryBatches.BatchesRoundUp | internal/iam/directory_sync_apply.go:135-144 | the batches of a phase are its rows divided by the batch size, rounded up |
| DirectoryBatches.WholeJob | internal/iam/directory_sync_handler.go:79-141 | a whole job takes at most five phase changes and the batches of its staged users, organisations and memberships |
| DirectoryHandler.PendingMembersResolve | internal/iam/directory_sync_apply.go:397-403 | a membership that is still to be applied always resolves |
| DirectoryApply.CompletedRunIsSnapshot | internal/iam/directory_sync_apply.go:22-685 | for all batch sizes, aborts and crashes, a completed apply equals the declarative snapshot of its start |
| DirectoryApply.RunKeeps | internal/iam/directory_sync_apply.go:135-685 | every intermediate state is the start with exactly the processed safe rows applied |
| DirectoryApply.AdvanceKeeps | internal/iam/directory_sync_executor.go:173-198 | every phase step keeps that description |
| DirectoryApply.LinkedIsLinked | internal/iam/directory_sync_apply.go:293-308 | after linking, every safe organisation has exactly its staged parent |
| DirectoryApply.FinalizedIsSnapshot | internal/iam/directory_sync_apply.go:508-685 | finalising a fully processed job yields the snapshot |
| DirectoryApply.PreviewChangesNothing | internal/iam/directory_sync_apply.go:94-133 | a preview finds the same conflicts and leaves every live row alone |
| DirectoryApply.SnapshotKeepsForeignRows | internal/iam/directory_sync_apply.go:508-685 | rows of other sources, platform-owned memberships and conflicted rows keep every field |
| DirectoryApply.SnapshotOfOwnRows | internal/iam/directory_sync_apply.go:135-354 | safe staged rows carry their staged values, rows of this source that are not staged are disabled |
| DirectoryApply.SnapshotMemberships | internal/iam/directory_sync_apply.go:356-506 | a source-owned membership is active exactly when staged, except that a conflicted pair keeps its state |
| DirectoryHierarchy.HierarchyStaysAcyclic | internal/iam/directory_sync_apply.go:293-308 | if the live parent relation has no cycle before a run, no state of the run has one |
| DirectoryHierarchy.SnapshotAcyclic | internal/iam/directory_sync_apply.go:878-998 | the snapshot of an acyclic hierarchy is acyclic although conflicted and missing organisations keep old parents |
| DirectoryHierarchy.AdvanceDoesWork | internal/iam/directory_sync_executor.go:173-198 | every committed step strictly decreases phases left plus unprocessed rows |
| DirectoryHierarchy.CommitsAreBounded | internal/iam/directory_sync_handler.go:79-141 | a run commits at most five transactions plus one for each staged row |
| ScimPaging.ChainCovers | internal/iam/directory_adapter.go:241-301 | the page count of a cursor is the number of accepted pages and its start index continues them without gap or overlap; a complete chain has read both resources to their totals |
| ScimPaging.FetchCovers | internal/iam/directory_adapter.go:265-301 | one accepted page extends the coverage by exactly its entries, or completes it |
| ScimPaging.CursorsNeverRepeat | internal/iam/directory_adapter.go:271-300 | page counts strictly grow, so a cursor that was left never returns |
| ScimPaging.CompleteFetchIsDirectory | internal/iam/directory_adapter.go:231-302 | against an unchanging directory a complete chain reads all users and all groups, in order, once |
| ScimProgress.AcceptedIffContinues | internal/iam/directory_adapter.go:231-302 | after any pages a list response is accepted exactly if it continues them, from the next index on, with the announced total, entries of the right kind and no more than a page, and stays within the page and object limits |
| ScimProgress.HonestDirectoryIsFetched | internal/iam/directory_adapter.go:231-302 | for every page size a directory that follows the protocol is read to its end, if pages for all entries and room for all objects are allowed |
| ScimProgress.DecodeRefuses | internal/iam/directory_adapter.go:745-760 | a cursor is refused exactly if its numbers cannot be those of a chain, and otherwise decodes to itself |
| ScimPaging.PagingTerminates | internal/iam/directory_adapter.go:249-300 | accepted pages never exceed the limit nor the number of entries, an empty resource counting as one |
| DirectoryStaging.StagingJob.StagePage | internal/iam/directory_sync_executor.go:73-156 | a page is staged only at the job's current cursor; then the tables are the old ones with every item upserted and match the longer log, otherwise nothing changes and the outcome says why |
| DirectoryStaging.UpsertUsersStages | internal/iam/directory_sync_executor.go:95-106 | upserting the items one by one leaves one row per subject with its first values, counted as often as it occurs in the stream |
| DirectoryStaging.UpsertOrgsStages | internal/iam/directory_sync_executor.go:107-124 | likewise one row per group with its first name and its occurrences |
| DirectoryStaging.StageAfterMatches | internal/iam/directory_sync_executor.go:95-141 | tables that hold a stream of pages hold the longer stream after one more page: users, groups, memberships and parents |
| DirectoryStaging.RunKeepsJob | internal/iam/directory_sync_executor.go:73-156 | with any workers, retries and crashes, a job stands at the end of a chain of accepted pages, and until it finishes and drops its stage, the stage holds exactly that chain |
| DirectoryStaging.OneResponsePerCursor | internal/iam/directory_sync_executor.go:89-94 | a page is staged only if none was staged for its cursor, and a worker turned away from a live job was beaten by one that staged that cursor |
| DirectoryStaging.TerminalIsAbsorbing | internal/iam/directory_sync_executor.go:173-224 | a finished or failed job never changes again |
| DirectoryStaging.StageIsDirectory | internal/iam/directory_adapter.go:648-708 | against an unchanging directory the stage of a fetched, unfinished job is its listing: a row per user and group with the values of its first entry and the number of its entries, the pairs of groups with the users they name, and each group as the parent of the groups that it names |
| DirectoryStaging.StreamsAreListed | internal/iam/directory_adapter.go:648-708 | tables that hold what the entries contribute hold that listing |
| DirectoryListing.ListingIsUnique | internal/iam/directory_sync_executor.go:95-141 | a directory has one listing, so the stage does not depend on how it was read |
| DirectoryListing.MembersMean | internal/iam/directory_adapter.go:692-699 | a membership is contributed exactly if an entry of its group names its user |
| DirectoryListing.ParentsMean | internal/iam/directory_adapter.go:700-701 | a parent is contributed exactly if an entry of the parent names the child |
| DirectoryMirror.DirectoryIsMirrored | internal/iam/directory_sync_handler.go:79-141 | whatever the page size, racing fetchers, batches, aborts and crashes, fetching an unchanging directory and applying what was staged ends in the snapshot of the directory's listing |
| DirectoryMirror.PagingIsIrrelevant | internal/iam/directory_sync_handler.go:79-141 | two synchronisations of one directory over the same tables end alike |
| DirectoryOutcome.EveryEntryIsSettled | internal/iam/directory_sync_handler.go:79-141 | the same, entry by entry over the directory and the old tables: what becomes of every user, group, membership and foreign row, and nothing else appears |
| DirectoryOutcome.ConflictMeansDispute | internal/iam/directory_sync_apply.go:774-876 | a listed user is in conflict exactly if it is listed again, is listed as a group too, or shares its non-empty address or its name, up to case, with another listed user or another account in the tables |
| DirectoryOutcome.OrgConflictMeansDispute | internal/iam/directory_sync_apply.go:878-998 | a group is in conflict exactly if it or an ancestor is listed again, is listed as a user too, is named by two parents, is named without being listed, or is its own ancestor |
| DirectoryOutcome.UserIsSettled | internal/iam/directory_sync_apply.go:182-248 | a listed user in dispute keeps its row or absence, any other ends with exactly the listed values |
| DirectoryOutcome.GroupIsSettled | internal/iam/directory_sync_apply.go:266-354 | a listed group in dispute keeps its row or absence, any other ends enabled with the listed name and the group that names it as its parent |
| DirectoryOutcome.PairIsSettled | internal/iam/directory_sync_apply.go:356-506 | a membership of the source ends active exactly if the directory names it and both sides are undisputed, or it was active before |
| DirectoryOutcome.RestIsSettled | internal/iam/directory_sync_apply.go:508-622 | rows of the source that the directory does not list end disabled and otherwise unchanged, rows of other sources and of the platform stay |
| Strings.LessMeans | internal/catalog/canonicaljson.go:131-136 | the order of sorted keys, ids and digests: at the first difference one text ends or has the smaller character |
| Strings.SameNameMeansLower | internal/iam/directory_sync_apply.go:808-876 | two names compare equal exactly if they differ at most in the case of ASCII letters |
| MfaSafety.SafeExactlyWhenSound | internal/iam/mfa_gc.go:48-145 | no credential and no unexpired pending enrolment names a deleted secret in any interleaving, if and only if no confirmation waits longer than 45 minutes and no begin that committed is mistaken for a failure |
| MfaSafety.RunKeeps | internal/iam/mfa_gc.go:48-145 | whatever a collector may delete, now or after its lease ran out, is harmless in every reachable state |
| MfaSafety.ConfirmKeeps | internal/iam/mfa_management.go:174-229 | a confirmation within 45 minutes never revives a secret that is being collected, and rotation leaves the old one harmless |
| MfaSafety.InsertKeeps | internal/iam/mfa_postgres.go:104-142 | an enrolment inserted late is past its expiry before its secret can be gone |
| MfaSafety.ExpireKeeps | internal/iam/mfa_postgres.go:161-178 | expiring closes the enrolment and leaves a tombstone |
| MfaSafety.ReconcileKeeps | internal/iam/mfa_gc.go:119-145 | an orphan past the grace period is harmless however old the collector's clock value is |
| MfaSafety.LeaseKeeps | internal/iam/mfa_postgres.go:364-390 | leasing only ever covers harmless secrets, or cancels the tombstone of a live one |
| MfaSafety.BeginsKeeps | internal/iam/mfa_service.go:115-161 | the begin transaction, which first expires the user's pending enrolment, keeps the invariant |
| MfaSafety.LateRunIsUnsafe | internal/iam/local_auth.go:755-783 | a run with a longer wait, for every excess, in which an activation ends with a credential that names a deleted secret |
| MfaSafety.MistakenRunIsUnsafe | internal/iam/mfa_service.go:105-161 | a begin that committed but saw an error deletes the secret of its pending enrolment |
| MfaSafety.CompletedMeansGone | internal/iam/mfa_postgres.go:392-407 | a tombstone is only completed once its file is gone for good, whatever the waits and outcomes |
| MfaLifecycle.ConfirmationIsEntitled | internal/iam/mfa_management.go:174-229 | in every run a confirmation is by the user for whom the secret was created and enrolled, before the enrolment's expiry by its own reading of the clock, of the inserted version, and of a secret not queued for deletion |
| MfaLifecycle.ConfirmedOnce | internal/iam/mfa_postgres.go:144-159 | an enrolment is confirmed at most once |
| MfaLifecycle.InsertedOnce | internal/iam/mfa_postgres.go:104-142 | an enrolment is inserted once, by an open begin, for at most 15 minutes, while its secret is neither enrolled nor queued for deletion |
| MfaLifecycle.BeginExpiresOwn | internal/iam/mfa_service.go:115-161 | a begin expires only the pending enrolment of its own user and queues that secret for deletion; all other enrolments and queued secrets stay |
| MfaLifecycle.OldSecretIsQueued | internal/iam/mfa_management.go:174-229 | a confirmation moves only this user's credential, and queues the old secret exactly if it is a rotation |
| MfaLeases.TakeoverIffLapsed | internal/iam/mfa_postgres.go:364-390 | a second collector gets a leased secret exactly from half a minute after the first one's reading on |
| MfaLeases.LeaseExcludesOthers | internal/iam/mfa_postgres.go:364-390 | in every run, whoever finds a lease gets the unnamed secret exactly if the event that gave the lease is half a minute past and the tombstone is due |
| MfaLeases.NamedIsSpared | internal/iam/mfa_postgres.go:364-378 | a secret that a credential or an unexpired pending enrolment names loses its tombstone instead |
| MfaCollector.RoundRespectsLeases | internal/iam/mfa_postgres.go:331-390 | a round takes a tombstone exactly if its time has come, a lease on it has run out, fewer than 128 come before it, nothing names its secret and its deletion works; one whose lease still runs is left as it is |
| MfaCollector.RetryDelayDoubles | internal/iam/mfa_gc.go:147-155 | the delay is a power of two in minutes, one more for each attempt, and never more than 32 |
| MfaCollector.Collector.RunOnce | internal/iam/mfa_gc.go:48-117 | of the scanned files the unnamed ones gain a tombstone; then exactly the secrets whose due tombstone has fewer than 128 before it, and that nothing names at the reading of the clock when their turn comes, are deleted, completed and counted, save those whose deletion fails; every tombstone afterwards is stated: cancelled, completed, put off or untouched; nothing that is named in the end is deleted |
| MfaCollector.Collector.ListDue | internal/iam/mfa_postgres.go:331-362 | exactly the first 128 due tombstones, each at the position that the order by time and reference gives it |
| MfaCollector.Collector.CollectOne | internal/iam/mfa_gc.go:66-114 | a due, unnamed item is leased and then deleted and completed, or rescheduled; a named one loses its tombstone; anything else is left alone |
| MfaCollector.Collector.ReconcileOrphans | internal/iam/mfa_gc.go:119-145 | exactly the unnamed candidates gain a tombstone, existing ones are untouched |
| CorpusSpelling.NormalizeMeansSpelling | internal/breachcorpus/parser.go:68-86 | a line stands for a digest exactly if it spells it, each letter in either case, with nothing but blanks around it |
| CorpusSpelling.NormalizeMeansSkipped | internal/breachcorpus/parser.go:68-72 | a line is skipped exactly if it is blank or its first mark is a number sign |
| CorpusSpelling.RawLinesAreLines | internal/breachcorpus/parser.go:17-66 | the scanned lines are the stretches of the text between line feeds |
| CorpusSpelling.EntriesMeanSpelling | internal/breachcorpus/builder.go:217-264 | a source contributes a digest exactly if a line of its text spells it |
| CorpusSpelling.SourceIsReadIff | internal/breachcorpus/builder.go:217-264 | a source is read exactly if every line of its text has at most 4096 bytes and is skipped or spells a digest |
| CorpusLines.DigestsMeanLines | internal/breachcorpus/parser.go:68-86 | a digest is listed exactly when some line normalises to it |
| CorpusLines.SourceTakesSpace | internal/breachcorpus/builder.go:217-243 | a source has at least 41 bytes per digest, less one if its last line feed is missing |
| CorpusLines.ScanText | internal/breachcorpus/merge.go:140-148 | digests written one per line scan back to themselves |
| CorpusMerge.WriteSortedRun | internal/breachcorpus/merge.go:16-50 | a run is the strictly ascending list of exactly the chunk's entries |
| CorpusMerge.Init | internal/breachcorpus/merge.go:121-121 | a heap of the same cursors |
| CorpusMerge.Pop | internal/breachcorpus/merge.go:85-90 | removes a cursor that no other comes before and leaves a heap of the rest |
| CorpusMerge.Push | internal/breachcorpus/merge.go:83-83 | a heap with exactly one more cursor |
| CorpusMerge.MergeRuns | internal/breachcorpus/merge.go:92-182 | succeeds exactly when the union of the runs holds digests only and fits the limits; then writes its strictly ascending listing with SHA-1, SHA-256, unique and duplicate counts and its size |
| CorpusMerge.Merge | internal/breachcorpus/merge.go:134-169 | the heap loop ends with the full listing, or stops only when the listing would exceed the limit or holds a wrong length |
| CorpusRelease.Builder.Consume | internal/breachcorpus/builder.go:71-100 | runs and open chunk always hold exactly what was consumed, for every chunk limit |
| CorpusRelease.Builder.ReadSource | internal/breachcorpus/builder.go:217-264 | consumes exactly the source's digests in order, or fails on a long or malformed line |
| CorpusRelease.Preflight | internal/breachcorpus/builder.go:201-215 | the total of all sources, refused when one is empty or the total is too large |
| CorpusRelease.SortAscends | internal/breachcorpus/builder.go:186-199 | sources with distinct ids end in strictly ascending order |
| CorpusRelease.Build | internal/breachcorpus/builder.go:24-184 | for every chunk limit and source order, succeeds exactly on buildable inputs and yields the ascending listing of all normalised digests with its manifest |
| CorpusVerify.VerifyCorpus | internal/breachcorpus/verifier.go:244-287 | accepts exactly the texts whose scanned lines are strictly ascending digests that account for every byte, and loads their set and counts |
| CorpusVerify.CheckManifest | internal/breachcorpus/verifier.go:200-242 | accepts exactly the manifests with consistent counts, ascending sources and at most one entry per 41 bytes |
| CorpusVerify.BuiltCorpusVerifies | internal/breachcorpus/verifier.go:244-287 | what a build writes is accepted with the manifest's counts, bytes = 41 SHA-1 + 65 SHA-256, and the set of all source digests |
| CorpusVerify.BuiltManifestIsValidIff | internal/breachcorpus/verifier.go:239-241 | a built manifest passes if and only if the sources fall at most one byte short of 41 per digest |
| CorpusVerify.BuiltReleaseIsValid | internal/breachcorpus/verifier.go:200-287 | with at most one source lacking its final line feed, a build yields a valid release |
| CorpusVerify.TwoBareSourcesFail | internal/breachcorpus/verifier.go:239-241 | two sources that are one bare SHA-1 digest each can be built but never pass the manifest check |
| CorpusVerify.AcceptedIsCanonicalIff | internal/breachcorpus/verifier.go:254-280 | an accepted text is the canonical text of its lines if and only if it ends with a line feed |
| CorpusVerify.AcceptedWithoutBreak | internal/breachcorpus/verifier.go:254-280 | two digests joined by carriage return and line feed, without a final line feed, are accepted |
| CorpusVerify.ParseCorpus | internal/breachcorpus/parser.go:17-66 | the lookup sets of one source with unique and duplicate counts, refused when a line is bad or nothing is listed |
| CorpusVerify.LookupAgreesWithScan | internal/breachcorpus/parser.go:88-102 | a lookup in the verified release finds a digest exactly if a line of a source's text spells it |
| CanonicalGrammar.ParsesTheGrammar | internal/catalog/canonicaljson.go:45-127 | a text parses as a value exactly if it denotes it by the strict grammar: literals, integers, strings, arrays, objects without repeated keys, blanks between the parts and nothing after them |
| CanonicalStrings.StringsAreSpelled | internal/catalog/canonicaljson.go:45-127 | a string is read exactly as spelled: plain, by a one-letter escape, by four hexadecimal digits or a surrogate pair in either case, an unpaired surrogate as the replacement character |
| CanonicalMinimal.CanonicalIsShortest | internal/catalog/canonicaljson.go:129-207 | of all texts that parse as a value, whatever their blanks, escapes and order of members, none is shorter than its canonical text |
| CanonicalMinimal.EscapedIsSpelled | internal/catalog/canonicaljson.go:178-207 | the canonical spelling of a character is one that reads back as it, with lower-case digits |
| CanonicalMinimal.ShortestChar | internal/catalog/canonicaljson.go:178-207 | no spelling of a character is shorter than the canonical one |
| CanonicalJson.ReadsBack | internal/catalog/canonicaljson.go:61-207 | parsing the canonical text of any value in front of any legal continuation returns the value and the continuation |
| CanonicalJson.MembersReadBack | internal/catalog/canonicaljson.go:69-97 | members are read back in any order, and refused as soon as a key repeats |
| CanonicalJson.CharsReadBack | internal/catalog/canonicaljson.go:178-207 | every string survives escaping and unescaping |
| CanonicalJson.ParseNumber | internal/catalog/canonicaljson.go:111-116 | only integers without leading zero, fraction, exponent or minus zero are accepted |
| CanonicalJson.ParsedIsValid | internal/catalog/canonicaljson.go:61-127 | every parsed value can be printed |
| CanonicalJson.CanonicalIsIdempotent | internal/catalog/canonicaljson.go:17-43 | canonical text is its own canonical form and keeps the value |
| CanonicalJson.CanonicalIsInjective | internal/catalog/canonicaljson.go:17-43 | two texts have the same canonical form exactly when they denote the same value |
| CanonicalJson.RepeatedKeyIsRefused | internal/catalog/canonicaljson.go:80-82 | an object text with a repeated key is refused wherever it repeats |
| CanonicalJson.MemberOrderIsIrrelevant | internal/catalog/canonicaljson.go:131-136 | any order of the members has the same canonical form |
| CanonicalCodec.EncodeValue | internal/catalog/canonicaljson.go:129-176 | what the recursive printer appends is the canonical text |
| CanonicalCodec.EncodeString | internal/catalog/canonicaljson.go:178-207 | what the loop appends is the quoted, escaped string |
| CanonicalCodec.Decoder.Value | internal/catalog/canonicaljson.go:61-127 | succeeds on exactly the texts of the grammar, with its value and what is left |
| CanonicalCodec.Canonicalize | internal/catalog/canonicaljson.go:17-60 | the canonical form, or nothing if the text is refused or anything follows it |
| CatalogVerify.Verify | internal/catalog/verifier.go:24-81 | accepts exactly the bundles whose five documents parse, are of their role, unexpired and signed to the threshold, are bound by digest and version, and offer nothing that a revocation names in the same spelling |
| CatalogMeaning.AcceptedMeans | internal/catalog/verifier.go:24-81 | a bundle is accepted exactly if there are five documents, each put together from a signed part and its signatures, that the root governs, that are in force, that pin each other, and that offer proper targets of which nothing is revoked |
| CatalogMeaning.EnvelopeMeans | internal/catalog/verifier.go:83-122 | a text is an envelope exactly if it parses as the object of a signed part and a non-empty list of key ids with signatures, and nothing else |
| CatalogMeaning.RootMeans | internal/catalog/verifier.go:124-190 | a root is read exactly if it lists proper Ed25519 keys and gives all five roles to distinct keys of its own with a threshold they can reach |
| CatalogMeaning.InForceMeans | internal/catalog/verifier.go:24-69 | a document passes exactly if it is of its role, has a positive version, expires later, and at least the threshold of different keys of its role signed its canonical text |
| CatalogMeaning.PinsVersionMeans | internal/catalog/verifier.go:224-244 | a binding holds exactly if the entry of that name has the document's version and names the digest of its canonical text |
| CatalogMeaning.TargetMeans | internal/catalog/verifier.go:253-303 | a target is complete exactly if its custom part has all ten members, five digests among them, a release id, and the digests of its notes and compatibility |
| CatalogMeaning.DigestsMean | internal/catalog/verifier.go:398-405 | two digests are equal exactly if both name the same 64 characters up to case, with or without the name of the hash |
| CatalogVerify.ParseEnvelope | internal/catalog/verifier.go:83-122 | the envelope of a document with the canonical texts its signatures and digests are about |
| CatalogVerify.VerifySignatures | internal/catalog/verifier.go:192-222 | accepts exactly when at least the threshold of distinct root-listed keys of the role signed the canonical text |
| CatalogVerify.RepeatedSignatureCountsOnce | internal/catalog/verifier.go:202-217 | signing again with a key that already signed adds no signer |
| CatalogVerify.CheckBinding | internal/catalog/verifier.go:224-244 | accepts exactly a matching version and the digest of the document's canonical envelope |
| CatalogVerify.VerifyTargets | internal/catalog/verifier.go:253-303 | accepts exactly complete targets with matching digests, and lists all of them |
| CatalogVerify.VerifyRevocations | internal/catalog/verifier.go:305-354 | accepts exactly when no signing key, target name, release, manifest or release key is named by a revocation in the same spelling |
| CatalogRevocations.RevocationsMean | internal/catalog/verifier.go:299-354 | over the members of the documents: the check passes exactly if no item of the list has a signing key, a target's name or release id, its manifest digest or its release key as the member that revokes it |
| CatalogRevocations.AcceptedIsUnrevoked | internal/catalog/verifier.go:24-81 | nothing that an accepted bundle offers or is signed with is revoked |
| CatalogRevocations.OtherSpellingPasses | internal/catalog/verifier.go:324-346 | for every digest, a target passes although its manifest is revoked under the other spelling |
| CatalogRevocations.RevokedManifestsRefusedIff | internal/catalog/verifier.go:305-354 | every manifest revoked up to its prefix is refused, for lists of the given spellings, if and only if revocations and targets all use one spelling |
| CatalogRevocations.RevocationIsUnbound | internal/catalog/verifier.go:24-81 | an accepted bundle stays accepted with another revocation document exactly when that document parses, is of its role, signed and unexpired, and revokes nothing offered |
| CatalogWitness.BundleIsAccepted | internal/catalog/verifier.go:24-81 | for every hash with lower-case hexadecimal digests and every working key pair, a bundle that passes every check, whatever other releases it revokes |
| CatalogWitness.SameTimestampOtherRevocations | internal/catalog/verifier.go:70-81 | for every such hash and key pair, two accepted bundles with one timestamp and different revocations: the timestamp does not bind them |
| CatalogVerify.TimestampDeterminesBundle | internal/catalog/verifier.go:70-75 | two accepted bundles with the same timestamp have the same canonical snapshot and targets, as long as digests do not collide on them |
| Publication.CurrentIsStored | internal/catalog/publication_service.go:274-347 | in every interleaving of workers, crashes and retries the current pointer names a record of its channel whose five objects are the committed envelopes, byte for byte and without any assumption on the hash |
| Publication.StoredObjectsVerify | internal/catalog/publication_service.go:461-516 | every object in the store, of any record, is its committed envelope, so verifying a stored object never fails |
| Publication.RecordsAreOrdered | internal/catalog/postgres_repository.go:26-57 | one attempt commits at most one record, versions of a channel strictly rise and its root never falls |
| PublicationVersions.VersionsAreConsecutive | internal/catalog/postgres_repository.go:26-57 | in every reachable state the k-th record of a channel has version k in every role but the root |
| PublicationVersions.ReservedIffRootIsCurrent | internal/catalog/postgres_repository.go:26-57 | versions are reserved exactly for a named channel and a root that is not older than any record's, and are then the next number and that root |
| Publication.RunKeeps | internal/catalog/publication_service.go:114-175 | the invariant behind both holds in every reachable state |
| PublicationService.Service.Create | internal/catalog/publication_service.go:378-439 | reserves and commits exactly when the root is not older and the attempt has no record yet; then the record, the order of records and the channel's counters change and nothing else |
| PublicationService.Service.PersistRole | internal/catalog/publication_service.go:461-496 | always ends with the committed envelope in place and the role verified |
| PublicationService.Service.Check | internal/catalog/publication_service.go:498-516 | succeeds exactly when size and digest of the stored object match |
| PublicationService.Service.Publish | internal/catalog/publication_service.go:114-175 | a pending attempt ends with all five objects stored, the pointer switched and the attempt succeeded; a retry of a succeeded one changes nothing and succeeds exactly if the pointer still names its record; any other is refused |
| LocalAuth.CheckStages | internal/iam/local_auth.go:68-81 | accepts exactly one to five stages within bounds and strictly rising in both columns |
| LocalAuth.StageBounds | internal/iam/local_auth.go:68-81 | a stage takes 3 to 50 attempts and lasts a minute to a day |
| LocalAuth.StaleRequestsAreRefused | internal/iam/local_auth.go:421-431 | in every run, a request that read the account before an activation, rotation, regeneration or change of status, or before another request used a TOTP, is refused whatever it carries |
| LocalAuth.RacingGuessesAreRefused | internal/iam/local_auth.go:421-431 | likewise one that read it before a counted failure, unless failures were cleared since |
| LocalAuth.GrantedOnWhatWasRead | internal/iam/local_auth.go:421-431 | a request is let in only on an account that is, but for its recovery codes, the one it read |
| LocalAuth.NobodySkipsMfa | internal/iam/local_auth.go:317-371 | an enrolled account, an administrator or an account of a kind that must use MFA gets in only enrolled, with a newer TOTP or an unused code |
| LocalAuth.LockUntil | internal/iam/local_auth.go:667-674 | the clock value plus the duration of the highest stage reached, or no lock |
| LocalAuth.StageIsHighest | internal/iam/local_auth.go:667-674 | that stage is reached and no reached stage is longer |
| LocalAuth.AcceptedCountersRise | internal/iam/local_auth.go:242-371 | across login, reauthentication, activation and rotation every accepted counter exceeds all earlier ones |
| LocalAuth.CodesAreAcceptedOnce | internal/iam/mfa_postgres.go:253-265 | a stored recovery code is accepted at most once |
| LocalAuth.ReplacedCodesAreRefused | internal/iam/mfa_postgres.go:180-203 | after its generation is replaced no code of it is accepted |
| LocalAuth.ReplaceCodes | internal/iam/mfa_postgres.go:180-203 | one to 32 distinct lower-case SHA-256 digests become exactly the unused codes of the generation, anything else is refused |
| LocalAuth.LockoutAddsUp | internal/iam/local_auth.go:481-506 | while nothing succeeds, a counted failure reads its clock no earlier than the first one at a stage plus all durations imposed since, whatever the requests raced on |
| LocalAuth.CommitSpacingIff | internal/iam/local_auth.go:465-506 | with requests that wait at most a given time, commits of counted failures come at most so much earlier than the lock allows, if and only if that is at least the wait, or the longest lock if that is less |
| LocalAuth.LateCommitsAreClose | internal/iam/local_auth.go:465-506 | for every smaller slack a run whose commits are closer together |
| LocalAuth.AccountRow.LogIn | internal/iam/local_auth.go:465-543 | lets in exactly an eligible request with the right password, an account unchanged since it was read, and exactly one unused factor if enrolled or none if it need not use one; the account afterwards is a step of the runs |
| LocalAuth.AccountRow.VerifyLoginFactors | internal/iam/local_auth.go:317-371 | the branches decide exactly that; a request counts as failed exactly if it is eligible and refused, and a recovery code is used up exactly if it is what lets the request in |
| LocalAuth.AccountRow.Confirm | internal/iam/local_auth.go:545-596 | likewise for reauthentication, where an enrolled account needs an unused TOTP and recovery codes do not count |
| LocalAuth.AccountRow.VerifyLocalFactors | internal/iam/local_auth.go:242-265 | the branches decide exactly that |
| LocalAuth.AccountRow.SaveFailure | internal/iam/local_auth_postgres.go:297-303 | one more failure, and the lock of the highest stage it reaches |
| LocalAuth.AccountRow.SaveSuccess | internal/iam/local_auth_postgres.go:305-319 | failures and lock cleared, the counter never lowered |
| LocalAuth.AccountRow.Consume | internal/iam/mfa_postgres.go:253-265 | succeeds exactly on an unused stored code, which is then used |
| LocalAuth.AccountRow.ConfirmRotation | internal/iam/mfa_management.go:174-213 | a counter that does not exceed the last one changes nothing; otherwise secret, counter and codes change together |
| LocalAuth.AccountRow.ActivateAccount | internal/iam/local_auth.go:760-815 | of a pending account, a counter that exceeds the last one and new codes change password, secret, counter and codes together and clear failures and lock; otherwise nothing changes |
| LocalAuth.AccountRow.ActivateWithoutEnrolment | internal/iam/local_auth.go:786-815 | of a pending account that need not use MFA: password set, failures and lock cleared, no longer enrolled, while an earlier secret, counter and codes stay |
| LocalAuth.AccountRow.RegenerateCodes | internal/iam/mfa_management.go:243-308 | the codes are replaced and the version rises, or nothing changes |
| Reauthentication.AuthorizationIsEarned | internal/iam/reauthentication.go:304-322 | an authorisation follows a confirmed completion of the same challenge by the same human or local actor, a local one with the token of the creation, for the created operation, with the token and evidence of the completion, strictly before the evidence deadline and before creation plus the challenge TTL |
| Reauthentication.UseWorksIffInTime | internal/iam/reauthentication.go:203-322 | a challenge used as intended can be completed and then consumed exactly until its deadlines |
| Reauthentication.AuthorizesOnce | internal/iam/reauthentication.go:304-322 | a challenge authorises at most once |
| Reauthentication.StatusMovesForward | internal/iam/reauthentication_postgres.go:14-46 | status moves only pending, verified, consumed or to expired, and versions rise |
| Reauthentication.CleanupSpares | internal/iam/reauthentication_postgres.go:14-46 | cleanup never touches what can still be completed or consumed, and deletes only what ended at least the retention time ago |
| Reauthentication.CleanupTidiesAll | internal/iam/reauthentication_postgres.go:14-46 | as long as the batch is not full, every overdue challenge expires, every one that ended long enough ago is deleted, all others stay |
| Reauthentication.EarlierDeadlineFirst | internal/iam/reauthentication_postgres.go:19-31 | in a full batch the earlier deadline, then the smaller id, expires first |
| Reauthentication.Challenges.Cleanup | internal/iam/reauthentication_postgres.go:14-46 | the first batch of overdue rows expires and then the first batch of removable ones is deleted, in the order of the queries |
| Reauthentication.Challenges.CreateChallenge | internal/iam/reauthentication.go:169-201 | a pending challenge bound to actor, token and operation |
| Reauthentication.Challenges.CompleteChallenge | internal/iam/reauthentication.go:203-265 | completes exactly when allowed, with the earlier of both deadlines |
| Reauthentication.Challenges.AuthorizeChallenge | internal/iam/reauthentication.go:304-322 | consumes exactly when evidence, actor, token and operation match in time; a refusal changes nothing |
| ReplayStore.MemoryReplayStore.Admit | internal/authorizationcontext/jws_resolver.go:249-267 | prunes what has expired and admits exactly a live claim that is not remembered |
| ReplayStore.AdmittedTwiceIff | internal/authorizationcontext/jws_resolver.go:249-267 | for every sequence of claims, a key is admitted twice if and only if some admitted entry of it lapses at a later reading and a claim that is still live by its own reading follows |
| ReplayStore.ForgettingIsSafeIff | internal/authorizationcontext/jws_resolver.go:249-267 | the store answers as one that never forgets if and only if no key lapses that way |
| ReplayStore.OrderedReadingsNeverLapse | internal/authorizationcontext/jws_resolver.go:126-139 | readings that reach the lock in order, with one expiry per context, never lapse |
| ReplayStore.StaleReadingReadmits | internal/authorizationcontext/jws_resolver.go:126-139 | for every expiry a run in which a claim read before the lock is admitted a second time |
| ReplayStore.KeysAreDistinct | internal/authorizationcontext/jws_resolver.go:261-261 | the joined key tells contexts apart as long as issuers hold no NUL |
| Artifacts.ValidateParts | internal/artifact/service.go:415-438 | accepts exactly one to 10,000 contiguous parts of at most 256 MiB, all but the last of at least 5 MiB, that add up to the declared size |
| Artifacts.JoinedInOrder | internal/artifact/service.go:175-234 | the parts stand in the assembled content one after the other |
| Artifacts.ObjectsHashToTheirKeys | internal/artifact/service.go:203-293 | in every interleaving of uploads, retries and crashes an object hashes to its key |
| Artifacts.SizeCheckSuffices | internal/artifact/service.go:235-262 | on the deduplication paths the size check decides the same as the full check |
| Artifacts.CompletedUploadsHold | internal/artifact/postgres_repository.go:146-216 | a completed upload names an artifact and an object of its declared size and digest, assembled from contiguous parts if it was assembled |
| ArtifactService.Service.Complete | internal/artifact/service.go:175-293 | the outcome is exactly the first of: overdue, parts incomplete, assembly failed, digest mismatch, size conflict, completed; only the status of this upload changes, as the outcome says, and completed means object and artifact are in place |
| ArtifactService.Service.Place | internal/artifact/service.go:235-262 | the objects afterwards are the old ones with the verified candidate promoted where none was, refused exactly on a size conflict |
| AuditChain.AuditLog.Append | internal/audit/postgres_repository.go:33-111 | the event is linked to its partition's head, which moves to it, and no other partition changes; each partition holds exactly the events of its product, in order |
| AuditChain.PartitionsSeparateProducts | internal/audit/postgres_repository.go:33-40 | two events share a partition exactly if they are of the same product or both of none |
| AuditChain.EventsDetermineLog | internal/audit/postgres_repository.go:297-341 | a linked log is the one chain of its events |
| AuditChain.HeadDeterminesHistory | internal/audit/postgres_repository.go:297-341 | two linked logs with the same head are equal, as long as the hash neither collides on them nor yields the zero hash |
| AuditChain.AlteredHistoryShows | internal/audit/postgres_repository.go:297-341 | changing, dropping or reordering entries changes the head |

## Left out

- Outside writers during a synchronisation: no other transaction changes users, organisations or memberships between preparation and completion; a mapping conflict that appears late is modelled as a step but not part of the snapshot theorem.
- Versions, timestamps and audit entries of directory synchronisation. The break-glass guard is a given predicate of the tables.
- DirectoryExecutor.Executor.PrepareSnapshot: the number of conflict rows is not counted, because one row stands for one reason, which of the nodes of a cycle carry one depends on the order of the search, and the model keeps the conflicted subjects and organisations only.
- DirectoryHandler.Handle: the fetch phase is the staging job of `DirectoryStaging`, joined to the apply by `DirectoryMirror`, and errors of the database or of a recording of failure end a call without a step.
- OIDC sources, which can only be previewed.
- Unicode case folding in the conflict queries: `lower` is modelled on ASCII letters.
- SCIM transport, resource decoding and the base64 form of cursors: a cursor is its decoded position, a resource is already decoded or malformed.
- MFA user, version, session and credential comparisons of the confirmations: they only refuse more than the model does.
- MfaCollector.Collector.RunOnce: the clock moves on between items, but not between a lease and its retry, and the tables of other requests stand still; interleavings are covered by the runs of `MfaSecrets`. What the directory scan returns is a parameter.
- White space outside ASCII around corpus lines, file system operations, ownership checks, manifest texts (versions, licences, generator, timestamps) and the uint64 overflow guard of the raw count.
- CorpusVerify.CheckManifest: the text fields, source digests and timestamp of the manifest are not modelled, because they are checked one by one and nothing else depends on them.
- `validateCanonicalInput` and Go values other than raw JSON text; UTF-8 decoding is taken as done.
- Base64, Ed25519, SHA-256 and RFC 3339 parsing in catalog verification: given functions, `Tools`.
- PublicationService.Service.Publish: the release's own status, which a publication checks where a revocation checks the attempt, is not a separate field; it moves with the attempt in one transaction.
- The catalog builder, release state and the trigger that guards the current pointer against rollback: nothing is claimed about which of two records a pointer ends on.
- Rate limits, session lifetimes, password hashing and login modes: collected in the request's `entry` and `passwordOk`.
- Reauthentication.Challenges.Cleanup: rows that another transaction has locked are skipped by the queries; the runs therefore allow any choice of overdue and removable rows, while the method, which sees no locks, takes the first batch.
- Reauthentication: policy validation and the factor check itself, which is the request's `confirmed`.
- Object store internals: a multipart upload is completed at most once and promotion never overwrites.
- Audit export and queries; JSON marshalling of hashed events.
- HTTP handlers, routing, configuration, the console and job queue internals.
