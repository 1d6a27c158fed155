# Verified model of the relay fleet hub

The hub coordinates a fleet of relay devices. This project models its stateful services over
their database tables and proves what they keep, one component per group of modules:

- **Multi-hub replication** (`SyncModel`, `SyncStore`, `SyncSafety`, `SyncTombstones`,
  `SyncConvergence`, `SyncNetwork`, `SyncAgreement`): the outbox, the cursors and the applier with
  last-writer-wins, tombstones, natural-key reconciliation and the site remap.
- **Enrollment** (`Enrollment`, `EnrollmentRuns`): tokens, registration and credential rotation,
  serially and as interleaved transactions that lock one token row each.
- **Announce, adopt, register** (`AdoptionModel`, `Adoption`, `AdoptionDesk`, `Mac`).
- **Schedules and the maintenance flag** (`Schedules`, `ScheduleRuntime`).
- **Config backup** (`ConfigModel`, `ConfigBackup`, `ConfigRoundTrip`, `ConfigImport`,
  `ConfigDryRun`, `ConfigService`).
- **Commands, firmware and heartbeats** (`CommandPayloads`, `Commands`, `CommandRuns`,
  `CommandOverlaps`, `Deployments`, `Heartbeats`).
- **Event bus, power series, role bindings** (`EventBus`, `Power`, `Rbac`).

A service is a class over its tables whose methods are proved equal to a specification function;
the properties are lemmas about those functions and about runs of them. Times are integers in
microseconds, ids and secrets are strings that are drawn unused, a token's hash is as good as its
secret, and an unordered query returns its rows in an arbitrary but fixed way (a `pick` function,
or the order of the table). `dafny verify dfyconfig.toml` checks everything.

Where the code keeps less than its comments promise, the model follows the code: a lemma shows an
input and another gives the exact condition. Replication converges and hubs agree up to refused
writes and sole deleters (`ChildBeforeParentIsRefused`, `WriteRefusedExactly`, `GoThroughExactly`;
`DeleterTakesTheRowBack`, `CaughtUpHubsAgree`, `SoleDeleterHolds`). Enrollment can make twins
(`TwoTokensMakeTwins`, `CommitMakesTwinsExactly`) and a deleted restore target enrolls afresh
(`DeletedTargetRegistersAfresh`). Adoption can hand out a dead token (`DeadTokenIsHandedOutAgain`,
`RegisterKeepsInvExactly`) and refuse a rightful restore (`RestoreNeedsSeparatorFreeMac`). A
backup's groups lose new sites (`GroupsLinkOnlyToOldSites`) and its dry run can miscount or
precede a failure (`UntrimmedNameDiverges`, `RepeatedSettingFails`, `KindlessScheduleFails`,
`PreviewIsKeptExactly`). The grace period and a cancel can be got round
(`EarlyReportDefeatsTheGrace`, `EarlyReportExemptsExactly`, `LaterHandOffsCanBeArbitrarilyClose`,
`RepeatedWithinGraceExactly`; `OverlappingCancelIsLost`, `OverlapsAreSafeExactly`). Shadow mode
can misjudge a page (`HiddenPageIsMisjudged`, `LimitedDiffIsExactWhen`).

## Model

| member | source | states |
|---|---|---|
| SyncStore.Store.ApplyOutboxEvent | app/services/sync.py:335-396 | one peer event is a transaction: the tables become what the applier's specification says or, on a refusal, stay as they were; the outbox and the suppression flag are unchanged on every path |
| SyncStore.Store.ApplyCore | app/services/sync.py:399-535 | tombstone check, unsyncable kind, deletion, empty payload, site remap and upsert, in the order the applier tests them, with nothing emitted |
| SyncStore.Store.UpsertRow | app/services/sync.py:488-535 | lookup by id then by natural key, creation under the sent id, last-writer-wins update that never reassigns the id |
| SyncStore.Store.Put | app/services/sync.py:119-172 | a local write appends exactly one event with the full snapshot and the owning organization, and none while suppressed |
| SyncStore.Store.Drop | app/services/sync.py:119-172 | a local delete removes and detaches the row and appends a deletion event, but writes no tombstone |
| SyncStore.Store.AddTombstone | app/services/sync.py:226-245 | the first tombstone of an id stays; a second one changes nothing |
| SyncStore.Store.UpdateCursor | app/services/sync.py:186-216 | one peer's cursor is set and no other moves |
| SyncSafety.RedeliveryIsAbsorbed | app/services/sync.py:345-349 | applying any applied or skipped event a second time, later and with other fresh ids, leaves every row and tombstone as it is |
| SyncSafety.PrepareIsStable | app/services/sync.py:482-484 | preparing an event again after it was applied finds the same site and adds none |
| SyncSafety.DefaultSiteExists | app/services/sites.py:42-91 | the fallback site a device or group is remapped to is a site row of the table afterwards |
| SyncSafety.WrittenRow | app/services/sync.py:488-535 | an applied upsert touches one row, which carries every sent column, keeps or defaults the others, and is the found row or a new one under the sent id |
| SyncSafety.RemapKeepsSiteLinks | app/services/sync.py:471-484 | an applied device or group event keeps every site link resolvable exactly when the payload does not send the empty string as its site |
| SyncSafety.EmailCollidesOnlyOnRename | app/services/sync.py:258-266 | an applied user event breaks the uniqueness of emails exactly when it renames an account found by id to an address another account has; the create path never does |
| SyncSafety.RemovalIsRefusedExactly | app/services/sync.py:424-435 | a replicated deletion keeps every link and unique key and is refused exactly when another row points at it through a column that may not be null |
| SyncTombstones.HonouredExactly | app/services/sync.py:409-435 | an applied event keeps tombstoned ids free of rows exactly when a deletion reaches the row it names and a creation's payload id is not tombstoned |
| SyncTombstones.TombstonesAreForever | app/services/sync.py:409-435 | over every run of events sent under their own ids the constraints hold, tombstones only grow, come only from deletions in the run, and no tombstoned id has a row again |
| SyncConvergence.WriteRefusedExactly | app/services/sync.py:504-535 | on a consistent replica a full write is refused exactly when it would land, being neither to a tombstoned device nor stale, and its power source is neither none, nor itself, nor a device that is here |
| SyncConvergence.RunReaches | app/services/sync.py:399-535 | every sequence of full device snapshots and deletions of which none is refused, whatever powers what, ends in the state its set of events determines: tombstoned if deleted, else the newest payload, detached from a power source that was deleted |
| SyncConvergence.RunReachesExactly | app/services/sync.py:399-535 | the replica is in the state of the events delivered so far all along, exactly when no delivery of a known organization is refused |
| SyncConvergence.GoThroughExactly | app/services/sync.py:504-535 | no delivery of a sequence is refused exactly when each device comes before the devices it powers and is not deleted before they are written, but for writes that are outdated or to deleted devices: a condition on the sent events and the starting rows alone |
| SyncConvergence.ReachedIsUnique | app/services/sync.py:516-525 | when writes of one device carry distinct times, that state has only one set of rows and tombstoned ids |
| SyncConvergence.ReplicasConverge | app/services/sync.py:345-349 | two delivery orders of the same events, with any repetitions, from the same start give the same rows and tombstones if neither runs into a refusal |
| SyncConvergence.AnyOrderConverges | app/services/sync.py:345-349 | every order does, without a condition on the deliveries, if power sources are none, the device itself, or there from the start and never deleted |
| SyncConvergence.ChildBeforeParentIsRefused | app/services/sync.py:504-512 | two new devices of which one powers the other: child first, it is refused and missing, parent first, both go through |
| SyncConvergence.NewestSettles | app/services/sync.py:514-525 | comparing one arriving write with the stored one keeps the newest of all writes seen so far |
| SyncNetwork.FetchIsNextPage | app/services/sync.py:538-554 | a page is the next stretch of the outbox after the cursor: nothing skipped, nothing twice |
| SyncNetwork.PullsCoverTheLog | app/services/sync.py:186-216 | after any pulls, page sizes and crashes, everything up to the cursor has been delivered and nothing outside the log has |
| SyncNetwork.PullingIsExact | app/services/sync.py:538-554 | if a growing outbox goes through when applied once in sequence order, paging it with crashes that re-pull never runs into a refusal and ends in the same state |
| SyncNetwork.PullMovesOneLink | app/services/sync.py:66-79 | a pull takes its page off its own link and touches no outbox and no other link |
| SyncNetwork.PullingTerminates | app/services/sync.py:377-396 | without local edits every run of productive pulls over all links is at most as long as the backlog, which falls with each |
| SyncNetwork.QuietExactly | app/services/sync.py:175-183 | the backlog over all links is zero exactly when no productive pull is possible |
| SyncAgreement.ApplyKeepsHub | app/services/sync.py:335-396 | receiving one event whose power source is known moves a hub that also edits locally to the state determined by the events it has seen; a write brings its device unless tombstoned and a deletion is remembered |
| SyncAgreement.LocalWriteLandsAsIs | app/services/sync.py:557-570 | the snapshot a local write emits lands elsewhere as the very row that was written |
| SyncAgreement.RunKeepsNetwork | app/services/sync.py:66-79 | every step of every hub, local edit, pull or crash, keeps each hub in the state of the events it has seen |
| SyncAgreement.CaughtUpHubsAgree | app/services/sync.py:335-396 | once every cursor is at its peer's last event two hubs agree on a device exactly when neither of them alone deleted it, and whatever another hub deleted is tombstoned and gone |
| SyncAgreement.SoleDeleterHolds | app/services/sync.py:424-435 | a hub that alone deleted a device holds it in the end exactly when, after its last deletion of it, it received or made a write of it |
| SyncAgreement.DeleterTakesTheRowBack | app/services/sync.py:424-435 | the shortest such case: a concurrent edit recreates the row on the hub that deleted it while the editor has tombstoned it |
| Mac.NormalizeMac | app/services/announcements.py:62-81 | replacing the separators away one after another is the same as dropping them all, and none is left |
| Mac.WithoutKeepsTheRest | app/services/announcements.py:76-81 | removing the separators keeps exactly the other characters |
| Enrollment.Service.MintEnrollmentToken | app/services/enrollment.py:22-74 | a new unconsumed token with a lifetime of the positive request capped at thirty days, else the configured one |
| Enrollment.Service.Validate | app/services/enrollment.py:181-208 | the field loops accept exactly the payloads within every column width whose MAC has only the permitted characters |
| Enrollment.Service.ConsumeEnrollmentToken | app/services/enrollment.py:167-380 | the locked body refuses or redeems as specified, and keeps secrets and credentials unique |
| Enrollment.CommitGivesOneCredential | app/services/enrollment.py:291-371 | a redemption leaves its device exactly one working secret, the new one, so a restore invalidates the previous one, and changes no other device's |
| Enrollment.DeletedTargetRegistersAfresh | app/services/enrollment.py:246-262 | because deleting a device empties the references to it, the refusal for a vanished restore target never fires: the token registers a new device unless its MAC is active elsewhere |
| Enrollment.Service.RevokeEnrollmentToken | app/services/enrollment.py:120-136 | exactly the existing unconsumed token is deleted |
| Enrollment.Service.RevokeEnrollmentTokensBulk | app/services/enrollment.py:139-164 | the three lists hold the given ids of their fate in order, and exactly the revoked rows go |
| Enrollment.BulkRevocationAccountsForEveryId | app/services/enrollment.py:139-164 | every given id is in the list of its fate as often as it was given and in no other |
| EnrollmentRuns.StepKeepsInv | app/services/enrollment.py:215-231 | each interleaved step of lock, decide, commit, rollback, mint, revoke or other write keeps redemptions single and credentials unique |
| EnrollmentRuns.EnrolledAtMostOnce | app/services/enrollment.py:216-223 | over every interleaving no token is redeemed twice, no redemption is undone, and each registered device still there has exactly one credential |
| EnrollmentRuns.OneDevicePerFreshToken | app/services/enrollment.py:302-371 | over every interleaving the devices created are one to one the redeemed tokens without a target |
| EnrollmentRuns.CommitMakesTwinsExactly | app/services/enrollment.py:264-290 | a commit leaves two active devices of one MAC exactly when another active device has its device's resulting MAC by then, on the fresh and on the restore branch |
| EnrollmentRuns.SerialFreshNeverMakesTwins | app/services/enrollment.py:302-336 | a fresh registration that nothing interrupts never adds a second active device of a MAC |
| EnrollmentRuns.NoTwinsAlongRuns | app/services/enrollment.py:313-336 | interleaving adds none either as long as no MAC is registered, restored or activated twice at once |
| EnrollmentRuns.TwoTokensMakeTwins | app/services/enrollment.py:216-223 | the lock is on the token row only: two usable tokens presented at once with one MAC leave two active devices of it |
| AdoptionDesk.AnnouncementService.UpsertAnnouncement | app/services/announcements.py:246-406 | one poll validates, upserts, tries both self-heal paths and answers as the specification says, stamping the first delivery only |
| AdoptionDesk.AnnouncementService.MaybePrepareAutoRebind | app/services/announcements.py:84-160 | a consumed row without a secret is re-armed with a restore token exactly under the three guards |
| AdoptionDesk.AnnouncementService.MaybeRecoverStrandedPickup | app/services/announcements.py:163-241 | a stranded row is re-armed with a token of the same context and its dead token deleted, or reconciled when that token was spent |
| AdoptionDesk.AnnouncementService.Adopt | app/services/announcements.py:562-622 | the refusals in their order, the idempotent answer, or one token minted and stashed |
| AdoptionDesk.AnnouncementService.Reject | app/services/announcements.py:625-642 | the first rejection time stays |
| AdoptionDesk.AnnouncementService.MarkConsumed | app/services/announcements.py:645-689 | the exact column match wins over the scan, and only an unconsumed row is stamped and loses its secret |
| AdoptionDesk.AnnouncementService.ForceAdoptReconcile | app/services/announcements.py:692-741 | a row is reconciled only for an active device of its canonical MAC |
| AdoptionDesk.AnnouncementService.Validate | app/services/announcements.py:258-292 | the loops accept exactly the MACs and claims within their limits |
| Adoption.PollKeepsInv | app/services/announcements.py:299-406 | a poll keeps: a secret on a row means adopted, unconsumed and the secret of the row's own live token, and no two rows share a token |
| Adoption.AwaitingRegisterExactly | app/services/announcements.py:396-409 | on any tables the last answer is given exactly for an adopted, unrejected, unconsumed row that never delivered and has no secret |
| Adoption.AdoptedMeansLiveToken | app/services/announcements.py:362-393 | a secret handed out is always that of an existing unconsumed token |
| Adoption.NeverStranded | app/services/announcements.py:163-241 | polling an adopted, unrejected, unconsumed row hands out a live token or reports it registered because its token was spent |
| Adoption.NeverStrandedAlongRuns | app/services/announcements.py:345-409 | over every run of polls, adoptions of listed rows, rejections, registrations under the announced MAC, reconciliations, deletions and edits, the secrets rows carry stay live and no poll is answered with awaiting_register |
| Adoption.NeverAwaitingAlongAnyRun | app/services/announcements.py:345-409 | over every run whatever, cross-links that come late or never, foreign MACs and revoked tokens included, no poll is answered with awaiting_register |
| Adoption.LegacyIsSound | app/services/announcements.py:362-393 | rows left by a version that dropped the secret at its first delivery meet the invariant, so runs may start from them |
| Adoption.DeadSecretExactly | app/services/announcements.py:345-409 | on any tables a poll hands out a secret without an unconsumed token exactly when the row it finds is adopted, not rejected and carries such a secret |
| Adoption.PollBeforeCrosslinkExactly | app/services/enrollment.py:363-389 | between the commit of a registration and its cross-link a poll is handed a dead secret exactly for the unrejected row that armed the redeemed token |
| Adoption.AdoptKeepsInvExactly | app/services/announcements.py:569-576 | adopting keeps the invariant exactly when the adopted row was not already consumed, which the code does not check |
| Adoption.RegisterKeepsInvExactly | app/services/announcements.py:645-689 | registering keeps it exactly when the row that armed the token is the one cross-linked |
| Adoption.AnnouncingMacCrosslinks | app/services/enrollment.py:383-389 | registering under the announced MAC always cross-links the right row, in whatever textual form |
| Adoption.PollThenRegisterCompletes | app/services/announcements.py:6-24 | the secret of the last answer is never found already used, and an accepted registration under the announced MAC closes the row and gives the device a working credential |
| Adoption.DeadTokenIsHandedOutAgain | app/services/announcements.py:366-393 | a row whose token was spent under another MAC is stuck: every poll repeats the dead secret and every registration with it is refused |
| Adoption.RestoreNeedsSeparatorFreeMac | app/services/announcements.py:579-598 | restoring a device of the very announced hardware is accepted exactly when its MAC is stored without separators |
| Schedules.ComputeNextRunAt | app/services/schedules.py:204-240 | the advancing candidate and the seven-step walk compute the specified next run |
| Schedules.NextRunIsLeastOccurrence | app/services/schedules.py:215-237 | the next run is the least occurrence strictly after now, within one or seven days, and exists exactly when there is any occurrence |
| Schedules.WalkFallsThroughExactly | app/services/schedules.py:231-238 | the weekday walk falls through exactly when no weekday from Monday to Sunday is wanted |
| Schedules.ClockRoundTrip | app/services/schedules.py:121-129 | the stored time is five characters and reads back as the time given |
| Schedules.Create | app/services/schedules.py:93-175 | accepted exactly under the listed conditions, and the row written |
| Schedules.CreatedIsDue | app/services/schedules.py:115-172 | a created daily or weekly schedule always has a next run |
| ScheduleRuntime.Scheduler.Tick | app/services/schedule_runtime.py:38-83 | the tick's new table and flag; every enabled row considered, every due row counted as fired or failed |
| ScheduleRuntime.Scheduler.ReconcileMaintenanceFlag | app/services/schedule_runtime.py:137-189 | the first covering window decides, an operator's stamp within it wins, and only the schedule's own ON is cleared |
| ScheduleRuntime.Scheduler.SetMaintenanceMode | app/services/runtime_flags.py:56-78 | reasons are cut at 200 characters and all but the scheduler's own two stamp an override |
| ScheduleRuntime.Scheduler.SetEnabled | app/services/schedules.py:188-198 | enabling recomputes the next run, disabling keeps it |
| ScheduleRuntime.TickFiresExactly | app/services/schedule_runtime.py:54-74 | over every run of ticks and toggles a tick fires a daily or weekly schedule exactly when it is enabled and has an occurrence since the last tick or enabling |
| ScheduleRuntime.OnceFiresExactly | app/services/schedules.py:207-213 | over every run of ticks and toggles a tick fires a one-shot exactly when it is enabled and its start lies between the last tick or enabling and now |
| ScheduleRuntime.OnceFiresAtMostOnce | app/services/schedules.py:207-213 | a one-shot fires at most once over any run, in whatever order its times come, and not before its start |
| ScheduleRuntime.OnceEnabledTooLate | app/services/schedules.py:188-198 | a one-shot enabled again only after its start never fires |
| ScheduleRuntime.FlagFollowsWindows | app/services/schedule_runtime.py:137-189 | without operators, after every tick of every run the flag is on exactly when some enabled maintenance window covers the tick |
| ScheduleRuntime.OperatorOnIsNeverCleared | app/services/schedule_runtime.py:185-189 | an operator's ON with a reason of its own survives every run |
| ScheduleRuntime.OperatorOffIsUndoneExactly | app/services/schedule_runtime.py:150-183 | a tick undoes an operator's OFF exactly when the first covering window in table order began after it |
| ScheduleRuntime.OperatorOffSurvivesUntilNextFire | app/services/schedule_runtime.py:137-149 | an operator's OFF survives every run in which no maintenance schedule fires after it |
| ConfigService.RedactExtConfig | app/services/config_backup.py:199-207 | exactly the secret keys of the blob are replaced by the sentinel |
| ConfigService.SectionTable.Plan | app/services/config_backup.py:551-585 | the loop with its seen set sorts each record by its trimmed name against the rows and the records before it |
| ConfigService.SectionTable.Apply | app/services/config_backup.py:779-922 | creates and updates are written in turn, the rest counted, and a failure rolls the table back |
| ConfigBackup.EveryItemIsCounted | app/services/config_backup.py:745-759 | for any plan that goes through, created, updated and skipped add up to the items, the table grows by exactly the created, and unnamed rows are untouched |
| ConfigBackup.PlanIsKeptExactly | app/services/config_backup.py:713-759 | any plan fails exactly on a value that does not convert or that the table refuses or on a name added twice, and else its counts are as announced exactly when as many items slip from update to creation as the other way |
| ConfigBackup.DryRunIsHonestExactly | app/services/config_backup.py:551-585 | a section planned by name never trips over a key: it fails exactly on a refused value, and else the counts are as announced exactly when slips and overtakes are as many |
| ConfigBackup.SettingsDryRunIsHonestExactly | app/services/config_backup.py:510-548 | settings fail exactly on a name too wide or on two writes that add one name, and else keep to the dry run exactly when slips and overtakes are as many |
| ConfigBackup.RepeatedSettingFails | app/services/config_backup.py:510-548 | a new setting sent twice is announced as two creations and rolls the import back |
| ConfigBackup.KindlessScheduleFails | app/services/config_backup.py:877-902 | a new schedule without a kind is announced as a creation and rolls the import back |
| ConfigBackup.DryRunOverTrimmedRows | app/services/config_backup.py:551-585 | over rows stored under trimmed names, exactly when no record announced as an update carries an untrimmed name |
| ConfigBackup.DryRunIsHonest | app/services/config_backup.py:713-738 | with trimmed names in the file a section that is not refused a value is imported as announced, and the table gains exactly the new names |
| ConfigBackup.RowWriterJudges | app/services/config_backup.py:843-893 | whether a record can be written, conversions and NOT NULL and width constraints included, depends on there being a row of its name but on nothing in it |
| ConfigBackup.UntrimmedNameDiverges | app/services/config_backup.py:562-582 | a name with spaces around it is announced as an update and creates a second row |
| ConfigDryRun.PreviewIsKeptExactly | app/services/config_backup.py:713-738 | over all nine sections: the import fails exactly on a refused value or a new setting sent twice, and else reports the counts of the preview exactly when names, memberships and MACs are sent as they are found |
| ConfigDryRun.ImportFailsExactly | app/services/config_backup.py:720-736 | the whole import rolls back exactly when some section would, each condition being on the document and the tables before |
| ConfigDryRun.MembersKeptExactly | app/services/config_backup.py:816-840 | as many memberships are created as announced exactly when each announced one finds its group and device and its pair is neither there nor made by an earlier one, and the table gains just those pairs |
| ConfigDryRun.AttachedAsAnnounced | app/services/config_backup.py:588-624 | in terms of the document: each announced membership comes once, names a group that is here or imported and a device under its MAC as stored, and is not there already |
| ConfigDryRun.DevicesKeptExactly | app/services/config_backup.py:961-977 | as many devices are updated as announced exactly when each announced record names a MAC as it is stored |
| ConfigDryRun.LastRecordWins | app/services/config_backup.py:968-977 | a device ends with the config and mode of the last record that reaches it |
| ConfigDryRun.ModesTakenExactly | app/services/config_backup.py:968-977 | the device rows are refused exactly when the last record that reaches some device brings a new mode its column does not take |
| ConfigModel.ColumnRoundTripsExactly | app/services/config_backup.py:843-867 | a column exported and imported comes back exactly unless it is empty and the import fills in something else |
| ConfigModel.SiteLinkRoundTrips | app/services/config_backup.py:260-275 | a link exported by site name is found again under that name |
| ConfigRoundTrip.OwnRowExactly | app/services/config_backup.py:925-958 | writing a row's own export over it, secrets redacted or not, changes nothing exactly when every column survives |
| ConfigRoundTrip.RedactedConfigIsHarmless | app/services/config_backup.py:933-957 | what a redacted blob brings back never changes the blob it was taken from |
| ConfigRoundTrip.OwnSectionExactly | app/services/config_backup.py:551-585 | a hub's own section is planned without a skip and applied without a change, exactly when every column of every row survives |
| ConfigRoundTrip.EmptyImportExactly | app/services/config_backup.py:238-372 | importing a section into an empty table reproduces it, exactly when every column survives |
| ConfigImport.OwnImportExactly | app/services/config_backup.py:713-738 | planning and applying a hub's own export goes through and leaves all nine sections and the stored secrets as they were, exactly when no rule has an empty escalation |
| ConfigImport.BareImportReproduces | app/services/config_backup.py:713-738 | importing into a bare hub goes through as a whole and reproduces the sites, schedules and scenes, and the rules with their site names exactly when no rule has an empty escalation |
| ConfigImport.BothExportsAreHarmless | app/services/config_backup.py:210-235 | both the redacted export and the full one leave their own hub as it was but for empty escalations |
| ConfigImport.FullExportHidesNothing | app/services/config_backup.py:238-372 | the export with secrets included carries every setting and config value as stored |
| ConfigImport.GroupsLinkOnlyToOldSites | app/services/config_backup.py:794-813 | an imported group is linked exactly to a site that existed before the import, so a bare hub gets its groups without sites |
| ConfigImport.RulesSurviveExactly | app/services/config_backup.py:848-862 | a rule's escalation is the one column of any section that an import can change |
| ConfigImport.EveryMemberIsCounted | app/services/config_backup.py:816-840 | memberships created and skipped add up, the table grows by the created and loses none |
| ConfigImport.EveryDeviceIsCounted | app/services/config_backup.py:961-977 | device records updated and skipped add up, and no device or MAC changes |
| CommandPayloads.ValidatedIsNormal | app/services/commands.py:52-117 | validating a validated payload changes nothing, and it invents nothing but the request method |
| Commands.CommandService.EnqueueForDevice | app/services/commands.py:135-211 | the refusals in their order, else one pending row and the hold-off set, lifted or kept |
| Commands.CommandService.EnqueueForGroup | app/services/commands.py:214-261 | one row for each member that is there and not locked out, in order; the locked ones returned as skipped; hold-offs lifted |
| Commands.FanOutAccountsForEveryMember | app/services/commands.py:236-258 | every member is commanded, skipped or gone, and counted once |
| Commands.CommandService.CancelPendingCommand | app/services/commands.py:264-280 | exactly a pending command is cancelled |
| Commands.CommandService.ListPendingForDevice | app/services/commands.py:296-334 | the live, unexpired rows outside the grace period, oldest first, with only pending ones stamped |
| Commands.CommandService.RecordResult | app/services/commands.py:337-373 | the reported status of the device's own command is stored and the first acknowledgement time stays |
| Commands.CommandService.ExpireOverdueCommands | app/services/commands.py:376-387 | exactly the live overdue rows expire, and their number is returned |
| CommandRuns.HandOffsAlongRuns | app/services/commands.py:264-373 | over every sequence of calls no command returns to pending, the delivery time is written once and is that of the first hand-off, later ones follow by at least the grace period, and a cancelled command is never handed out |
| CommandRuns.RepeatedWithinGraceExactly | app/services/commands.py:310-327 | a command handed out is handed out again within the next grace period exactly when it was not pending |
| CommandRuns.LaterHandOffsCanBeArbitrarilyClose | app/services/commands.py:322-327 | repeats are not restamped: once the grace period after the first is over any two polls hand the command out again |
| CommandRuns.EarlyReportExemptsExactly | app/services/commands.py:347-372 | a report on a command never handed out exempts it from the grace period exactly when it names a live status |
| CommandRuns.EarlyReportDefeatsTheGrace | app/services/commands.py:347-372 | a report on a command never handed out leaves it unstamped, so every poll hands it out |
| CommandOverlaps.OverlapsAreSafeExactly | app/services/commands.py:264-373 | over every interleaving of reads and writes of polls and cancels the hand-off guarantees hold throughout exactly when every write finds what was read as pending neither cancelled nor handed out since |
| CommandOverlaps.MoveKeepsExactly | app/services/commands.py:318-331 | a single step keeps the guarantees exactly when it is no write or an undisturbed one |
| CommandOverlaps.NeverPendingAgain | app/services/commands.py:296-373 | disturbed or not, no command ever returns to pending |
| CommandOverlaps.CancelsKeptExactly | app/services/commands.py:318-331 | a poll's write keeps the cancels made since it read exactly when none is of a row it read as pending |
| CommandOverlaps.OverlappingCancelIsLost | app/services/commands.py:301-334 | a cancel that commits between a poll's read and its write is lost and the command is handed out |
| CommandOverlaps.WriteBackIsDelivery | app/services/commands.py:318-331 | with nothing in between, reading and writing back is the one-step delivery |
| Deployments.FirmwareService.CreateDeployment | app/services/deployments.py:46-122 | the refusals, else every active assignment of a targeted device superseded and one pending row for each |
| Deployments.FirmwareService.MarkAssignmentDelivered | app/services/deployments.py:183-197 | the newest pending row of the device becomes delivered |
| Deployments.FirmwareService.ReconcileReportedVersion | app/services/deployments.py:200-255 | the newest active row takes the report and completes on the release's version |
| Deployments.FirmwareService.FindNewest | app/services/deployments.py:157-166 | the descending scan finds the newest row of the device in the states asked for |
| Deployments.AssignmentsAlongRuns | app/services/deployments.py:97-117 | in every reachable state each device has at most one active assignment, of the newest deployment that targeted it; finished rows never change; a completed row last heard its release's version without error |
| Deployments.ReportCompletesExactly | app/services/deployments.py:243-251 | a report completes the active row exactly when it names the release's version, whitespace aside, and touches no other row |
| Deployments.CreateKeepsInv | app/services/deployments.py:97-117 | creating a deployment keeps the invariant and gives every targeted device its row |
| Heartbeats.DeviceRecord.RecordHeartbeat | app/services/heartbeats.py:50-240 | history row, cached columns, reboot event and recovery trigger of one heartbeat |
| Heartbeats.DeviceRecord.Copy | app/services/heartbeats.py:124-129 | the loop copies exactly the listed fields that the payload carries |
| Heartbeats.HotColumnsAreLatest | app/services/heartbeats.py:217-222 | after any heartbeats each hot column is the value of the latest payload that carried it, and unchanged if none did |
| Heartbeats.HistoryIsSent | app/services/heartbeats.py:109-136 | the history gains one row for each heartbeat, in order, with what it carried |
| Heartbeats.RebootsAreRegressions | app/services/heartbeats.py:174-210 | there are exactly as many reboot events as adjacent regressions of integer uptimes, each with its two uptimes |
| Heartbeats.TriggersAreEdges | app/services/heartbeats.py:212-239 | there are exactly as many recovery triggers as edges in the hot-column history, one a heartbeat |
| EventBus.QueuesBoundedAndNobodyPruned | app/services/event_bus.py:74-91 | however publishers, subscribers and closers interleave no queue outgrows its bound and no open live subscriber is pruned |
| EventBus.PublisherOrderIsKept | app/services/event_bus.py:78-88 | every subscriber sees each publisher's events in order, none twice, and only events whose snapshot included it |
| EventBus.NothingLostWithoutOverflow | app/services/event_bus.py:74-91 | a subscriber still open that never overflowed has received every event whose snapshot included it and whose publisher is done with it |
| EventBus.StepKeepsInv | app/services/event_bus.py:48-91 | each single step of subscribe, snapshot, visit, put, prune, take, close and vanish keeps all of these |
| EventBus.FollowsTheSentinelExactly | app/services/event_bus.py:80-88 | a publisher's next step puts an event behind a closed subscriber's sentinel exactly when it was already past its check and there is room |
| EventBus.NoneAboutToPutAnew | app/services/event_bus.py:80-84 | of a closed subscriber only publishers that were past their check when it closed are ever about to put |
| EventBus.EventCanFollowTheSentinel | app/services/event_bus.py:48-55 | closing is not atomic with putting: an event can follow the sentinel in the queue |
| Power.IntradayPowerSeries | app/services/device_power.py:355-426 | the one-pass accumulation gives, bucket by bucket, what a separate filter over all samples gives, and the peak and number of its averages |
| Power.Requested | app/services/device_power.py:355-359 | any requested window and bucket count becomes one that ends now and has 12 to 1440 buckets of positive width |
| Power.AddSample | app/services/device_power.py:380-397 | one sample changes the accumulators of its own bucket only, if it has one |
| Power.LandsExactly | app/services/device_power.py:385-387 | an in-window sample lands in exactly the bucket whose half-open interval contains it, the one computed, and no other sample lands anywhere |
| Power.CountsAddUp | app/services/device_power.py:380-397 | the bucket counts add up to the in-window samples that pass the filter, each counted once |
| Power.RealAndSyntheticAreAll | app/services/device_power.py:394-397 | real and synthetic counts together are all in-window samples |
| Power.AverageWithinExtremes | app/services/device_power.py:404 | each average lies between any bounds of the watts in its bucket |
| Power.PeakIsLargest | app/services/device_power.py:400-408 | the peak is the largest average, floored at zero |
| Power.LatestSamplesByDevice | app/services/device_power.py:202-254 | exactly the requested devices with samples get one, and none of theirs is newer |
| Power.DecodedBitsAreExact | app/services/device_power.py:68-85 | the decoded bits are exactly those set, ascending, and sum up to the raw value |
| Rbac.BindingTable.Grant | app/services/role_bindings.py:74-118 | re-granting replaces the role of the same key, and no other binding changes |
| Rbac.BindingTable.Revoke | app/services/role_bindings.py:121-139 | exactly the binding of that key goes |
| Rbac.BindingTable.EffectiveDeviceIds | app/services/role_bindings.py:198-251 | the union of the sources behind the global short-circuit is the specified scope |
| Rbac.BindingTable.EffectiveIds | app/services/role_bindings.py:177-195 | the site, group or direct scope of the user's satisfying bindings |
| Rbac.ResolverIsPointwise | app/services/role_bindings.py:198-256 | the scope is ALL exactly for a satisfying global binding, and allows exactly the devices some satisfying binding covers |
| Rbac.ScopeIsAntitoneAndMonotone | app/services/role_bindings.py:59-68 | a higher role needed never widens a scope and more bindings never narrow it |
| Rbac.ReachingTheWholeReachesTheParts | app/services/role_bindings.py:254-291 | whoever may act on a site or group may act on every device in it |
| Rbac.FilterDevices | app/services/rbac_filter.py:76-157 | who is filtered, what enforce mode returns, and when shadow mode logs which diff |
| Rbac.ShadowDiffIsWhatEnforceDrops | app/services/rbac_filter.py:106-157 | for an unlimited query the cheap diff names exactly the rows enforce mode drops and the number it keeps |
| Rbac.LimitedDiffIsExactWhen | app/services/rbac_filter.py:106-128 | with a page limit the counts agree exactly when the page is all in scope or nothing in scope lies beyond it |
| Rbac.HiddenPageIsMisjudged | app/services/rbac_filter.py:106-128 | a page of one hidden device before a shown one is counted as empty where enforcing would show a row |
| Rbac.AuditFilterIsTargetAccess | app/services/rbac_filter.py:340-379 | the disjunction, in three-valued SQL, shows exactly the events without a scoped target kind or with their target in scope |
| Rbac.AuditClauses | app/services/rbac_filter.py:340-377 | the appended predicates are the five of the filter |

## Left out

- SyncSafety.RedeliveryIsAbsorbed: assumes that a payload id, if sent, is text; a null id is given a fresh one at every delivery and is not absorbed.
- SyncConvergence.ReplicasConverge: is about device events that carry full snapshots, with the sites fixed; the other kinds reconcile on names, which renames defeat.
- SyncAgreement.CaughtUpHubsAgree: takes hubs that start with the same rows, sites included, and the same organizations; local edits that raise `updated_at`; received writes whose power source is known by then; and no write that draws power from a device some hub deletes, since a deleter that holds that device again would keep plugged in what the others have detached. Which columns the emission hooks treat as telemetry and do not emit is not part of this model.
- SyncAgreement.SoleDeleterHolds: is about the same hubs and writes.
- SyncNetwork.PullingIsExact: takes sequence numbers as visible in the order they are assigned; a transaction that commits late under an earlier number is not modelled.
- Adoption.NeverStrandedAlongRuns: takes a registration that redeems a row's secret and its cross-link as one step, though the second is a transaction of its own that may fail; leaves out the revocation of a token that an adopted row carries and the registration under a foreign MAC. `PollBeforeCrosslinkExactly`, `RegisterKeepsInvExactly` and `AdoptKeepsInvExactly` give the exact conditions, and `NeverAwaitingAlongAnyRun` needs none.
- CommandRuns.HandOffsAlongRuns: takes each call as one step; `CommandOverlaps` splits polls and cancels into reads and writes, while a result report and the expiry sweep stay whole.
- Enrollment.Service.ConsumeEnrollmentToken: leaves out the hardware, serial and capability columns, the mark of test fixtures, and the config push after a restore.
- ConfigDryRun.PreviewIsKeptExactly: takes the preview and the import to see the same tables; the names of rules, schedules and sources to be unique, which their tables do not enforce; a value that is no text in a text column to be refused, which the driver may turn into text; and text to be too wide also where only trailing spaces exceed the width, which PostgreSQL cuts off.
- ConfigImport.OwnImportExactly: identifies an empty config blob with a null one and does not model `updated_at`.
- Power.IntradayPowerSeries: uses exact reals, so that the rounding of averages to two places is not modelled, and takes the channel's rows as given.
- Schedules.ComputeNextRunAt: reads the clock time of rows as create stores them; a stored text of another shape, which Python's int might accept or a replaced hour might reject, is not modelled.
- AdoptionDesk.AnnouncementService.UpsertAnnouncement: does not model the user agent or the device's own last-seen stamp.
- Heartbeats.DeviceRecord.RecordHeartbeat: leaves out Wi-Fi scans, heap rings, power summaries and the published event; column types that would coerce or reject a value are not modelled.
- JSON fields that are not of the type a service expects, where Python raises instead of refusing; JSON numbers that are not integers; digits outside ASCII.
- The organization scoping of queries outside replication, and role checks by middleware.
- Cryptography, token generation, ISO dates and JSON text: hashes are injective, secrets fresh, decryption the inverse of encryption, documents parsed.
- What a scheduled power cycle enqueues: its outcome is a parameter of the tick; target resolution is too.
- The session that follows an import, and the warnings and notes shown to operators.
- Daily power rollups, fleet summaries and recent-sample listings, which are single SQL aggregates.
- The logs and audit rows of shadow mode beyond the diff itself, and the sample of hidden ids they show.
- The deletion of firmware releases and of devices with commands or assignments, which cascade.
- HTTP, SSE, MQTT, SMTP and OAuth plumbing, migrations, templates, serializers and dashboard counts.
