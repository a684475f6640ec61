# Verified model of the intranet's protocols and calendar rules

This Dafny project models the parts of the intranet (a Strapi CMS and its
shared domain package) whose correctness depends on many steps or many
actors, and proves what each of them promises.

* **Scheduled publishing** (`Documents`, `Schedule`, `ScheduleRuns`,
  `Scheduler`, `ScheduleSelection`, `DueBatches`, `RetryTier`, `Attempts`).
  Documents have a revision, a draft row and a published row. A transaction is a function from
  the rows it finds to the rows it commits; a run is any sequence of
  transactions of any number of runners and of author actions. The selection
  is no step: the document, revision and clock a runner brings along are
  arbitrary. `Scheduler` is the imperative form, statement by statement, with
  a rollback on an error at any statement; `RetryTier` is the retry walk with
  its wrapping cursor.
* **Sign-in** (`Roles`, `SignInExchange`, `SignInGates`, `UserTable`, `Managers`,
  `ManagerRaces`, `NewManagers`, `WaitingReports`, `ManagerRuns`). Exchanges of several providers and modes
  interleave query by query with each other and with the administrators'
  writes. `SignInGates` says on what grounds each of them ends as it does.
  `UserTable` has the two transactions of an exchange, statement by
  statement. `Managers` has the manager links of
  sign-ins one after the other; in `ManagerRaces` their queries interleave.
  `NewManagers` and `WaitingReports` say how the links end then, and
  `ManagerRuns` has three such runs.
* **Calendar and zones** (`Calendar`, `PlainDate`, `WallTime`, `Kpi`, `Duty`,
  `DutyRoster`, `Training`, over `Text`). Dates are `YYYY-MM-DD` keys, day
  numbers follow sections 21.4.1.3 to 21.4.1.13 of ECMA-262 (with the years 0
  to 99 of `Date.UTC` read as 1900 to 1999). A zone is a function from instants
  to offsets in whole seconds below one day.
* **Search index** (`SearchBatches`, `SearchIndex`). The server queues a task
  per call and works the queue off in order, also after the caller gave up;
  every call may be refused, lost or fail.
* **Permissions and retention** (`Permissions`, `DesiredGrants`,
  `Notifications`). The permission table as a map, the sync's loops over it,
  and the nightly paged delete with its where clause in SQL's three truth
  values.
* **The secret's binding** (`SecretShare`). The printed string and a parser
  that recovers its fields.

## What the proofs found

* `SearchIndex.MissingIndexStaysEmpty`: when the live index is missing while
  the process remembers having built it, and the rebuild fails after creating
  the empty live index, every later minute takes the empty index for the old
  one; it stays empty until the content changes or the process restarts.
* `SearchIndex.FailedCleanupLeavesTheStateBehind` and
  `SearchIndex.LateSwapLeavesTheStateBehind`: the process falls behind its
  index when the cleanup after the swap fails, and when the swap it stopped
  waiting for is made later. Content that then returns to what it was stays
  out of the index, for any number of minutes. From a new process on these are all the ways:
  `SearchIndex.ProcessesFallBehindExactlyWhen`. `SearchIndex.SuccessfulSync`
  says exactly when a successful minute leaves the published documents live.
* `ManagerRuns.RaceLeavesTheLinkPending`: a manager's whole first sign-in
  between a report's look for the manager and its write leaves the link
  pending.
* `ManagerRuns.StaleListOvertakesTheNewManager`: a back-fill links the rows it
  listed without looking again. A report that changes its manager ends naming
  the new one and linked to the former one, though it looked with the new
  one's row there and that one queried after its write.
* `NewManagers.OverlappingSignInsLinkExactlyWhen` covers both: whomever the row
  named before, it ends linked to the manager exactly when, as the last other
  session's list links it, the manager is still to come over it (has yet to
  query, or has it on the list to link); or, with no other list after the
  report's write, the report looked with the manager's row there or the manager
  queried with the write behind. A row that names the manager already, pending
  or linked, always ends linked (`WaitingReports.WaitingReportsAreLinked`).
* `ManagerRuns.StaleListLinksAFormerManager`: likewise a person who lost the
  manager ends linked to the former one, exactly when some session still had
  the row on its list at the clear
  (`WaitingReports.ClearedRowsAreLinkedExactlyWhen`).
* `Training.AtTheEpochOrderShows`: a receipt of exactly 1970-01-01T00:00Z ties
  with an unreadable one, and the order of the rows decides which is kept.
  `Training.OrderShowsExactlyInATie`: the order shows exactly when a lesson has
  both and none after 1970.
* `ScheduleRuns.LateRecordCountsADeletedDocument`: a failure recorded late for a
  deleted document that was selected at revision 0 creates its version row
  anew. `ScheduleRuns.RecordWithoutRows`: a record changes a document without
  rows exactly when it was selected at the revision that now reads and is not
  judged again; no content row changes.

## Model

| member | source | states |
|---|---|---|
| `ScheduleRuns.SameRevisionSameRows` | apps/cms/src/utils/document-lock.ts:10-16 | in every run the revision stands for the rows: at one revision a document has the same rows, whatever happened in between |
| `ScheduleRuns.ChangeRaisesRevision` | apps/cms/src/utils/document-lock.ts:10-16 | every step that changes a document's rows raises its revision by one or deletes it, and is about that document |
| `ScheduleRuns.OneChangePerRevision` | apps/cms/src/cron/scheduled-publish.ts:565-703 | in every run, of all the steps of runners that selected a document at one revision, at most one changes it |
| `ScheduleRuns.NothingIsPublishedOutOfTime` | apps/cms/src/cron/scheduled-publish.ts:118-128 | in every run a published row has been up unchanged from the start, or since a step that put it there: an author's publish of a ready draft, or one that published the draft it found, due, in its window and ready at a clock read under the lock; ready means that its own fields are valid, a lesson's course is published, and a wiki page's parent too unless it has none or that is gone |
| `ScheduleRuns.AuthorPublishesExactlyWhen` | apps/cms/src/utils/schedule.ts:30-36 | an author's publish goes up iff the draft is ready, and takes its schedule and marker with it; else nothing changes |
| `ScheduleRuns.AuthorsOtherActions` | apps/cms/src/utils/schedule.ts:37-46 | the other actions of an author publish nothing: a save clears the marker, an unpublish also drops a pending publish, a discard leaves the published row as the draft, a delete leaves no rows |
| `ScheduleRuns.WithdrawnStaysDown` | apps/cms/src/utils/schedule.ts:37-38 | in every run withdrawn content, by deadline or by an author, stays down whatever was scheduled before, until an author acts on it |
| `ScheduleRuns.WithdrawalIsNeverDropped` | apps/cms/src/cron/scheduled-publish.ts:107-116 | in every run a deadline stays pending until a step withdrew the document after it had passed, or the author's own action ended it |
| `ScheduleRuns.RunsAreTidy` | apps/cms/src/utils/schedule.ts:15-54 | every run from no documents reaches only states where published rows carry no schedule or marker, a marker beside a pending publish is a withdrawal's, and a published document has a draft |
| `ScheduleRuns.LoopsNeverPublish` | apps/cms/src/cron/scheduled-publish.ts:52-66 | in every run pages whose parents loop back stay unpublished and looped until an author touches one of them |
| `ScheduleRuns.LoopEndsInARefusal` | apps/cms/src/cron/scheduled-publish.ts:714-762 | once its wait is over such a page is refused, and the refusal is recorded |
| `ScheduleRuns.RecordWithoutRows` | apps/cms/src/cron/scheduled-publish.ts:677-703 | a failure record changes a document without rows iff it was selected at the revision that now reads and the failure is not judged again; only the revision moves |
| `ScheduleRuns.LateRecordCountsADeletedDocument` | apps/cms/src/cron/scheduled-publish.ts:677-703 | the run that reaches it: selected at revision 0, deleted, recorded |
| `Schedule.PublishedExactlyWhen` | apps/cms/src/cron/scheduled-publish.ts:618-659 | a draft is published iff, at the selected revision and a clock read under the lock, it is due, no window of its type is over, its own fields are valid and its course or parent is right; in its window but not ready it is refused; the published row is the draft without its schedule, one revision on |
| `Documents.BlockersMean` | apps/cms/src/utils/publish-readiness.ts:152-202 | a draft is blocked by its fields iff they are not valid, and by its course or parent iff a lesson names no published course, or a wiki page an unpublished parent that is still there |
| `Schedule.SkippedExactlyWhen` | apps/cms/src/cron/scheduled-publish.ts:625-636 | a publish leaves all as it is iff the document is at another revision or not due, or a published document's withdrawal is due |
| `Schedule.ExpiredExactlyWhen` | apps/cms/src/cron/scheduled-publish.ts:637-650 | a due draft is expired iff its window is over and no published row awaits a withdrawal; the published row stays, the draft loses its schedule, a document or quick link its deadline too, and says why |
| `Schedule.UnpublishedExactlyWhen` | apps/cms/src/cron/scheduled-publish.ts:565-609 | a withdrawal succeeds iff it is due at the selected revision and a published row is there; it takes that row, the deadline, the marker and a pending publish; without the row it only clears the deadline, unless a publish is pending |
| `Schedule.RecordedWithdrawalRepeats` | apps/cms/src/cron/scheduled-publish.ts:677-703 | a recorded withdrawal failure keeps deadline, pending publish and published row, and recording the same code again writes nothing |
| `Schedule.RefusalRecordedExactlyWhen` | apps/cms/src/cron/scheduled-publish.ts:714-762 | a readiness refusal is recorded iff on the locked rows the draft is not ready and does not wait, that is, what it names is no unpublished due draft or its own time is an hour ago; it loses its schedule; otherwise nothing is written |
| `Schedule.RecordedExactlyWhen` | apps/cms/src/cron/scheduled-publish.ts:677-703 | any other record: nothing at another revision or of the marker a withdrawal has already; else the marker, and a publish loses its schedule |
| `Schedule.WaitingMeans` | apps/cms/src/cron/scheduled-publish.ts:714-740 | a draft waits iff its course or parent is unpublished with a due draft and its own time is less than sixty minutes ago |
| `Scheduler.ScheduledPublisher.UnpublishOne` | apps/cms/src/cron/scheduled-publish.ts:565-609 | the statements, with an error possible at each, commit exactly the withdrawal transaction or leave the rows as they were |
| `Scheduler.ScheduledPublisher.PublishOne` | apps/cms/src/cron/scheduled-publish.ts:618-659 | the same for the publish transaction, whose own refusal also rolls back |
| `Scheduler.ScheduledPublisher.RecordScheduleFailure` | apps/cms/src/cron/scheduled-publish.ts:677-703 | the same for the failure record |
| `Scheduler.ScheduledPublisher.SettleFailure` | apps/cms/src/cron/scheduled-publish.ts:798-868 | a transient failure below the fifth is only tried again; any other is recorded with its own code unless the document moved on, the refusal no longer holds or recording fails; the counts and backoffs afterwards are exactly those of that end |
| `Scheduler.FailureEndsExactlyWhen` | apps/cms/src/cron/scheduled-publish.ts:798-868 | a failed document is tried again iff an unknown error came for at most the fourth time and no withdrawal backs off, skipped iff its revision moved, tried again if its refusal is over or recording fails, and else marked notPublishable, invalid, rejected or retryExhausted after the error; nothing else changes |
| `Scheduler.RememberedAfterFailure` | apps/cms/src/cron/scheduled-publish.ts:798-853 | a recorded failure starts the count over and holds a withdrawal back for 5, 15, then 60 minutes at the recorded revision; any other end counts an unknown error and keeps the backoffs |
| `Scheduler.RememberedAfterCommit` | apps/cms/src/cron/scheduled-publish.ts:787-793 | a committed transaction starts the count over, a withdrawal's also ends its backoff; a skipped one leaves both |
| `Scheduler.ScheduledPublisher.RunScheduledDocument` | apps/cms/src/cron/scheduled-publish.ts:772-870 | a document ends in exactly one list, its rows changed by at most its committed transaction or the record of what it threw, with the counts and backoffs of that end |
| `Scheduler.ScheduledPublisher.RunPass` | apps/cms/src/cron/scheduled-publish.ts:877-916 | a pass handles each selected document once and in order, at the revision the handling before it left, and each ends as one document's handling does, in rows, list, counts and backoffs |
| `Scheduler.RetriesAreCounted` | apps/cms/src/cron/scheduled-publish.ts:798-868 | while recording works, a withdrawal is left to be tried again at one revision at most four times |
| `ScheduleSelection.PublishSelectionAgrees` | apps/cms/src/cron/scheduled-publish.ts:300-369 | the where clause leaves out exactly the drafts whose transaction would skip them and those whose course or parent is unpublished and due, less than sixty minutes after their own time |
| `ScheduleSelection.WaitIsBounded` | apps/cms/src/cron/scheduled-publish.ts:237-243 | sixty minutes after its own time no draft waits any more |
| `ScheduleSelection.LoopIsSelectedAfterItsWait` | apps/cms/src/cron/scheduled-publish.ts:714-740 | two due pages that are each other's parent are selected iff their wait is over |
| `ScheduleSelection.WithdrawalSelectionAgrees` | apps/cms/src/cron/scheduled-publish.ts:396-440 | the where clause of the healthy tier leaves out exactly the unmarked drafts whose withdrawal transaction would skip them |
| `ScheduleSelection.RetryTierAgrees` | apps/cms/src/cron/scheduled-publish.ts:483-494 | the retry tier picks a marked due draft iff its transaction would act and its backoff is over |
| `ScheduleSelection.NoDueWithdrawalIsHidden` | apps/cms/src/cron/scheduled-publish.ts:80-101 | every due withdrawal of a published document is in exactly one of the tiers, and eligible there |
| `DueBatches.PublishBatchAgrees` | apps/cms/src/cron/scheduled-publish.ts:300-369 | a draft is in the publish batch iff its transaction would not skip it, it does not wait, and fewer than fifty selected drafts of its type have an earlier time, or the same and a smaller row id |
| `DueBatches.HealthyTierAgrees` | apps/cms/src/cron/scheduled-publish.ts:396-440 | an unmarked withdrawal is in the healthy tier iff its transaction would act, fewer selected ones than the limit have an earlier deadline, or the same and a smaller row id, and no backoff at its revision holds it |
| `DueBatches.BatchIsInOrder` | apps/cms/src/cron/scheduled-publish.ts:363-366 | a batch is in the order of the due times, then the row ids |
| `DueBatches.EveryDueRowIsSelected` | apps/cms/src/cron/scheduled-publish.ts:48-51 | with N rows before it and none added there, each in at most k batches of L rows or more, a due row is in a batch within N * k / L runs and one more |
| `Attempts.TransientAttempts.Fail` | apps/cms/src/utils/schedule.ts:221-232 | counts one more failure of a document, revision and pass as the newest entry of all types, the oldest beyond the limit evicted; the fifth exhausts |
| `Attempts.TransientAttempts.DeferWithdrawal` | apps/cms/src/utils/schedule.ts:264-278 | defers by 5, 15, then 60 minutes and remembers the revision as the newest entry of all types, the oldest beyond the limit evicted |
| `Attempts.DeferredUntil` | apps/cms/src/utils/schedule.ts:264-288 | a deferred withdrawal is held back for five minutes after the first failure, then fifteen, then an hour each time, unless the document moves on; no other one is held back by it |
| `Attempts.OnlyTheOldestIsForgotten` | apps/cms/src/utils/schedule.ts:226-230 | a full memory that sets a new key forgets its oldest entry; nothing else is forgotten, and it never exceeds its limit |
| `RetryTier.RetryWithdrawals` | apps/cms/src/cron/scheduled-publish.ts:451-506 | the paged walk examines exactly the first rows of the circle from the stored cursor, picks the attemptable ones and stores where to go on |
| `RetryTier.RunStaysInBudget` | apps/cms/src/cron/scheduled-publish.ts:441-450 | no run examines a row twice or exceeds its scan limit or its quota (200 and 10), and it picks exactly the attemptable rows it examined |
| `RetryTier.EveryFailureIsExamined` | apps/cms/src/cron/scheduled-publish.ts:90-101 | from any cursor and at any quota up to the scan limit, N failing rows are all examined within N / quota runs, rounded up, as long as no new failing row appears |
| `RetryTier.EveryReadyFailureIsPicked` | apps/cms/src/cron/scheduled-publish.ts:90-101 | a failing withdrawal whose backoff stays over is attempted within that many runs |
| `Roles.ResolveEntraRole` | apps/cms/src/entra/roles.ts:52-92 | the answer is the highest privilege any claim or group grants, with each of its sources once; unknown, deny or the default otherwise, as the rules order them |
| `Roles.ResolveOidcRole` | apps/cms/src/oidc/provision.ts:91-114 | the same rules without groups or guests |
| `Roles.ResolutionIgnoresOrder` | apps/cms/src/entra/roles.ts:17-18 | order and repeats of claims, groups and rules do not change the answer |
| `Roles.MoreAssignmentsNeverLower` | apps/cms/src/entra/roles.ts:17-18 | more assignments never lower a granted role |
| `Roles.HighestPrivilegeWins` | apps/cms/src/entra/roles.ts:49-84 | of the roles the claims and groups give, the answer grants the first of admin, editor, department head, team lead, member, guest |
| `Roles.SignInSettles` | apps/cms/src/entra/roles.ts:160-176 | after one sign-in the next with the same answer writes nothing |
| `Roles.DryRunAndUnknownWriteNothing` | apps/cms/src/entra/roles.ts:94-131 | dry-run writes no stored user and creates nobody above member; an unknown answer changes no role and creates nobody |
| `Roles.NewcomersAreCreatedExactlyWhen` | apps/cms/src/entra/roles.ts:122-136 | a newcomer is created iff a role is granted, with that role, in dry-run with member instead of one above it; a deny is 403, an unknown answer 503 |
| `Roles.StoredUsersAre` | apps/cms/src/entra/roles.ts:138-176 | a stored user is turned away iff denied by OIDC, or by Entra on an owned row no admin changed; of the others an owned row turns manual or gets the granted role as the mode and the admin's change say, every other row stays |
| `SignInExchange.RunKeeps` | apps/cms/src/idp/exchange-core.ts:231-426 | every run of exchanges and admins keeps: one row per identity, every exchange on its own row, created iff it inserted, an owned row's strange role is an admin's |
| `SignInExchange.AdmittedOnItsOwnRow` | apps/cms/src/idp/exchange-core.ts:231-299 | an admitted exchange is on the only row of its identity |
| `SignInGates.EveryEndHasItsGrounds` | apps/cms/src/idp/exchange-core.ts:231-426 | in every run each outcome goes back to an own step of the exchange that found its grounds: a blocked row of its identity, another row's address, a deny, an unknown answer, no address, a missing role, an error; or, admitted, its own row and no refusal |
| `SignInGates.AdmittedUnblockedAndEntitled` | apps/cms/src/idp/exchange-core.ts:281-299 | in every run an exchange admitted to a stored row found it unblocked in an own step, and in a later own step was not turned away and wrote the role its answer gives |
| `SignInGates.BlockedStaysOut` | apps/cms/src/idp/exchange-core.ts:286-290 | in every run an exchange whose identity's row is blocked from its arrival on ends blocked, or in a database error, with its first step, and writes nothing |
| `SignInGates.NewRowsAreGranted` | apps/cms/src/idp/exchange-core.ts:307-346 | in every run a row an exchange inserts is the first of its identity, with the address of the request, which no row had at its own check, unblocked, and with the granted role as its provider's own |
| `SignInGates.UngrantedNeverGetARow` | apps/cms/src/idp/exchange-core.ts:313-321 | in every run an identity without a row, bound to none, gets none as long as every answer is a deny or unknown |
| `SignInExchange.FirstSignInHasACreator` | apps/cms/src/idp/exchange-core.ts:307-356 | when an identity nobody held is admitted, exactly one row holds it and one exchange of it inserted that row, which says created unless a database error ended it |
| `SignInExchange.ExactlyOneCreated` | apps/cms/src/idp/exchange-core.ts:307-356 | concurrent first sign-ins of one identity that end without a database error are on one row, and exactly one of those admitted says created |
| `SignInExchange.OneCreator` | apps/cms/src/idp/exchange-core.ts:307-356 | whatever the start, of the exchanges on one row at most one is told it created it |
| `SignInExchange.CreatedMeansInserted` | apps/cms/src/idp/exchange-core.ts:307-356 | an exchange that ended without a database error says created iff it inserted that row |
| `SignInExchange.ConflictIsAnotherRows` | apps/cms/src/idp/exchange-core.ts:255-272 | a 409 means that a row that was not the identity's held the address as this very exchange looked for it |
| `SignInExchange.SixStepsSuffice` | apps/cms/src/idp/exchange-core.ts:231-299 | in every run an exchange has ended after six of its own steps, whatever the others do meanwhile |
| `SignInExchange.ManualOnlyAfterAnAdmin` | apps/cms/src/idp/exchange-core.ts:362-373 | in every run an exchange turns an owned row manual only after an admin set its role with no exchange's write of the role since, and it keeps that role |
| `SignInExchange.WritesEndTheChange` | apps/cms/src/idp/exchange-core.ts:374-426 | an exchange's write of the role ends an admin's change |
| `SignInExchange.AdminsRoleStays` | apps/cms/src/entra/roles.ts:20-23 | once the role is an admin's, no sign-in of any provider or mode changes it through any run until an admin acts on it again |
| `SignInExchange.AdminsTakeTheRole` | apps/cms/src/utils/user-admin.ts:442-450 | a role set in the web administration, or a panel change away from the applied role, is the row's and the admin's |
| `SignInExchange.HandedBackFollowsTheProvider` | apps/cms/src/utils/user-admin.ts:495-508 | a row handed back keeps its role until the next sign-in with the sync on gives it the granted one |
| `Roles.RoleChangesExactlyWhen` | apps/cms/src/entra/roles.ts:104-177 | a sign-in changes a stored role iff the mode is on, its provider owns the row, no admin's change stands and it was told another role; then role and applied role are that one |
| `Roles.TurnsManualExactlyWhen` | apps/cms/src/entra/roles.ts:139-159 | a row turns manual iff it is owned, the mode is on and its role differs from the applied one (OIDC: and the answer is no refusal) |
| `UserTable.Table.CreateIdentity` | apps/cms/src/idp/exchange-core.ts:325-355 | row and role link commit together or not at all, exactly as the exchange's insert step |
| `UserTable.Table.WriteRoleOf` | apps/cms/src/idp/exchange-core.ts:374-426 | columns and role link commit together or not at all, exactly as the exchange's role step |
| `UserTable.HalfAWriteLooksLikeAnAdmin` | apps/cms/src/idp/exchange-core.ts:362-373 | a reader between the two statements of a role write would turn the user manual; after both it keeps the row |
| `Managers.Directory.SyncManager` | apps/cms/src/entra/provision.ts:375-443 | one's own link, then those of everybody waiting for this row; dry-run writes nothing, nobody else is touched, an error loses only its part |
| `Managers.Directory.BackFill` | apps/cms/src/entra/provision.ts:425-442 | the loop links every waiting row but one's own, or exactly the ones of the list before the error |
| `Managers.LinksDoNotDependOnOrder` | apps/cms/src/entra/provision.ts:375-443 | after any sequence of single sign-ins everyone is linked to the row of the manager Graph named, if there is one |
| `Managers.ManagersWhoSignInAreLinked` | apps/cms/src/entra/provision.ts:424-442 | two people who both signed in, one the other's manager, end linked |
| `Managers.KeepsItsManager` | apps/cms/src/entra/provision.ts:386-424 | a blocked row, and one whose manager Graph could not tell, keeps its manager through its own sign-in |
| `Managers.PermutedSignInsAgree` | apps/cms/src/entra/provision.ts:375-443 | two orders of the same sign-ins end with the same managers |
| `Managers.OthersAreUndisturbed` | apps/cms/src/entra/profile.ts:172-178 | a row that neither signs in nor waits for one that does never changes |
| `NewManagers.OverlappingSignInsLinkExactlyWhen` | apps/cms/src/entra/provision.ts:375-443 | over every run of sign-ins interleaved query by query, a report whose row did not name the manager ends naming it; and linked iff the manager is still to come as the last other session's list links the row, or no other list links it after the report's write and it looked with the manager's row there or the manager queried with the write behind |
| `NewManagers.UnlistedReportsLinkExactlyWhen` | apps/cms/src/entra/provision.ts:375-443 | when no other session is about to link the row at the report's write, it ends linked iff it looked with the manager's row there or the manager queried with the write behind |
| `NewManagers.NamedRowsAreLinkedExactlyWhen` | apps/cms/src/entra/provision.ts:375-443 | the same from any moment with the report's own write behind, whatever the links and lists are then |
| `WaitingReports.WaitingReportsAreLinked` | apps/cms/src/entra/provision.ts:424-442 | a row that already names the manager, pending or linked, ends linked once the manager's sign-in is over, whatever overlaps and whatever fails in the report's own |
| `WaitingReports.ClearedRowsAreLinkedExactlyWhen` | apps/cms/src/entra/provision.ts:425-438 | from the moment a sign-in cleared someone's manager: once all sessions are finished the row has a link iff at that moment one of them still had it on its list |
| `ManagerRaces.AloneIsAWholeSignIn` | apps/cms/src/entra/provision.ts:375-443 | a session that nobody interrupts and nothing fails is the whole sign-in of the sequential model |
| `ManagerRaces.OnlyTheseAreWritten` | apps/cms/src/entra/provision.ts:386-442 | a query of a session changes no stored row but its own, unblocked and with the sync on, to what it looked up, or the listed one it links |
| `ManagerRaces.DryRunsWriteNothing` | apps/cms/src/entra/provision.ts:425-425 | in every run the sessions of a dry-run change no stored row |
| `ManagerRuns.RaceLeavesTheLinkPending` | apps/cms/src/entra/provision.ts:400-416 | the run, from an empty table, whose link stays pending |
| `ManagerRuns.StaleListOvertakesTheNewManager` | apps/cms/src/entra/provision.ts:425-438 | the run whose back-fill links a person to the former manager after the new one was found and queried |
| `ManagerRuns.StaleListLinksAFormerManager` | apps/cms/src/entra/provision.ts:425-438 | the run whose back-fill links a person to the former manager |
| `Calendar.CivilRoundTrip` | packages/domain/src/plain-date.ts:198-226 | every day number reads as a valid date and back |
| `Calendar.DayRoundTrip` | packages/domain/src/plain-date.ts:35-47 | every valid date has a day number and reads back |
| `Calendar.DayOrder` | packages/domain/src/plain-date.ts:222-231 | dates order like their day numbers |
| `Calendar.DaysAreCounted` | packages/domain/src/plain-date.ts:198-204 | the day numbers count the Gregorian dates one by one from 1970-01-01 |
| `PlainDate.PlainDateIffRealDay` | packages/domain/src/plain-date.ts:35-47 | a key is a plain date iff it has the shape and names a real day of the years 100 to 9999 |
| `PlainDate.KeyOrder` | packages/domain/src/plain-date.ts:222-231 | keys order as strings like their days, and are equal iff their days are |
| `PlainDate.AddDaysMovesByDays` | packages/domain/src/plain-date.ts:198-204 | adding days to a key gives a key iff the day stays in range, and then the days between are those |
| `PlainDate.AddDaysIsAdditive` | packages/domain/src/plain-date.ts:198-204 | adding days twice is adding their sum |
| `PlainDate.DaysBetweenIsInverse` | packages/domain/src/plain-date.ts:229-231 | adding the days between leads from one key to the other; their sign is the keys' order |
| `PlainDate.AddMonthsClamps` | packages/domain/src/plain-date.ts:210-219 | adding months keeps the day or cuts it to the month's last one, a key exactly in the key years |
| `PlainDate.AddMonthsIsMonotone` | packages/domain/src/plain-date.ts:210-219 | adding months keeps the order of keys |
| `PlainDate.MonthsUndo` | packages/domain/src/plain-date.ts:206-219 | months on and back return the key iff the day was not cut |
| `WallTime.OffsetIsTheZones` | packages/domain/src/plain-date.ts:130-158 | the offset read off the formatted clock is the zone's, in the clock years |
| `WallTime.CandidatesAreAllInstants` | packages/domain/src/plain-date.ts:305-346 | with one change in the window the filtered candidates are exactly the instants showing the wall time, at most two |
| `WallTime.RejectIsExact` | packages/domain/src/plain-date.ts:314-346 | `reject` answers the only instant, refuses as repeated iff there are two and as skipped iff there are none |
| `WallTime.CompatibleIsEarliestOrShifted` | packages/domain/src/plain-date.ts:305-346 | `compatible` answers the earliest instant, or the one showing the wall time moved forward by the gap |
| `WallTime.ZonedInstantByMode` | packages/domain/src/plain-date.ts:314-346 | a date and a time become an instant by the mode asked for: the only one or a refusal, or the earliest or shifted one; anything else is refused |
| `WallTime.WallTimesRead` | packages/domain/src/plain-date.ts:23-23 | exactly the texts HH:mm and HH:mm:ss of a day are read, each as its second |
| `WallTime.InputsNameTheWallTime` | packages/domain/src/plain-date.ts:192-195 | date key and time of day of an instant, put together again, name its wall time to the minute |
| `Kpi.StartOfMonth` | packages/domain/src/kpi.ts:41-45 | a period's start is its day's month counted down to a multiple of the period |
| `Kpi.StartsOnItsMonth` | packages/domain/src/kpi.ts:38-45 | a month starts in its month, a quarter in the January, April, July or October at most two months before, a year in January |
| `Kpi.StepsByMonths` | packages/domain/src/kpi.ts:38-54 | so many periods on is one, three or twelve months each on |
| `Kpi.StepAddsMonths` | packages/domain/src/kpi.ts:48-54 | a step adds the periods' months and stays aligned exactly in the four-digit years |
| `Kpi.AddKpiPeriodsIsAdditive` | packages/domain/src/kpi.ts:48-54 | steps add up |
| `Kpi.DayLiesInItsPeriod` | packages/domain/src/kpi.ts:41-54 | a day lies between its period's start and the next one's; a start is its own |
| `Kpi.RecentPeriodsDescend` | packages/domain/src/kpi.ts:57-60 | the window starts with today's period and each start is one period before the last |
| `Duty.MoveLands` | packages/domain/src/duty.ts:204-216 | a move lands on the only instant showing the same minute that many days later, or keeps that wall time as typed when none or two do |
| `Duty.MovedShiftKeepsItsTimes` | packages/domain/src/duty.ts:204-216 | a moved shift is the same person's, and each of its two endpoints is the one instant showing its minute that many days later, or that date and time as typed when none or two do |
| `Duty.MoveUndoneIffUnambiguous` | packages/domain/src/duty.ts:197-216 | a whole-minute endpoint comes back after moving on and back iff its own wall time was unambiguous |
| `Duty.ShiftMovesUndo` | packages/domain/src/duty.ts:197-216 | a shift of unambiguous whole-minute endpoints comes back unchanged when both landed on an instant |
| `Duty.WeekIsSevenDays` | packages/domain/src/duty.ts:228-234 | the week filter keeps exactly the shifts starting on its seven days |
| `Duty.CopyKeepsWallTimes` | packages/domain/src/duty.ts:223-236 | the copies follow the week's shifts one to one and in order, each the same person's, start and end each at its own minute exactly seven days later, or as typed when no or two instants show it |
| `Duty.WeekShiftsAreASubsequence` | packages/domain/src/duty.ts:223-236 | the copied shifts are the list's shifts of that week, in its order |
| `DutyRoster.ValidateDutyShifts` | packages/domain/src/duty.ts:95-125 | refuses at the first bad shift for its first fault; otherwise the same shifts, sorted, a sorted list unchanged |
| `DutyRoster.AcceptableExactlyWhen` | packages/domain/src/duty.ts:100-115 | a shift is good iff it has a row id of a user and two instants, the end after the start by at most fourteen days |
| `DutyRoster.DutyShiftOverlaps` | packages/domain/src/duty.ts:167-180 | exactly the index pairs that overlap, each once and in order |
| `DutyRoster.OverlapMeansTogether` | packages/domain/src/duty.ts:148-180 | two valid shifts overlap iff both run at some instant |
| `Training.CourseOf` | packages/domain/src/training.ts:402-435 | a course is done or due soon iff it has lessons and all count, due soon iff one of them may be completed again; expired iff not all count, but all have a receipt and the course expires; else open; it counts exactly the lessons that count, its due day is the earliest, its receipt a newest one |
| `Training.DueMonthsLater` | packages/domain/src/training.ts:340-347 | a receipt is due its validity's months after its completion day in the zone, cut to the month's last day, and never without a validity or with one of zero |
| `Training.StateIsByDays` | packages/domain/src/training.ts:363-381 | a lesson counts iff its due day lies ahead and may be repeated iff it is at most thirty days off |
| `Training.LessonByItsReceipt` | packages/domain/src/training.ts:363-381 | a lesson counts iff it has a receipt and the course never expires or its receipt is readable with the due day ahead; it may be completed iff it has none, or in a course that expires an unreadable one or one due within thirty days |
| `Training.LessonIsTold` | packages/domain/src/training.ts:363-381 | on a real day every lesson has a state unless its due day leaves the years of the keys |
| `Training.StatusOnlyAges` | packages/domain/src/training.ts:402-435 | with readable, unchanged receipts the status only goes done, due soon, expired as days pass |
| `Training.NewestReceipts` | packages/domain/src/training.ts:438-454 | the map is the rows noted in their order, the first of equals kept; it holds exactly the lessons with a row, each with a receipt none of its rows is newer than |
| `Training.OrderShowsExactlyInATie` | packages/domain/src/training.ts:437-454 | a lesson keeps the same instant for every order and duplication of its rows iff they do not tie at the epoch: none after 1970, one at 1970-01-01T00:00Z and one unreadable |
| `Training.NewestIgnoresOrder` | packages/domain/src/training.ts:437-454 | a lesson with a receipt from after 1970 keeps the newest of them in every order |
| `Training.AtTheEpochOrderShows` | packages/domain/src/training.ts:449-451 | the input: two receipts that tie, kept one or the other by their order |
| `SecretShare.ParseRecovers` | packages/domain/src/secret-share.ts:414-430 | the parser recovers document, sender, recipient and expiry from every printed binding |
| `SecretShare.PrintsExactlyWhen` | packages/domain/src/secret-share.ts:415-422 | a string is printed iff document id, both row ids and expiry are well formed |
| `SecretShare.BindingIsUnambiguous` | packages/domain/src/secret-share.ts:407-430 | two valid bindings with one string are one binding |
| `SecretShare.InstantRoundTrip` | packages/domain/src/secret-share.ts:428-428 | an expiry's ISO text reads back to it, years outside 0 to 9999 included |
| `SearchBatches.Cut` | apps/cms/src/search/meili-index.ts:257-281 | the batches are the documents in order, each JSON body within the bound, none empty, none with room for the next document; it throws at the first document over the bound, and only then |
| `SearchBatches.CutIsMinimal` | apps/cms/src/search/meili-index.ts:252-281 | no other in-order split that fits uses fewer batches |
| `SearchIndex.RebuildIsSafe` | apps/cms/src/search/meili-index.ts:283-322 | with any fault at any call a live index stays one and holds its content or exactly some rebuild's documents; the empty one is made only where there was none; a successful rebuild's own documents are live |
| `SearchIndex.NoSwapNoChange` | apps/cms/src/search/meili-index.ts:283-287 | with a live index there, a rebuild whose swap the server never took leaves it untouched |
| `SearchIndex.LiveIndexIsAlwaysWhole` | apps/cms/src/search/meili-index.ts:344-371 | over every run of minutes: once there is a live index there always is one, with its content until it holds exactly what one minute loaded; before that there is none or the empty one |
| `SearchIndex.SuccessfulSync` | apps/cms/src/search/meili-index.ts:336-371 | a successful minute leaves the published documents live iff, with the queued tasks it finds worked off, it had a reason to rebuild or they were live already |
| `SearchIndex.ChecksExactlyWhen` | apps/cms/src/search/meili-index.ts:362-371 | a successful minute checks the content and remembers it iff the index is gone, nothing is remembered, the probe moved or the last check is an hour ago; any other leaves all as it is |
| `SearchIndex.LiveIsWithinTheHour` | apps/cms/src/search/meili-index.ts:336-371 | from a new process on, while the minutes succeed, the live index is exactly the content one of them read less than an hour ago with no probe moved since, whatever the probes tell of the content |
| `SearchIndex.AgreementIsKept` | apps/cms/src/search/meili-index.ts:336-371 | while the process agrees with the index every successful minute leaves the published documents live, and a failure before the swap keeps the agreement |
| `SearchIndex.FallsBehindExactlyWhen` | apps/cms/src/search/meili-index.ts:344-371 | while no rebuild succeeds the process remembers the same content, and falls behind its index iff in some minute the index moves to what a failed minute's swap brings and stays there |
| `SearchIndex.ProcessesFallBehindExactlyWhen` | apps/cms/src/search/meili-index.ts:344-371 | from a new process on: what it remembers is what its last good rebuild loaded, and the live index differs iff a minute since then failed after its swap and that swap's other documents came and stayed |
| `SearchIndex.RememberedIndexStays` | apps/cms/src/search/meili-index.ts:344-371 | an index taken for the one of unchanged content stays for any number of minutes, in any weather |
| `SearchIndex.FailedCleanupLeavesTheStateBehind` | apps/cms/src/search/meili-index.ts:319-371 | the runs after a failed cleanup, of any length |
| `SearchIndex.LateSwapLeavesTheStateBehind` | apps/cms/src/search/meili-index.ts:222-243 | the runs after a swap made later than it was waited for, of any length |
| `SearchIndex.MissingIndexStaysEmpty` | apps/cms/src/search/meili-index.ts:315-371 | the runs after a missing index, of any length |
| `SearchIndex.Indexer.RebuildSearchIndex` | apps/cms/src/search/meili-index.ts:288-322 | the calls in order, stopping at the first that fails, are the rebuild of the documents as cut |
| `SearchIndex.Indexer.SyncSearchIndex` | apps/cms/src/search/meili-index.ts:344-371 | one minute of the cron task; the state advances only when all of it succeeded, and no batches are cut iff it does not rebuild or a document is over the bound |
| `Permissions.KeyIsInjective` | apps/cms/src/bootstrap/sync-permissions.ts:165-165 | a key names one pair among those whose actions have no space |
| `Permissions.PlainKeyIsItsOwn` | apps/cms/src/bootstrap/sync-permissions.ts:165-165 | a key of the code, whose roles and actions have no space, is the key of no other pair at all |
| `Permissions.PlanPermissionSync` | apps/cms/src/bootstrap/sync-permissions.ts:173-216 | the plan lists exactly the missing pairs of existing roles, each once when the desired are unique, every row of a revoked and unwanted pair in ascending order, and the drift |
| `Permissions.PermissionTable.SyncRolePermissions` | apps/cms/src/bootstrap/sync-permissions.ts:285-335 | afterwards the stored pairs are the old ones less the revoked plus the desired of existing roles, no pair with two new rows, other rows untouched; an error at any create or delete rolls all back, and a converged table is not written |
| `Permissions.SyncConverges` | apps/cms/src/bootstrap/sync-permissions.ts:167-172 | the planned writes leave nothing missing and nothing revoked |
| `Permissions.PlannedMeansNotConverged` | apps/cms/src/bootstrap/sync-permissions.ts:268-276 | a plan writes only to a table that has not converged |
| `Permissions.PermissionTable.DeleteInChunks` | apps/cms/src/bootstrap/sync-permissions.ts:318-322 | the chunks together delete exactly the listed ids, unless one of them fails |
| `DesiredGrants.ComputeDesiredGrants` | apps/cms/src/bootstrap/permission-matrix.ts:768-791 | a pair is desired iff a custom grant gives the action to the role (or to every role of the matrix), or the matrix names the action of a uid for it, or it is a user-read action of a role of the matrix, the last two not revoked; each once with exactly its sources |
| `Notifications.WhereMeansTheRule` | apps/cms/src/cron/prune-notifications.ts:147-191 | the where clause is true of a stored row iff the pure rule holds of it |
| `Notifications.PrunableExactlyWhen` | apps/cms/src/cron/prune-notifications.ts:127-162 | a row may go iff it has no source and was read and created more than ninety days ago, or is unread and was created more than a hundred and eighty days ago |
| `Notifications.DeleteTakesOnlyPrunable` | apps/cms/src/cron/prune-notifications.ts:250-256 | a delete takes exactly the rows among its ids that are prunable in the state it finds |
| `Notifications.Janitor.PruneNotifications` | apps/cms/src/cron/prune-notifications.ts:232-268 | whatever others write before each page and each delete: every batch reads what they left, takes its page after the last one and deletes exactly that page's prunable ids from what it then finds, until a short page or two hundred batches, so only rows prunable at their delete go; when nobody writes, the first hundred thousand prunable rows go and nothing else |
| `Notifications.NextPage` | apps/cms/src/cron/prune-notifications.ts:240-262 | each page is the next five hundred prunable rows and its delete takes exactly them |

## Left out

- ScheduleSelection.PublishSelectionAgrees: is about the where clause; order and limit are `DueBatches.PublishBatchAgrees`.
- ScheduleRuns.OneChangePerRevision: speaks of content rows; the version row of a deleted document may be created again by a late failure record.
- SignInExchange.ConflictIsAnotherRows: deletions of users and moving an identity to another row are not among the steps.
- SignInExchange.CreatedMeansInserted: an insert that commits while its acknowledgement is lost is not among the faults.
- UserTable.Table.CreateIdentity: the queries around the two transactions are the steps of `SignInExchange`, not a method.
- SearchIndex.SuccessfulSync: equal probes are taken to mean unchanged content.
- SearchIndex.LiveIsWithinTheHour: every minute succeeds; what failing ones leave is `SearchIndex.FallsBehindExactlyWhen`.
- Permissions.PlanPermissionSync: the code's own roles and actions are taken to have no space, stored ones may hold anything; the drift is a set of pairs, its order for the log is not modelled.
- Managers.LinksDoNotDependOnOrder: is about sign-ins one after the other; overlapping ones are `NewManagers` and `WaitingReports`.
- NewManagers.OverlappingSignInsLinkExactlyWhen: report and manager sign in once each, without an error of their own and unblocked; everybody else as they like.
- DueBatches.EveryDueRowIsSelected: how often a row before it is selected is a parameter; `Scheduler.RetriesAreCounted` bounds it for withdrawals while recording works.
- Duty.MoveUndoneIffUnambiguous: endpoints are instants or typed texts; parsing their ISO strings is not modelled.
- DutyRoster.ValidateDutyShifts: sorts a value instead of an array in place.
- Notifications.WhereMeansTheRule: stored instants are readable numbers or NULL; unreadable texts cannot be stored in the columns.
- The anchor pass of the notification janitor, the probe's queries and the shape of search documents: they would add only simple members.
- Audit rows, log lines, notifications after a commit, the digest, the network client and token checks.
- The order in which the scheduler walks the types, and switched-off modules.
- The lifecycles and the validation inside a publish: they are errors a transaction may throw at any statement.
- The cache of formatters, unknown zones and localised display: a zone is given as its offsets.
- The hash behind the search fingerprint is taken as injective: the process remembers the content itself.
- Zones with two changes within two days, offsets of a day or more, and dates within three days of the years 100 and 9999.
