# Staff scheduling and staff data services

This project models the core of two Spring services in Dafny and proves
properties of the model.

**The scheduling service** turns a staff group and a week into a shift
schedule.
- Submitting a request (`ScheduleServiceImpl.generateSchedule`) stores a PENDING job and runs the worker on it.
- The worker (`ScheduleGeneratorService.generateScheduleAsync`):
  - takes a Redis lock on the job;
  - fetches the group's staff;
  - walks the period day by day and staff member by staff member, choosing a shift that the configured rules allow: no morning after an evening, a minimum number of days off per week with a Sunday backfill, and a cap on mornings and evenings;
  - stores the assignments or a failure message;
  - releases the lock with a compare-and-delete script (`LockService`).
- A daily sweep (`ScheduleJobCleanupService`) moves a job:
  - from PENDING to PROCESSING when its first shift was yesterday;
  - from PROCESSING to COMPLETED when its last shift was yesterday.

`DateUtil` gives the Monday-to-Sunday week around a date.

**The data service** keeps staff and staff groups in Elasticsearch. Writers are
guarded by Redis `setIfAbsent` locks.
- Staff groups form a tree:
  - each group stores its parent's id;
  - each group stores a list of snapshots (`StaffGroupChildDto`) of its children.
- `StaffGroupServiceImpl` creates, updates and deletes groups, and keeps both directions of the tree in step by saving every touched document.
- It also adds and removes members, resolves a group's members through its sub-groups, and imports a file of groups in two phases:
  - phase 1 creates the groups for new codes;
  - phase 2 hangs each group under its parent.
- `StaffServiceImpl` creates, updates, deletes (removing the staff id from every group) and imports staff.
- `StaffGroupMapper` takes the child snapshots.
- `MyResponse` is the controllers' response envelope.

How the model is built:
- **Stateful classes.** The repositories, the lock service, the Redis template and the services are Dafny classes.
  - Their tables are `map` fields keyed by id.
  - Their methods carry `modifies` clauses and state the whole new state.
- **Service methods against functions.** Every service method with a loop is proved equal to a function of the stored tables, and the properties are proved about those functions:
  - `StaffGroupRules` covers create, update, delete and resolve;
  - `StaffGroupImport` covers both import phases;
  - `ScheduleCleanup` covers the sweep;
  - the `PartialSchedule` invariant covers the generator.
- **Dates** are epoch day numbers.
- **Values the source draws from the environment are parameters.** These are:
  - UUIDs (`newId`, `newIds`, `lockValue`);
  - `LocalDate.now()` (`today`);
  - the staff list the data service answers (`staffIds`);
  - an exception raised while generating (`fault`).

## Model

Source cells are paths from the repository root.

| member | source | states |
|---|---|---|
| DateUtil.DayOfWeek | aio-scheduling-service/src/main/java/org/example/aioschedulingservice/application/utils/DateUtil.java:15-21 | the ISO day of week of a date lies in Monday..Sunday |
| DateUtil.DayOfWeekAdvance | aio-scheduling-service/src/main/java/org/example/aioschedulingservice/application/utils/DateUtil.java:15-21 | moving k < 7 days forward advances the day of week by k modulo 7 |
| DateUtil.DayOfWeekFromMonday | aio-scheduling-service/src/main/java/org/example/aioschedulingservice/application/utils/DateUtil.java:15-21 | the k-th day after a Monday has day of week k + 1 |
| DateUtil.GetStartOfWeek | aio-scheduling-service/src/main/java/org/example/aioschedulingservice/application/utils/DateUtil.java:15-17 | the result is a Monday, at most six days before the date, and no Monday lies between it and the date (previousOrSame) |
| DateUtil.GetEndOfWeek | aio-scheduling-service/src/main/java/org/example/aioschedulingservice/application/utils/DateUtil.java:19-21 | the result is a Sunday, at most six days after the date, and no Sunday lies between the date and it (nextOrSame) |
| DateUtil.StartOfWeekIdempotent | aio-scheduling-service/src/main/java/org/example/aioschedulingservice/application/utils/DateUtil.java:15-17 | a Monday is its own start of week; adjusting twice equals adjusting once |
| DateUtil.EndOfWeekIdempotent | aio-scheduling-service/src/main/java/org/example/aioschedulingservice/application/utils/DateUtil.java:19-21 | a Sunday is its own end of week; adjusting twice equals adjusting once |
| DateUtil.EndOfStartOfWeek | aio-scheduling-service/src/main/java/org/example/aioschedulingservice/application/utils/DateUtil.java:15-21 | the week starting at getStartOfWeek(d) ends exactly six days later |
| DateUtil.WeekContainsDay | aio-scheduling-service/src/main/java/org/example/aioschedulingservice/application/utils/DateUtil.java:15-21 | every date lies in its own Monday-to-Sunday week, which is seven days long |
| Locks.Acquire | aio-scheduling-service/src/main/java/org/example/aioschedulingservice/application/services/LockService.java:21-29 | SET NX succeeds exactly when the key is absent; the key then holds the caller's value, otherwise the holder's; no other key changes |
| Locks.Release | aio-scheduling-service/src/main/java/org/example/aioschedulingservice/application/services/LockService.java:31-49 | the compare-and-delete script succeeds exactly when the key holds the caller's value, and then removes only that key; otherwise nothing changes |
| Locks.Expire | aio-scheduling-service/src/main/java/org/example/aioschedulingservice/application/services/LockService.java:22 | when the time-to-live runs out, the key disappears whoever holds it, and nothing else changes |
| Locks.AcquireExcludes | aio-scheduling-service/src/main/java/org/example/aioschedulingservice/application/services/LockService.java:21-29 | mutual exclusion: once one value holds the key, a second acquire fails and leaves the first holder in place |
| Locks.ForeignReleaseKeepsHolder | aio-scheduling-service/src/main/java/org/example/aioschedulingservice/application/services/LockService.java:31-49 | releasing with a value other than the holder's fails and keeps the holder |
| Locks.ReleaseThenReacquire | aio-scheduling-service/src/main/java/org/example/aioschedulingservice/application/services/LockService.java:21-49 | acquire then release by the same value restores the store, and the lock can be taken again |
| Locks.ExpireFreesKey | aio-scheduling-service/src/main/java/org/example/aioschedulingservice/application/services/LockService.java:22 | after expiry any new holder can take the key |
| Locks.LockService.AcquireLock | aio-scheduling-service/src/main/java/org/example/aioschedulingservice/application/services/LockService.java:21-29 | answers and updates the store as SET NX does |
| Locks.LockService.ReleaseLock | aio-scheduling-service/src/main/java/org/example/aioschedulingservice/application/services/LockService.java:31-49 | answers and updates the store as the release script does |
| ScheduleDomain.SavedAll | aio-scheduling-service/src/main/java/org/example/aioschedulingservice/infrastructure/repositories/ScheduleJobRepository.java:11 | saving a batch adds exactly the batch's ids and leaves every other job as it was |
| ScheduleDomain.ScheduleJobRepository.FindById | aio-scheduling-service/src/main/java/org/example/aioschedulingservice/infrastructure/repositories/ScheduleJobRepository.java:11 | finds a job exactly when its id is stored, and returns the stored job |
| ScheduleDomain.ScheduleJobRepository.FindByStatus | aio-scheduling-service/src/main/java/org/example/aioschedulingservice/infrastructure/repositories/ScheduleJobRepository.java:12 | returns exactly the ids of the jobs in the given status |
| ScheduleDomain.ScheduleJobRepository.SaveAll | aio-scheduling-service/src/main/java/org/example/aioschedulingservice/infrastructure/repositories/ScheduleJobRepository.java:11 | the table becomes the saved batch over the old table, and every job stays under its own id |
| ScheduleGenerator.DayCount | aio-scheduling-service/src/main/java/org/example/aioschedulingservice/application/services/ScheduleGeneratorService.java:114 | the day loop runs 7 * periodWeeks times, and not at all when periodWeeks <= 0 |
| ScheduleGenerator.RemoveShift | aio-scheduling-service/src/main/java/org/example/aioschedulingservice/application/services/ScheduleGeneratorService.java:122-173 | removing a shift from the distinct candidate list keeps exactly the other candidates, still distinct |
| ScheduleGenerator.Occurrences | aio-scheduling-service/src/main/java/org/example/aioschedulingservice/application/services/ScheduleGeneratorService.java:165-173 | the count of a shift in a history is bounded by its length and is zero exactly when the shift is absent |
| ScheduleGenerator.DayOffsInWeek | aio-scheduling-service/src/main/java/org/example/aioschedulingservice/application/services/ScheduleGeneratorService.java:131-135 | the day-off count of a staff member in a week is bounded by the number of assignments |
| ScheduleGenerator.FindAssignment | aio-scheduling-service/src/main/java/org/example/aioschedulingservice/application/services/ScheduleGeneratorService.java:148-151 | findFirst: the first assignment of the staff member on that date, or none exactly when there is none |
| ScheduleGenerator.FindAssignmentIgnoresShift | aio-scheduling-service/src/main/java/org/example/aioschedulingservice/application/services/ScheduleGeneratorService.java:146-158 | rewriting shift types never moves what a findFirst lookup finds, so the backfill cannot change its own lookups |
| ScheduleGenerator.BackfillDayOffs | aio-scheduling-service/src/main/java/org/example/aioschedulingservice/application/services/ScheduleGeneratorService.java:145-158 | walking back from Saturday to Tuesday turns at most `missing` of the staff member's earlier assignments into DAY_OFF, each the first on its date; if fewer were rewritten, every date in that range was visited |
| ScheduleGenerator.BackfillWeekday | aio-scheduling-service/src/main/java/org/example/aioschedulingservice/application/services/ScheduleGeneratorService.java:146-147 | in the six days before a Sunday, only the first is a Monday, which is where the backfill stops |
| ScheduleGenerator.AssignAndRecordShift | aio-scheduling-service/src/main/java/org/example/aioschedulingservice/application/services/ScheduleGeneratorService.java:187-199 | appends the assignment and records it as the staff member's latest shift and in their history |
| ScheduleGenerator.PlanStaffDay | aio-scheduling-service/src/main/java/org/example/aioschedulingservice/application/services/ScheduleGeneratorService.java:118-180 | one staff member on one day: a forced DAY_OFF exactly on a Sunday with day-offs enabled, otherwise a candidate no rule excludes (or the fallback); the earlier assignments only ever turn into DAY_OFF |
| ScheduleGenerator.ForceSundayDayOff | aio-scheduling-service/src/main/java/org/example/aioschedulingservice/application/services/ScheduleGeneratorService.java:138-160 | on a Sunday a staff member is short of day-offs: records DAY_OFF for today and backfills the missing ones earlier in the week |
| ScheduleGenerator.BackfillOnPrefix | aio-scheduling-service/src/main/java/org/example/aioschedulingservice/application/services/ScheduleGeneratorService.java:138-160 | the backfill, run after today's DAY_OFF was appended, only rewrites earlier assignments and leaves today's in place |
| ScheduleGenerator.PartialSchedule | aio-scheduling-service/src/main/java/org/example/aioschedulingservice/application/services/ScheduleGeneratorService.java:113-182 | the generator's loop invariant: dates within the days done, one assignment per staff member and date, staff from the list, no MORNING after EVENING when that rule is on, no DAY_OFF when day-offs are off |
| ScheduleGenerator.GenerateShiftAssignments | aio-scheduling-service/src/main/java/org/example/aioschedulingservice/application/services/ScheduleGeneratorService.java:101-185 | every assignment falls within the period and belongs to a given staff member, one per staff member and date; never a MORNING after an EVENING when that rule is on; no DAY_OFF when day-offs are off, and then exactly one assignment per staff member and day. Each day of the period reaches a prefix of the staff list and nobody else: the whole list, or a shorter prefix on a Sunday with day-offs on, ending at the member whose forced day off, DAY_OFF, ended the day |
| ScheduleGenerator.PlanDay | aio-scheduling-service/src/main/java/org/example/aioschedulingservice/application/services/ScheduleGeneratorService.java:114-182 | one day keeps the schedule invariants and reaches a prefix of the staff list: all of it, or up to the member whose forced Sunday day off returns early, whose assignment that day is DAY_OFF |
| ScheduleGenerator.StepKeepsServed | aio-scheduling-service/src/main/java/org/example/aioschedulingservice/application/services/ScheduleGeneratorService.java:118-180 | a step of the staff loop keeps every earlier day as served and adds today's member to the ones served today |
| ScheduleGenerator.ForcedDayServed | aio-scheduling-service/src/main/java/org/example/aioschedulingservice/application/services/ScheduleGeneratorService.java:138-160 | a forced Sunday day off closes the day with the staff up to and including the forced member |
| ScheduleGenerator.ForcedDayEnds | aio-scheduling-service/src/main/java/org/example/aioschedulingservice/application/services/ScheduleGeneratorService.java:138-160 | on the day of a forced Sunday day off only the staff up to the forced member appear, each has an assignment, and the forced member's is DAY_OFF |
| ScheduleGenerator.StepKeepsInvariants | aio-scheduling-service/src/main/java/org/example/aioschedulingservice/application/services/ScheduleGeneratorService.java:118-180 | one inner-loop step keeps the schedule invariants of the generator |
| ScheduleGenerator.StepKeepsNoMorningAfterEvening | aio-scheduling-service/src/main/java/org/example/aioschedulingservice/application/services/ScheduleGeneratorService.java:122-127 | the rule that strikes MORNING after an EVENING keeps the whole schedule free of that pattern |
| ScheduleGenerator.JobLockKey | aio-scheduling-service/src/main/java/org/example/aioschedulingservice/application/services/ScheduleGeneratorService.java:54 | the job's lock key is "lock:job" followed by the job id |
| ScheduleGenerator.NoStaffMessage | aio-scheduling-service/src/main/java/org/example/aioschedulingservice/application/services/ScheduleGeneratorService.java:73-79 | the failure text names the staff group |
| ScheduleGenerator.InternalErrorMessage | aio-scheduling-service/src/main/java/org/example/aioschedulingservice/application/services/ScheduleGeneratorService.java:86-91 | the failure text starts with the fixed prefix "Internal error during schedule generation: " and ends with the exception's message |
| ScheduleGenerator.ScheduleGeneratorService.GenerateScheduleAsync | aio-scheduling-service/src/main/java/org/example/aioschedulingservice/application/services/ScheduleGeneratorService.java:53-99 | the lock store ends as it began. If the lock is held, the job is unknown or the job is not PENDING, the table is untouched. Otherwise only that job changes: FAILED with the no-staff or internal-error message, or completed with a schedule that satisfies the generator's guarantees, each day reaching a prefix of the staff list |
| ScheduleCleanup.MinAssignmentDate | aio-scheduling-service/src/main/java/org/example/aioschedulingservice/infrastructure/repositories/ShiftAssignmentRepository.java:13-14 | SQL MIN: null exactly for no assignments, else the earliest assignment date |
| ScheduleCleanup.MaxAssignmentDate | aio-scheduling-service/src/main/java/org/example/aioschedulingservice/infrastructure/repositories/ShiftAssignmentRepository.java:15-16 | SQL MAX: null exactly for no assignments, else the latest assignment date |
| ScheduleCleanup.PromotePending | aio-scheduling-service/src/main/java/org/example/aioschedulingservice/application/services/ScheduleJobCleanupService.java:30-42 | the first pass keeps the set of jobs |
| ScheduleCleanup.PromoteProcessing | aio-scheduling-service/src/main/java/org/example/aioschedulingservice/application/services/ScheduleJobCleanupService.java:44-56 | the second pass keeps the set of jobs |
| ScheduleCleanup.Sweep | aio-scheduling-service/src/main/java/org/example/aioschedulingservice/application/services/ScheduleJobCleanupService.java:26-57 | the sweep keeps exactly the jobs it was given; what it does to each is proved in the lemmas below |
| ScheduleCleanup.SweepChangesOnlyStatus | aio-scheduling-service/src/main/java/org/example/aioschedulingservice/application/services/ScheduleJobCleanupService.java:35-49 | the sweep writes nothing but the status field |
| ScheduleCleanup.SweepMovesForward | aio-scheduling-service/src/main/java/org/example/aioschedulingservice/application/services/ScheduleJobCleanupService.java:26-57 | status only moves forward along PENDING, PROCESSING, COMPLETED; COMPLETED and FAILED jobs are untouched and no job becomes FAILED |
| ScheduleCleanup.NoAssignmentsNoPromotion | aio-scheduling-service/src/main/java/org/example/aioschedulingservice/application/services/ScheduleJobCleanupService.java:33-48 | a job without assignments (null MIN/MAX) is never promoted |
| ScheduleCleanup.OneDayJobCompletesInOneSweep | aio-scheduling-service/src/main/java/org/example/aioschedulingservice/application/services/ScheduleJobCleanupService.java:40-48 | the second pass sees the first pass's saves: a PENDING job whose only date was yesterday is COMPLETED after one sweep |
| ScheduleCleanup.SweepOutcome | aio-scheduling-service/src/main/java/org/example/aioschedulingservice/application/services/ScheduleJobCleanupService.java:26-57 | exactly which status each job has after one sweep, in terms of its status and first and last dates |
| ScheduleCleanup.PassCoversStatus | aio-scheduling-service/src/main/java/org/example/aioschedulingservice/application/services/ScheduleJobCleanupService.java:30-39 | looping over exactly the PENDING jobs performs the first pass |
| ScheduleCleanup.SecondPassCoversStatus | aio-scheduling-service/src/main/java/org/example/aioschedulingservice/application/services/ScheduleJobCleanupService.java:44-53 | looping over exactly the PROCESSING jobs (re-read after the first save) performs the second pass |
| ScheduleCleanup.ScheduleJobCleanupService.ProcessProcessingAndCompletedJobs | aio-scheduling-service/src/main/java/org/example/aioschedulingservice/application/services/ScheduleJobCleanupService.java:26-57 | the job table becomes the sweep of the old table for yesterday = today - 1 |
| ScheduleCleanup.ScheduleJobCleanupService.PromoteBatch | aio-scheduling-service/src/main/java/org/example/aioschedulingservice/application/services/ScheduleJobCleanupService.java:32-39 | the batch collected by one pass, once saved, yields the table with every qualifying job promoted |
| ScheduleService.NotFoundMessage | aio-scheduling-service/src/main/java/org/example/aioschedulingservice/application/services/ScheduleServiceImpl.java:74 | the not-found text ends with the schedule id |
| ScheduleService.NewJob | aio-scheduling-service/src/main/java/org/example/aioschedulingservice/application/services/ScheduleServiceImpl.java:54-59 | the new job is PENDING under the new id, with the request's group and week, no assignments and no error |
| ScheduleService.ToAssignmentDtos | aio-scheduling-service/src/main/java/org/example/aioschedulingservice/application/services/ScheduleServiceImpl.java:89-91 | one DTO per assignment, in order, with its staff, date and shift |
| ScheduleService.AssignmentDtosRoundTrip | aio-scheduling-service/src/main/java/org/example/aioschedulingservice/application/services/ScheduleServiceImpl.java:89-91 | the DTO list loses nothing: mapping back gives the stored assignments |
| ScheduleService.ScheduleServiceImpl.GenerateSchedule | aio-scheduling-service/src/main/java/org/example/aioschedulingservice/application/services/ScheduleServiceImpl.java:48-68 | stores the new job and runs the worker on it; only that job is added; the response carries the job's final status and error |
| ScheduleService.ScheduleServiceImpl.GetJobStatus | aio-scheduling-service/src/main/java/org/example/aioschedulingservice/application/services/ScheduleServiceImpl.java:70-81 | answers exactly for stored jobs, with their status and error; otherwise ResourceNotFound with the id |
| ScheduleService.ScheduleServiceImpl.GetGeneratedSchedule | aio-scheduling-service/src/main/java/org/example/aioschedulingservice/application/services/ScheduleServiceImpl.java:83-98 | answers exactly for stored jobs, with their header and one DTO per assignment; otherwise ResourceNotFound |
| DataDomain.GroupByCode | aio-data-service/src/main/java/org/example/aiodataservice/infrastructure/repositories/StaffGroupRepository.java:12 | some stored group carrying the code, present exactly when one exists |
| DataDomain.SavedGroups | aio-data-service/src/main/java/org/example/aiodataservice/infrastructure/repositories/StaffGroupRepository.java:11 | saveAll adds exactly the batch's ids and leaves other groups alone |
| DataDomain.SavedGroupsLastWins | aio-data-service/src/main/java/org/example/aiodataservice/infrastructure/repositories/StaffGroupRepository.java:11 | when a batch holds several documents with one id, the last one is stored |
| DataDomain.SavedGroupsKeyed | aio-data-service/src/main/java/org/example/aiodataservice/infrastructure/repositories/StaffGroupRepository.java:11 | saving keeps every group under its own id |
| DataDomain.SavedStaff | aio-data-service/src/main/java/org/example/aiodataservice/infrastructure/repositories/StaffRepository.java:13 | saveAll adds exactly the batch's ids and leaves other staff alone |
| DataDomain.RemoveChild | aio-data-service/src/main/java/org/example/aiodataservice/application/services/impl/StaffGroupServiceImpl.java:190 | removeIf keeps exactly the child entries with another id |
| DataDomain.RemoveChildAppend | aio-data-service/src/main/java/org/example/aiodataservice/application/services/impl/StaffGroupServiceImpl.java:190 | removeIf over two lists joined is the two filtered lists joined |
| DataDomain.WithMember | aio-data-service/src/main/java/org/example/aiodataservice/application/services/impl/StaffGroupServiceImpl.java:281-282 | the members gain the staff id, the group is dated today, and nothing else changes |
| DataDomain.WithoutMember | aio-data-service/src/main/java/org/example/aiodataservice/application/services/impl/StaffGroupServiceImpl.java:309-310 | the members lose the staff id, the group is dated today, and nothing else changes |
| DataDomain.MemberOperationsAreSetOperations | aio-data-service/src/main/java/org/example/aiodataservice/application/services/impl/StaffGroupServiceImpl.java:281-309 | adding and removing are idempotent, and removing undoes adding a new member |
| DataDomain.StaffRepository.FindById | aio-data-service/src/main/java/org/example/aiodataservice/infrastructure/repositories/StaffRepository.java:13 | finds exactly a stored id |
| DataDomain.StaffRepository.ExistsById | aio-data-service/src/main/java/org/example/aiodataservice/infrastructure/repositories/StaffRepository.java:13 | true exactly for a stored id |
| DataDomain.StaffRepository.ExistsByStaffCode | aio-data-service/src/main/java/org/example/aiodataservice/infrastructure/repositories/StaffRepository.java:17 | true exactly when some stored staff has the code |
| DataDomain.StaffRepository.SaveAll | aio-data-service/src/main/java/org/example/aiodataservice/infrastructure/repositories/StaffRepository.java:13 | the staff table becomes the batch saved in order |
| DataDomain.StaffRepository.DeleteById | aio-data-service/src/main/java/org/example/aiodataservice/infrastructure/repositories/StaffRepository.java:13 | removes exactly that id |
| DataDomain.StaffGroupRepository.FindById | aio-data-service/src/main/java/org/example/aiodataservice/infrastructure/repositories/StaffGroupRepository.java:11 | finds exactly a stored id |
| DataDomain.StaffGroupRepository.ExistsByGroupCode | aio-data-service/src/main/java/org/example/aiodataservice/infrastructure/repositories/StaffGroupRepository.java:14 | true exactly when some stored group has the code |
| DataDomain.StaffGroupRepository.FindByGroupCode | aio-data-service/src/main/java/org/example/aiodataservice/infrastructure/repositories/StaffGroupRepository.java:12 | for a code at most one group carries: that stored group, present exactly when the code exists |
| DataDomain.StaffGroupRepository.FindAllByMemberIds | aio-data-service/src/main/java/org/example/aiodataservice/infrastructure/repositories/StaffGroupRepository.java:15 | exactly the groups listing the staff id |
| DataDomain.StaffGroupRepository.SaveAll | aio-data-service/src/main/java/org/example/aiodataservice/infrastructure/repositories/StaffGroupRepository.java:11 | the group table becomes the batch saved in order |
| DataDomain.StaffGroupRepository.DeleteById | aio-data-service/src/main/java/org/example/aiodataservice/infrastructure/repositories/StaffGroupRepository.java:11 | removes exactly that id |
| DataDomain.RedisTemplate.SetIfAbsent | aio-data-service/src/main/java/org/example/aiodataservice/application/services/impl/StaffGroupServiceImpl.java:67 | setIfAbsent behaves as SET NX |
| DataDomain.RedisTemplate.Delete | aio-data-service/src/main/java/org/example/aiodataservice/application/services/impl/StaffGroupServiceImpl.java:112 | delete removes the key unconditionally |
| MyResponse.Make | aio-data-service/src/main/java/org/example/aiodataservice/application/dtos/MyResponse.java:18-24 | a null error list becomes empty; every other field is stored as given |
| MyResponse.Success | aio-data-service/src/main/java/org/example/aiodataservice/application/dtos/MyResponse.java:26-28 | success, status 200, no errors, no data |
| MyResponse.SuccessWithData | aio-data-service/src/main/java/org/example/aiodataservice/application/dtos/MyResponse.java:30-32 | success, status 200, no errors, the given data |
| MyResponse.Error | aio-data-service/src/main/java/org/example/aiodataservice/application/dtos/MyResponse.java:34-36 | failure, status 400, the given errors (empty for null), no data |
| MyResponse.ErrorWithStatus | aio-data-service/src/main/java/org/example/aiodataservice/application/dtos/MyResponse.java:38-40 | failure with the given status and errors, no data |
| MyResponse.ErrorIsBadRequest | aio-data-service/src/main/java/org/example/aiodataservice/application/dtos/MyResponse.java:34-40 | the two-argument error is the three-argument one at status 400 |
| MyResponse.FactoriesKeepShape | aio-data-service/src/main/java/org/example/aiodataservice/application/dtos/MyResponse.java:26-40 | every factory yields either success with 200 and no errors, or failure without data |
| StaffGroupMapper.ToChildDto | aio-data-service/src/main/java/org/example/aiodataservice/application/mappers/StaffGroupMapper.java:11-21 | the snapshot copies id, code, name, parent link and dates |
| StaffGroupMapper.ToChildDtoList | aio-data-service/src/main/java/org/example/aiodataservice/application/mappers/StaffGroupMapper.java:23-27 | one snapshot per group, in order |
| StaffGroupMapper.ChildDtoIgnoresSubtree | aio-data-service/src/main/java/org/example/aiodataservice/application/mappers/StaffGroupMapper.java:11-21 | a snapshot does not depend on the group's own children or members |
| StaffGroupMapper.ChildDtoListAppend | aio-data-service/src/main/java/org/example/aiodataservice/application/mappers/StaffGroupMapper.java:23-27 | the list mapping distributes over concatenation |
| StaffGroupRules.Orphaned | aio-data-service/src/main/java/org/example/aiodataservice/application/services/impl/StaffGroupServiceImpl.java:149-150 | a released child has no parent, is dated today, and nothing else changes |
| StaffGroupRules.Unlinked | aio-data-service/src/main/java/org/example/aiodataservice/application/services/impl/StaffGroupServiceImpl.java:190-191 | the parent keeps every other child entry and none for that child, and is dated today |
| StaffGroupRules.WithChildEntry | aio-data-service/src/main/java/org/example/aiodataservice/application/services/impl/StaffGroupServiceImpl.java:104-105 | the parent gains the child's snapshot as its last entry and is dated today |
| StaffGroupRules.Detach | aio-data-service/src/main/java/org/example/aiodataservice/application/services/impl/StaffGroupServiceImpl.java:144-154 | the release walk yields at most one document per child entry; which ones is stated by DetachReleases |
| StaffGroupRules.LinkChildren | aio-data-service/src/main/java/org/example/aiodataservice/application/services/impl/StaffGroupServiceImpl.java:86-97 | the linking loop saves one document and adds one entry per linked child, never more than the ids given |
| StaffGroupRules.DetachReleases | aio-data-service/src/main/java/org/example/aiodataservice/application/services/impl/StaffGroupServiceImpl.java:144-154 | walking child entries releases exactly the stored children that are not kept, each orphaned |
| StaffGroupRules.LinkChildrenSucceeds | aio-data-service/src/main/java/org/example/aiodataservice/application/services/impl/StaffGroupServiceImpl.java:156-168 | linking succeeds exactly when every child id is stored and has no parent (or already this one, on update) |
| StaffGroupRules.LinkChildrenLinksOrphans | aio-data-service/src/main/java/org/example/aiodataservice/application/services/impl/StaffGroupServiceImpl.java:86-97 | every previously parentless child is saved under the parent, and the parent records its snapshot |
| StaffGroupRules.LinkChildrenStopsAtFailure | aio-data-service/src/main/java/org/example/aiodataservice/application/services/impl/StaffGroupServiceImpl.java:86-97 | the linking loop stops at its first failing child: the error of a prefix is the error of the whole |
| StaffGroupRules.RelinkChildren | aio-data-service/src/main/java/org/example/aiodataservice/application/services/impl/StaffGroupServiceImpl.java:143-181 | the children step of an update changes nothing of the group but its children |
| StaffGroupRules.RelinkParent | aio-data-service/src/main/java/org/example/aiodataservice/application/services/impl/StaffGroupServiceImpl.java:184-204 | the parent step of an update changes nothing of the group but its parent link |
| StaffGroupRules.NewGroup | aio-data-service/src/main/java/org/example/aiodataservice/application/services/impl/StaffGroupServiceImpl.java:76-83 | a new group has the id, code and name given, no parent, children or members, and is dated today |
| StaffGroupRules.CreatePlanAsWritten | aio-data-service/src/main/java/org/example/aiodataservice/application/services/impl/StaffGroupServiceImpl.java:71-108 | create with the children guard of line 86 as written; its outcome is stated by CreateAsWrittenSaves |
| StaffGroupRules.CreateAsWrittenSaves | aio-data-service/src/main/java/org/example/aiodataservice/application/services/impl/StaffGroupServiceImpl.java:71-108 | as written: a taken code gives the duplicate error, an unknown parent the not-found error; otherwise the new group has no children and the save batch is the group alone, or the group then its parent with the group's entry appended; no other stored group changes |
| StaffGroupRules.CreateAsWrittenDropsChildren | aio-data-service/src/main/java/org/example/aiodataservice/application/services/impl/StaffGroupServiceImpl.java:86 | a concrete input: a stored parentless child is dropped as written and linked as intended |
| StaffGroupRules.CreateLinksChildren | aio-data-service/src/main/java/org/example/aiodataservice/application/services/impl/StaffGroupServiceImpl.java:71-108 | create succeeds exactly when the code is free, every child is stored and parentless, and the parent is stored. The new group then has the code and name, lists every child as its own, and is the last entry of its parent |
| StaffGroupRules.CreatePlanWalking | aio-data-service/src/main/java/org/example/aiodataservice/application/services/impl/StaffGroupServiceImpl.java:71-108 | create whichever child ids the loop walks: the duplicate-code check, the linking loop, then the parent lookup; its properties are stated by CreateAsWrittenSaves, CreateLinksChildren and CreateKeepsCodesUnique |
| StaffGroupRules.CreatePlan | aio-data-service/src/main/java/org/example/aiodataservice/application/services/impl/StaffGroupServiceImpl.java:71-108 | create as intended, the loop walking every given child id; its properties are stated by CreateLinksChildren |
| StaffGroupRules.UpdatePlan | aio-data-service/src/main/java/org/example/aiodataservice/application/services/impl/StaffGroupServiceImpl.java:129-206 | a successful update saves the group itself first |
| StaffGroupRules.UpdateChecksCode | aio-data-service/src/main/java/org/example/aiodataservice/application/services/impl/StaffGroupServiceImpl.java:131-136 | a null or empty code and a code held by another group are refused with their messages |
| StaffGroupRules.UpdateRewritesGroup | aio-data-service/src/main/java/org/example/aiodataservice/application/services/impl/StaffGroupServiceImpl.java:139-206 | after an update the group has the new code and name, is dated today and keeps its members and creation date; every requested child was stored and free or already its own |
| StaffGroupRules.UpdateCannotAttachRoot | aio-data-service/src/main/java/org/example/aiodataservice/application/services/impl/StaffGroupServiceImpl.java:184-189 | as written, giving a parent to a group that has none fails on the null old-parent lookup |
| StaffGroupRules.UpdateRelinksChildren | aio-data-service/src/main/java/org/example/aiodataservice/application/services/impl/StaffGroupServiceImpl.java:143-181 | with an id list the group's children list holds exactly the snapshots of the listed children that had no parent, each now under the group; without one the list is cleared |
| StaffGroupRules.UpdateSavesChildren | aio-data-service/src/main/java/org/example/aiodataservice/application/services/impl/StaffGroupServiceImpl.java:143-181 | every listed child that had no parent is saved under the group, and every dropped child entry is saved without a parent (for children other than the group and its old and new parent) |
| StaffGroupRules.DeleteReleasesChildren | aio-data-service/src/main/java/org/example/aiodataservice/application/services/impl/StaffGroupServiceImpl.java:243-251 | after a delete every stored child of the group has no parent |
| StaffGroupRules.DeleteUnlinksParent | aio-data-service/src/main/java/org/example/aiodataservice/application/services/impl/StaffGroupServiceImpl.java:235-241 | after a delete the group's parent no longer lists it |
| StaffGroupRules.DeletePlan | aio-data-service/src/main/java/org/example/aiodataservice/application/services/impl/StaffGroupServiceImpl.java:233-251 | a dangling parent id gives the not-found error; otherwise the batch is the parent without the entry, then the released children; stated by DeleteReleasesChildren and DeleteUnlinksParent |
| StaffGroupRules.SavedGroupsAppend | aio-data-service/src/main/java/org/example/aiodataservice/application/services/impl/StaffGroupServiceImpl.java:108 | saving a then b equals saving a + b |
| StaffGroupRules.CreateKeepsCodesUnique | aio-data-service/src/main/java/org/example/aiodataservice/application/services/impl/StaffGroupServiceImpl.java:71-73 | a create keeps group codes unique, whichever child ids its loop walks |
| StaffGroupRules.UpdateKeepsCodesUnique | aio-data-service/src/main/java/org/example/aiodataservice/application/services/impl/StaffGroupServiceImpl.java:134-136 | an update keeps group codes unique |
| StaffGroupRules.ResolvedIsUnion | aio-data-service/src/main/java/org/example/aiodataservice/application/services/impl/StaffGroupServiceImpl.java:440-452 | a resolved group's members are exactly its own united with those of each stored child, resolved |
| StaffGroupRules.ResolvedChildrenUnion | aio-data-service/src/main/java/org/example/aiodataservice/application/services/impl/StaffGroupServiceImpl.java:442-450 | the children's members are exactly the union over the stored children |
| StaffGroupRules.ResolvedFuelMonotone | aio-data-service/src/main/java/org/example/aiodataservice/application/services/impl/StaffGroupServiceImpl.java:440-452 | more recursion depth never changes a completed resolution |
| StaffGroupRules.ResolvedChildrenStopsAtNone | aio-data-service/src/main/java/org/example/aiodataservice/application/services/impl/StaffGroupServiceImpl.java:442-450 | a child that runs out of depth makes the whole resolution run out |
| StaffGroupRules.Resolved | aio-data-service/src/main/java/org/example/aiodataservice/application/services/impl/StaffGroupServiceImpl.java:440-452 | a group's own members united with its children's, recursively; stated by ResolvedIsUnion and ResolvedFuelMonotone |
| StaffGroupImport.GroupImportLockKey | aio-data-service/src/main/java/org/example/aiodataservice/application/services/impl/StaffGroupServiceImpl.java:348 | the import lock key is "lock:staffgroup:import:" followed by the code |
| StaffGroupImport.GroupImportFailure | aio-data-service/src/main/java/org/example/aiodataservice/application/services/impl/StaffGroupServiceImpl.java:435-437 | any failure is rewrapped as a runtime error prefixed "Failed to import staff groups: " |
| StaffGroupImport.ImportedGroupRow | aio-data-service/src/main/java/org/example/aiodataservice/application/services/impl/StaffGroupServiceImpl.java:356-372 | a row yields a group exactly when its code is not stored |
| StaffGroupImport.ImportedGroups | aio-data-service/src/main/java/org/example/aiodataservice/application/services/impl/StaffGroupServiceImpl.java:346-374 | phase 1 creates at most one group per row; which ones is stated by ImportedGroupsFresh and ImportedGroupsComplete |
| StaffGroupImport.ImportedGroupsFresh | aio-data-service/src/main/java/org/example/aiodataservice/application/services/impl/StaffGroupServiceImpl.java:346-374 | phase 1 creates only groups for unstored codes, each a new group of its row |
| StaffGroupImport.ImportedGroupsComplete | aio-data-service/src/main/java/org/example/aiodataservice/application/services/impl/StaffGroupServiceImpl.java:346-374 | phase 1 skips no row whose code is not stored |
| StaffGroupImport.CodeToIdKeys | aio-data-service/src/main/java/org/example/aiodataservice/application/services/impl/StaffGroupServiceImpl.java:370 | the code-to-id map holds exactly the created codes |
| StaffGroupImport.CodeToIdLastWins | aio-data-service/src/main/java/org/example/aiodataservice/application/services/impl/StaffGroupServiceImpl.java:370 | a created code maps to the last group created with it |
| StaffGroupImport.OwnGroup | aio-data-service/src/main/java/org/example/aiodataservice/application/services/impl/StaffGroupServiceImpl.java:384-388 | a row's group is the first created one with its code, else the stored one; it carries the row's code |
| StaffGroupImport.Attach | aio-data-service/src/main/java/org/example/aiodataservice/application/services/impl/StaffGroupServiceImpl.java:411-420 | hanging a group under its parent keeps the created list's length and every queued reference valid |
| StaffGroupImport.Step | aio-data-service/src/main/java/org/example/aiodataservice/application/services/impl/StaffGroupServiceImpl.java:383-428 | one phase-2 row keeps the created list's length and every queued reference valid |
| StaffGroupImport.Phase2Run | aio-data-service/src/main/java/org/example/aiodataservice/application/services/impl/StaffGroupServiceImpl.java:383-428 | a successful phase 2 keeps the created list's length and queues only valid references; it stops at the first failing row (Phase2RunStopsAtFailure) |
| StaffGroupImport.ImportPhase2 | aio-data-service/src/main/java/org/example/aiodataservice/application/services/impl/StaffGroupServiceImpl.java:339-438 | phase 2 runs on the table phase 1 saved into, with phase 1's code-to-id map; stated by ImportKeepsStoredGroups and NothingCreated |
| StaffGroupImport.ImportedTable | aio-data-service/src/main/java/org/example/aiodataservice/application/services/impl/StaffGroupServiceImpl.java:339-438 | the table after a lock-free import: phase 1 saved, then phase 2's documents if it succeeds; stated by ImportKeepsStoredGroups and ImportParentCopiesOverwrite |
| StaffGroupImport.Phase2Keeps | aio-data-service/src/main/java/org/example/aiodataservice/application/services/impl/StaffGroupServiceImpl.java:383-428 | phase 2 changes no group's id, code, name, members or creation date |
| StaffGroupImport.Phase2RunStopsAtFailure | aio-data-service/src/main/java/org/example/aiodataservice/application/services/impl/StaffGroupServiceImpl.java:383-428 | phase 2 stops at its first failing row |
| StaffGroupImport.ImportKeepsStoredGroups | aio-data-service/src/main/java/org/example/aiodataservice/application/services/impl/StaffGroupServiceImpl.java:339-438 | an import neither drops nor renames a stored group, and keeps its members |
| StaffGroupImport.NothingCreated | aio-data-service/src/main/java/org/example/aiodataservice/application/services/impl/StaffGroupServiceImpl.java:356-358 | rows whose codes are all stored create nothing |
| StaffGroupImport.ImportParentCopiesOverwrite | aio-data-service/src/main/java/org/example/aiodataservice/application/services/impl/StaffGroupServiceImpl.java:397-432 | two stored rows under one stored parent: each row reads a fresh copy of the parent, so the parent ends up listing only the second child, while both children point to it |
| StaffGroupImport.UncreatedCodesUnique | aio-data-service/src/main/java/org/example/aiodataservice/application/services/impl/StaffGroupServiceImpl.java:376-378 | after phase 1 every code the file names that no created group carries is still held by at most one group |
| StaffGroupService.CreateGroupLockKey | aio-data-service/src/main/java/org/example/aiodataservice/application/services/impl/StaffGroupServiceImpl.java:65 | the create lock key is "lock:staffgroup:create:" followed by the code |
| StaffGroupService.GroupLockKey | aio-data-service/src/main/java/org/example/aiodataservice/application/services/impl/StaffGroupServiceImpl.java:123 | the group lock key is "lock:staffgroup:" followed by the id |
| StaffGroupService.StaffGroupServiceImpl.LinkLoop | aio-data-service/src/main/java/org/example/aiodataservice/application/services/impl/StaffGroupServiceImpl.java:86-97 | the child-linking loop computes the linking function, stopping at the first failure |
| StaffGroupService.StaffGroupServiceImpl.DetachLoop | aio-data-service/src/main/java/org/example/aiodataservice/application/services/impl/StaffGroupServiceImpl.java:144-154 | the release loop computes the released children |
| StaffGroupService.StaffGroupServiceImpl.PlanCreate | aio-data-service/src/main/java/org/example/aiodataservice/application/services/impl/StaffGroupServiceImpl.java:71-107 | the create body computes the create plan with the children guard of line 86 as written |
| StaffGroupService.StaffGroupServiceImpl.CreateStaffGroup | aio-data-service/src/main/java/org/example/aiodataservice/application/services/impl/StaffGroupServiceImpl.java:64-114 | lock held: "Could not acquire lock" and no change. Otherwise the table becomes the as-written plan's documents saved in order and the new group is returned, or the plan's error leaves the table alone. The lock key is deleted in every case |
| StaffGroupService.StaffGroupServiceImpl.PlanUpdate | aio-data-service/src/main/java/org/example/aiodataservice/application/services/impl/StaffGroupServiceImpl.java:129-206 | the update body computes the update plan |
| StaffGroupService.StaffGroupServiceImpl.RelinkChildrenLoops | aio-data-service/src/main/java/org/example/aiodataservice/application/services/impl/StaffGroupServiceImpl.java:143-181 | the children loops compute the children step |
| StaffGroupService.StaffGroupServiceImpl.RelinkParentLookups | aio-data-service/src/main/java/org/example/aiodataservice/application/services/impl/StaffGroupServiceImpl.java:184-204 | the parent lookups compute the parent step |
| StaffGroupService.StaffGroupServiceImpl.UpdateStaffGroup | aio-data-service/src/main/java/org/example/aiodataservice/application/services/impl/StaffGroupServiceImpl.java:122-212 | lock held: error and no change. Otherwise the plan's documents are saved and the updated group returned, or the plan's error leaves the table alone. The lock key is deleted in every case |
| StaffGroupService.StaffGroupServiceImpl.DeleteStaffGroup | aio-data-service/src/main/java/org/example/aiodataservice/application/services/impl/StaffGroupServiceImpl.java:221-260 | lock held or group missing: the matching error and no change. Otherwise the relinked parent and children are saved, the group is removed and returned, and the lock key is deleted |
| StaffGroupService.StaffGroupServiceImpl.PlanDelete | aio-data-service/src/main/java/org/example/aiodataservice/application/services/impl/StaffGroupServiceImpl.java:233-251 | the delete body computes the delete plan |
| StaffGroupService.StaffGroupServiceImpl.AddStaffToGroup | aio-data-service/src/main/java/org/example/aiodataservice/application/services/impl/StaffGroupServiceImpl.java:269-288 | succeeds exactly when the lock is free and group and staff exist; only that group changes, gaining the member; each failure has its message |
| StaffGroupService.StaffGroupServiceImpl.RemoveStaffFromGroup | aio-data-service/src/main/java/org/example/aiodataservice/application/services/impl/StaffGroupServiceImpl.java:297-316 | succeeds exactly when the lock is free and group and staff exist; only that group changes, losing the member |
| StaffGroupService.StaffGroupServiceImpl.ResolveMembers | aio-data-service/src/main/java/org/example/aiodataservice/application/services/impl/StaffGroupServiceImpl.java:440-452 | the recursive walk computes the resolved members |
| StaffGroupService.StaffGroupServiceImpl.ResolveGroupMembers | aio-data-service/src/main/java/org/example/aiodataservice/application/services/impl/StaffGroupServiceImpl.java:320-324 | not found exactly for an unknown id; otherwise the stored group's resolution |
| StaffGroupService.StaffGroupServiceImpl.GetGroupMembersById | aio-data-service/src/main/java/org/example/aiodataservice/application/services/impl/StaffGroupServiceImpl.java:327-331 | not found exactly for an unknown id; otherwise the group's own members |
| StaffGroupService.StaffGroupServiceImpl.ImportOneGroup | aio-data-service/src/main/java/org/example/aiodataservice/application/services/impl/StaffGroupServiceImpl.java:347-373 | a phase-1 row takes the lock exactly when it is free, yields the row's group, and deletes the key |
| StaffGroupService.StaffGroupServiceImpl.CollectGroupImport | aio-data-service/src/main/java/org/example/aiodataservice/application/services/impl/StaffGroupServiceImpl.java:346-374 | phase 1 stops at the first held lock; with none held it creates phase 1's groups and their code-to-id map |
| StaffGroupService.StaffGroupServiceImpl.OwnRef | aio-data-service/src/main/java/org/example/aiodataservice/application/services/impl/StaffGroupServiceImpl.java:384-388 | the lookup computes the row's group |
| StaffGroupService.StaffGroupServiceImpl.ParentRef | aio-data-service/src/main/java/org/example/aiodataservice/application/services/impl/StaffGroupServiceImpl.java:397-410 | the lookup computes the row's parent |
| StaffGroupService.StaffGroupServiceImpl.Phase2Row | aio-data-service/src/main/java/org/example/aiodataservice/application/services/impl/StaffGroupServiceImpl.java:384-427 | one phase-2 row computes the row step and leaves the lock store as it was |
| StaffGroupService.StaffGroupServiceImpl.RunPhase2 | aio-data-service/src/main/java/org/example/aiodataservice/application/services/impl/StaffGroupServiceImpl.java:383-428 | the phase-2 loop computes phase 2, stopping at the first failing row |
| StaffGroupService.StaffGroupServiceImpl.ImportStaffGroups | aio-data-service/src/main/java/org/example/aiodataservice/application/services/impl/StaffGroupServiceImpl.java:339-438 | succeeds exactly when no row's lock is held and phase 2 succeeds, returning phase 1's groups. With free locks the table becomes the imported table and the keys are deleted; a failure is wrapped. With a held lock nothing is saved and the keys up to it are deleted |
| StaffService.CreateLockKey | aio-data-service/src/main/java/org/example/aiodataservice/application/services/impl/StaffServiceImpl.java:63 | the create lock key is "lock:staff:create:" followed by the code |
| StaffService.StaffLockKey | aio-data-service/src/main/java/org/example/aiodataservice/application/services/impl/StaffServiceImpl.java:93 | the staff lock key is "lock:staff:" followed by the id |
| StaffService.ImportLockFailure | aio-data-service/src/main/java/org/example/aiodataservice/application/services/impl/StaffServiceImpl.java:165-193 | a held lock surfaces as "Failed to import staff data: " followed by the lock message |
| StaffService.ImportRow | aio-data-service/src/main/java/org/example/aiodataservice/application/services/impl/StaffServiceImpl.java:168-181 | a row yields a record exactly when its code is not stored |
| StaffService.ImportedStaff | aio-data-service/src/main/java/org/example/aiodataservice/application/services/impl/StaffServiceImpl.java:158-185 | the import creates at most one record per row; which ones is stated by ImportedStaffFresh and ImportedStaffComplete |
| StaffService.ImportedStaffFresh | aio-data-service/src/main/java/org/example/aiodataservice/application/services/impl/StaffServiceImpl.java:158-185 | an import creates only records for unstored codes, each the record of its row, dated today |
| StaffService.ImportedStaffComplete | aio-data-service/src/main/java/org/example/aiodataservice/application/services/impl/StaffServiceImpl.java:158-185 | an import skips no row whose code is not stored |
| StaffService.ImportedStaffAppend | aio-data-service/src/main/java/org/example/aiodataservice/application/services/impl/StaffServiceImpl.java:158-185 | import order is input order: importing a + b creates a's records, then b's |
| StaffService.ImportKeepsFileDuplicates | aio-data-service/src/main/java/org/example/aiodataservice/application/services/impl/StaffServiceImpl.java:168-181 | two rows with the same new code in one file both create a record, since the check reads only the stored index |
| StaffService.DeleteStaffClearsMembership | aio-data-service/src/main/java/org/example/aiodataservice/application/services/impl/StaffServiceImpl.java:127-132 | after the delete loop no group lists the staff id; exactly the groups that listed it change |
| StaffService.Detached | aio-data-service/src/main/java/org/example/aiodataservice/application/services/impl/StaffServiceImpl.java:127-132 | the group table with the processed groups stripped of the staff id; stated by DeleteStaffClearsMembership |
| StaffService.StaffServiceImpl.CreateStaff | aio-data-service/src/main/java/org/example/aiodataservice/application/services/impl/StaffServiceImpl.java:62-85 | succeeds exactly when the lock is free and the code is new, storing the new record; lock and duplicate errors otherwise; the key is deleted |
| StaffService.StaffServiceImpl.UpdateStaff | aio-data-service/src/main/java/org/example/aiodataservice/application/services/impl/StaffServiceImpl.java:92-111 | succeeds exactly when the lock is free and the id is stored, overwriting code, name and email |
| StaffService.StaffServiceImpl.SaveWithoutMember | aio-data-service/src/main/java/org/example/aiodataservice/application/services/impl/StaffServiceImpl.java:128-132 | the loop strips the staff id from exactly the listed groups |
| StaffService.StaffServiceImpl.DeleteStaff | aio-data-service/src/main/java/org/example/aiodataservice/application/services/impl/StaffServiceImpl.java:121-138 | succeeds exactly for a stored id: the record is removed and the groups become the table with the id stripped from each group listing it; "Staff not found" and no change otherwise |
| StaffService.StaffServiceImpl.GetStaffGroupsById | aio-data-service/src/main/java/org/example/aiodataservice/application/services/impl/StaffServiceImpl.java:142-147 | not found exactly for an unknown id; otherwise exactly the groups listing it |
| StaffService.StaffServiceImpl.ImportOne | aio-data-service/src/main/java/org/example/aiodataservice/application/services/impl/StaffServiceImpl.java:159-184 | a row takes the lock exactly when it is free, yields the row's record, and deletes the key |
| StaffService.StaffServiceImpl.CollectImport | aio-data-service/src/main/java/org/example/aiodataservice/application/services/impl/StaffServiceImpl.java:158-185 | the loop stops at the first held lock; with none held it collects the imported records |
| StaffService.StaffServiceImpl.ImportStaff | aio-data-service/src/main/java/org/example/aiodataservice/application/services/impl/StaffServiceImpl.java:154-195 | succeeds exactly when no row's lock is held, returning and saving the new records in row order; on failure nothing is saved |

## Left out

- JSON parsing of import files, controllers, caching annotations, logging and the Elasticsearch and JPA engines: the model starts from parsed rows and stores tables as maps.
- `DataServiceClient` (the HTTP call for a group's staff, its retries and its exceptions): the staff list it returns is the `staffIds` parameter of the worker, and an exception during generation is the `fault` parameter.
- `@Async`, transactions and concurrency: each operation runs to completion on its own. Redis commands are atomic steps on a map.
- Lock time-to-live: expiry is the separate step `Locks.Expire` / `Locks.LockService.ExpireLock`, not a clock.
- UUIDs, `LocalDate.now()` and `Random`:
  - UUIDs and today's date are parameters;
  - the random choice among allowed shifts is a nondeterministic pick, so every property holds for every choice.
- `DateUtil.getWeekOfYear` depends on the JVM locale. The generator takes it as the `weekOf` parameter.
- ScheduleGenerator.DayOffsInWeek: the contract bounds the count but does not restate it; the generator's properties hold for any count.
- A Java `Set` iteration order is a sequence without duplicates.
  - This applies to the staff ids and to a group's members as iterated.
  - Sets that are only queried for membership are Dafny sets.
- Null strings and lists are `Option` values where the source branches on null. A builder-made group with null members has the empty member set.
- StaffGroupMapper.ToChildDto: `toChildDto` also sets `memberIds` on the child snapshot, but `StaffGroupChildDto` declares only the id, group code, name, parent id and the two dates, so the snapshot carries no members.
- `ImportStaffGroupDto.childrenCodes` is never used by the source. The field is kept but plays no part.
- DataDomain.StaffGroupRepository.FindByGroupCode requires the code to be held by at most one group. With several matches the index answers one of them, and which one is not specified. A compiled lookup has to be deterministic.
- StaffGroupService.StaffGroupServiceImpl.ImportStaffGroups requires every group and parent code the file names to be held by at most one stored group (`MentionedCodesUnique`). Create and update keep codes unique (`CreateKeepsCodesUnique`, `UpdateKeepsCodesUnique`). An import whose file repeats a new code does create two groups with that code, though. The model therefore cannot run a later import that names that code.
- StaffGroupRules.Resolved and StaffGroupService.StaffGroupServiceImpl.ResolveMembers take a `fuel` depth bound. A cyclic group tree makes the source recurse until the stack overflows; in the model it runs out of fuel instead (`None`).
- The null-id error message the repository raises in `UpdateCannotAttachRoot` is the stand-in text `NULL_ID_MESSAGE`.
- StaffGroupService.StaffGroupServiceImpl.Phase2Row: phase 2 re-acquires each row's import lock, which phase 1 has already released. The model requires the key to be free, so that branch never fails, though its error is still modelled.
- `getStaff`, `getAll` paging, search and the controllers' validation are outside the modelled core.

## Findings

| source | as written | input that shows it | evidently intended | confidence | as-written member | corrected member |
|---|---|---|---|---|---|---|
| aio-data-service/src/main/java/org/example/aiodataservice/application/services/impl/StaffGroupServiceImpl.java:86 | the children loop of `createStaffGroup` runs only when `childrenIds` is empty, so requested children are never linked | a stored group "c" without a parent; create group "N" with `childrenIds = ["c"]`: the new group has no children and "c" keeps no parent | the loop runs when `childrenIds` is non-empty, linking each child | not executed | StaffGroupRules.CreateAsWrittenDropsChildren | StaffGroupRules.CreateLinksChildren |

The service method `CreateStaffGroup` follows the guard as written (`CreatePlanAsWritten`, stated by `CreateAsWrittenSaves`). The intended create is `CreatePlan`, and its properties are proved in `CreateLinksChildren` and `CreateKeepsCodesUnique`.
