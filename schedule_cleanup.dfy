/** The daily sweep of `ScheduleJobCleanupService`: PENDING jobs whose first
    assignment was yesterday become PROCESSING, then PROCESSING jobs whose last
    assignment was yesterday become COMPLETED. */
module ScheduleCleanup {
  import opened Common
  import opened DateUtil
  import opened ScheduleDomain

  /** `findMinDateByJobId`: SQL `MIN(date)` over the job's assignments, null
      (None) when it has none. */
  function MinAssignmentDate(assignments: seq<ShiftAssignment>): (r: Option<Date>)
    ensures r.None? <==> |assignments| == 0
    ensures r.Some? ==> exists i :: 0 <= i < |assignments| && assignments[i].date == r.value
    ensures r.Some? ==> forall i :: 0 <= i < |assignments| ==> r.value <= assignments[i].date
  {
    if |assignments| == 0 then None
    else
      match MinAssignmentDate(assignments[1..])
      case None => Some(assignments[0].date)
      case Some(m) => Some(if assignments[0].date <= m then assignments[0].date else m)
  }

  /** `findMaxDateByJobId`: SQL `MAX(date)` over the job's assignments. */
  function MaxAssignmentDate(assignments: seq<ShiftAssignment>): (r: Option<Date>)
    ensures r.None? <==> |assignments| == 0
    ensures r.Some? ==> exists i :: 0 <= i < |assignments| && assignments[i].date == r.value
    ensures r.Some? ==> forall i :: 0 <= i < |assignments| ==> assignments[i].date <= r.value
  {
    if |assignments| == 0 then None
    else
      match MaxAssignmentDate(assignments[1..])
      case None => Some(assignments[0].date)
      case Some(m) => Some(if m <= assignments[0].date then assignments[0].date else m)
  }

  /** The first pass's test (lines 33-34): a PENDING job starts yesterday. */
  predicate StartsOn(job: ScheduleJob, yesterday: Date)
  {
    job.status == PENDING && MinAssignmentDate(job.assignments) == Some(yesterday)
  }

  /** The second pass's test (lines 47-48): a PROCESSING job ended yesterday. */
  predicate EndsOn(job: ScheduleJob, yesterday: Date)
  {
    job.status == PROCESSING && MaxAssignmentDate(job.assignments) == Some(yesterday)
  }

  /** The table after the first pass. */
  function PromotePending(jobs: map<string, ScheduleJob>, yesterday: Date): (r: map<string, ScheduleJob>)
    ensures r.Keys == jobs.Keys
  {
    map k | k in jobs :: if StartsOn(jobs[k], yesterday) then jobs[k].(status := PROCESSING) else jobs[k]
  }

  /** The table after the second pass. */
  function PromoteProcessing(jobs: map<string, ScheduleJob>, yesterday: Date): (r: map<string, ScheduleJob>)
    ensures r.Keys == jobs.Keys
  {
    map k | k in jobs :: if EndsOn(jobs[k], yesterday) then jobs[k].(status := COMPLETED) else jobs[k]
  }

  /** The whole sweep for a given yesterday. */
  function Sweep(jobs: map<string, ScheduleJob>, yesterday: Date): (r: map<string, ScheduleJob>)
    ensures r.Keys == jobs.Keys
  {
    PromoteProcessing(PromotePending(jobs, yesterday), yesterday)
  }

  /** How far along the lifecycle a status is; FAILED sits apart. */
  function Rank(s: JobStatus): nat
  {
    match s
    case PENDING => 0
    case PROCESSING => 1
    case COMPLETED => 2
    case FAILED => 3
  }

  /** The sweep only ever writes the status field. */
  lemma SweepChangesOnlyStatus(jobs: map<string, ScheduleJob>, yesterday: Date, k: string)
    requires k in jobs
    ensures Sweep(jobs, yesterday)[k] == jobs[k].(status := Sweep(jobs, yesterday)[k].status)
  {
  }

  /** Status only moves forward: PENDING to PROCESSING to COMPLETED. FAILED
      and COMPLETED jobs are never touched. */
  lemma SweepMovesForward(jobs: map<string, ScheduleJob>, yesterday: Date, k: string)
    requires k in jobs
    ensures Rank(jobs[k].status) <= Rank(Sweep(jobs, yesterday)[k].status)
    ensures jobs[k].status in {COMPLETED, FAILED} ==> Sweep(jobs, yesterday)[k] == jobs[k]
    ensures Sweep(jobs, yesterday)[k].status != FAILED || jobs[k].status == FAILED
  {
  }

  /** A job with no assignments has no min/max date and is never promoted. */
  lemma NoAssignmentsNoPromotion(jobs: map<string, ScheduleJob>, yesterday: Date, k: string)
    requires k in jobs && |jobs[k].assignments| == 0
    ensures Sweep(jobs, yesterday)[k] == jobs[k]
  {
  }

  /** The second pass sees the first pass's saves: a PENDING job whose
      assignments all fall on yesterday is COMPLETED after one sweep. */
  lemma OneDayJobCompletesInOneSweep(jobs: map<string, ScheduleJob>, yesterday: Date, k: string)
    requires k in jobs && jobs[k].status == PENDING && |jobs[k].assignments| > 0
    requires forall i :: 0 <= i < |jobs[k].assignments| ==> jobs[k].assignments[i].date == yesterday
    ensures Sweep(jobs, yesterday)[k].status == COMPLETED
  {
    var a := jobs[k].assignments;
    var lo := MinAssignmentDate(a).value;
    var hi := MaxAssignmentDate(a).value;
    assert lo == yesterday && hi == yesterday;
  }

  /** Exactly when each job is promoted by one sweep. */
  lemma SweepOutcome(jobs: map<string, ScheduleJob>, yesterday: Date, k: string)
    requires k in jobs
    ensures var j := jobs[k]; var s := Sweep(jobs, yesterday)[k].status;
      && (j.status == PENDING ==>
            s == (if MinAssignmentDate(j.assignments) != Some(yesterday) then PENDING
                  else if MaxAssignmentDate(j.assignments) == Some(yesterday) then COMPLETED
                  else PROCESSING))
      && (j.status == PROCESSING ==> s == (if MaxAssignmentDate(j.assignments) == Some(yesterday) then COMPLETED else PROCESSING))
  {
  }

  /** The table once the jobs of `done` that pass the test for `target`
      have been moved to `target`. */
  ghost function Promoted(jobs: map<string, ScheduleJob>, done: set<string>, yesterday: Date, target: JobStatus)
    : map<string, ScheduleJob>
  {
    map k | k in jobs :: if k in done && Qualifies(jobs[k], yesterday, target) then jobs[k].(status := target) else jobs[k]
  }

  /** Handling one more job of the pass. */
  lemma PromotedStep(jobs: map<string, ScheduleJob>, done: set<string>, id: string, yesterday: Date, target: JobStatus)
    requires id in jobs
    ensures Promoted(jobs, done + {id}, yesterday, target)
            == if Qualifies(jobs[id], yesterday, target)
               then Promoted(jobs, done, yesterday, target)[id := jobs[id].(status := target)]
               else Promoted(jobs, done, yesterday, target)
  {
    var a := Promoted(jobs, done + {id}, yesterday, target);
    var b := Promoted(jobs, done, yesterday, target);
    if Qualifies(jobs[id], yesterday, target) {
      assert a == b[id := jobs[id].(status := target)];
    } else {
      assert a == b;
    }
  }

  /** The loop step of a pass: the batch so far, saved, is the table with the
      jobs handled so far promoted; handling `id` keeps that so. */
  lemma PromoteOneKeeps(jobs: map<string, ScheduleJob>, updated: seq<ScheduleJob>, done: set<string>, id: string,
                        yesterday: Date, target: JobStatus)
    requires id in jobs && jobs[id].id == id
    requires SavedAll(jobs, updated) == Promoted(jobs, done, yesterday, target)
    ensures Qualifies(jobs[id], yesterday, target) ==>
              SavedAll(jobs, updated + [jobs[id].(status := target)]) == Promoted(jobs, done + {id}, yesterday, target)
    ensures !Qualifies(jobs[id], yesterday, target) ==>
              SavedAll(jobs, updated) == Promoted(jobs, done + {id}, yesterday, target)
  {
    PromotedStep(jobs, done, id, yesterday, target);
    SavedAllSnoc(jobs, updated, jobs[id].(status := target));
  }

  /** Before the first job is handled the table is as it was. */
  lemma PromotedNothing(jobs: map<string, ScheduleJob>, yesterday: Date, target: JobStatus)
    ensures Promoted(jobs, {}, yesterday, target) == jobs
  {
  }

  /** A pass over every job in the status its test asks for is the pass as
      specified. */
  lemma PassCoversStatus(jobs: map<string, ScheduleJob>, ids: set<string>, yesterday: Date)
    requires forall k :: k in ids <==> k in jobs && jobs[k].status == PENDING
    ensures Promoted(jobs, ids, yesterday, PROCESSING) == PromotePending(jobs, yesterday)
  {
  }

  lemma SecondPassCoversStatus(jobs: map<string, ScheduleJob>, ids: set<string>, yesterday: Date)
    requires forall k :: k in ids <==> k in jobs && jobs[k].status == PROCESSING
    ensures Promoted(jobs, ids, yesterday, COMPLETED) == PromoteProcessing(jobs, yesterday)
  {
  }

  /** `ScheduleJobCleanupService`. */
  class ScheduleJobCleanupService {
    const scheduleJobRepository: ScheduleJobRepository

    constructor (scheduleJobRepository: ScheduleJobRepository)
      ensures this.scheduleJobRepository == scheduleJobRepository
    {
      this.scheduleJobRepository := scheduleJobRepository;
    }

    /** `processProcessingAndCompletedJobs` (lines 26-57), with `today` for
        `LocalDate.now()`. */
    method ProcessProcessingAndCompletedJobs(today: Date)
      requires scheduleJobRepository.Valid()
      modifies scheduleJobRepository
      ensures scheduleJobRepository.Valid()
      ensures scheduleJobRepository.jobs == Sweep(old(scheduleJobRepository.jobs), today - 1)
    {
      var yesterday := today - 1;

      ghost var before := scheduleJobRepository.jobs;
      var pendingJobs := scheduleJobRepository.FindByStatus(PENDING);
      var updatedPendingJobs := PromoteBatch(pendingJobs, yesterday, PROCESSING);
      if |updatedPendingJobs| > 0 {
        scheduleJobRepository.SaveAll(updatedPendingJobs);
      }
      PassCoversStatus(before, pendingJobs, yesterday);

      ghost var middle := scheduleJobRepository.jobs;
      var processingJobs := scheduleJobRepository.FindByStatus(PROCESSING);
      var updatedProcessingJobs := PromoteBatch(processingJobs, yesterday, COMPLETED);
      if |updatedProcessingJobs| > 0 {
        scheduleJobRepository.SaveAll(updatedProcessingJobs);
      }
      SecondPassCoversStatus(middle, processingJobs, yesterday);
    }

    /** One pass's loop: for each job of `ids` whose date test holds, set the
        new status and collect it for `saveAll`. */
    method PromoteBatch(ids: set<string>, yesterday: Date, target: JobStatus) returns (updated: seq<ScheduleJob>)
      requires target == PROCESSING || target == COMPLETED
      requires scheduleJobRepository.Valid()
      requires forall k :: k in ids ==> k in scheduleJobRepository.jobs
      ensures SavedAll(scheduleJobRepository.jobs, updated) == Promoted(scheduleJobRepository.jobs, ids, yesterday, target)
    {
      var jobs := scheduleJobRepository.jobs;
      updated := [];
      var todo := ids;
      ghost var done: set<string> := {};
      PromotedNothing(jobs, yesterday, target);
      while todo != {}
        invariant todo <= ids && done == ids - todo
        invariant SavedAll(jobs, updated) == Promoted(jobs, done, yesterday, target)
        decreases |todo|
      {
        var id :| id in todo;
        var job := jobs[id];
        PromoteOneKeeps(jobs, updated, done, id, yesterday, target);
        if Qualifies(job, yesterday, target) {
          updated := updated + [job.(status := target)];
        }
        todo := todo - {id};
        done := done + {id};
      }
      assert done == ids;
    }
  }

  /** The test of the pass that moves jobs to `target`. */
  predicate Qualifies(job: ScheduleJob, yesterday: Date, target: JobStatus)
  {
    if target == PROCESSING then StartsOn(job, yesterday) else EndsOn(job, yesterday)
  }
}
