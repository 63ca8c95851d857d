/** Entities of the scheduling service: the job, its shift assignments, the
    rule configuration, the response DTOs, and the job table. */
module ScheduleDomain {
  import opened Common
  import opened DateUtil

  datatype ShiftType = MORNING | EVENING | DAY_OFF

  datatype JobStatus = PENDING | PROCESSING | COMPLETED | FAILED

  /** One staff member's shift on one date (the owning job is implicit: the
      assignment lives in that job's list). */
  datatype ShiftAssignment = ShiftAssignment(staffId: string, date: Date, shiftType: ShiftType)

  /** `ScheduleJob`: the job owns its ordered assignment list. */
  datatype ScheduleJob = ScheduleJob(
    id: string,
    staffGroupId: string,
    weekBeginDate: Date,
    status: JobStatus,
    assignments: seq<ShiftAssignment>,
    errorMessage: Option<string>)

  /** `SchedulingProperties.Rules`, loaded once and never changed. */
  datatype Rules = Rules(
    periodWeeks: int,
    avoidMorningAfterEvening: bool,
    balanceShifts: bool,
    dayOffEnabled: bool,
    offDaysPerWeek: int)

  /** Errors the scheduling service raises to its callers. */
  datatype ScheduleError = ResourceNotFound(message: string)

  datatype CreateScheduleRequestDto = CreateScheduleRequestDto(staffGroupId: string, weekBeginDate: Date)

  datatype ScheduleResponseDto = ScheduleResponseDto(scheduleId: string, status: JobStatus, errorMessage: Option<string>)

  datatype ShiftAssignmentDto = ShiftAssignmentDto(staffId: string, date: Date, shift: ShiftType)

  datatype GetScheduleResultDto = GetScheduleResultDto(
    scheduleId: string,
    weekBeginDate: Date,
    staffGroupId: string,
    assignments: seq<ShiftAssignmentDto>)

  /** The job table after saving `jobs` one after another (a later save of the
      same id overwrites an earlier one). */
  function SavedAll(table: map<string, ScheduleJob>, jobs: seq<ScheduleJob>): (r: map<string, ScheduleJob>)
    ensures r.Keys == table.Keys + (set j | j in jobs :: j.id)
    ensures forall k :: k in table && (forall j :: j in jobs ==> j.id != k) ==> r[k] == table[k]
  {
    if jobs == [] then table
    else
      var front := jobs[..|jobs| - 1];
      var last := jobs[|jobs| - 1];
      assert jobs == front + [last];
      SavedAll(table, front)[last.id := last]
  }

  /** Saving one more job on top of a batch. */
  lemma SavedAllSnoc(table: map<string, ScheduleJob>, jobs: seq<ScheduleJob>, job: ScheduleJob)
    ensures SavedAll(table, jobs + [job]) == SavedAll(table, jobs)[job.id := job]
  {
    assert (jobs + [job])[..|jobs|] == jobs;
  }

  /** The JPA job table, keyed by job id. */
  class ScheduleJobRepository {
    var jobs: map<string, ScheduleJob>

    /** Every stored job sits under its own id. */
    ghost predicate Valid()
      reads this
    {
      forall k :: k in jobs ==> jobs[k].id == k
    }

    constructor ()
      ensures jobs == map[] && Valid()
    {
      jobs := map[];
    }

    function FindById(id: string): (r: Option<ScheduleJob>)
      reads this
      ensures r.Some? <==> id in jobs
      ensures r.Some? ==> r.value == jobs[id]
    {
      if id in jobs then Some(jobs[id]) else None
    }

    /** `findByStatus`: the ids of the jobs in the given status. */
    function FindByStatus(status: JobStatus): (r: set<string>)
      reads this
      ensures forall k :: k in r <==> k in jobs && jobs[k].status == status
    {
      set k | k in jobs && jobs[k].status == status
    }

    method Save(job: ScheduleJob)
      requires Valid()
      modifies this
      ensures Valid()
      ensures jobs == old(jobs)[job.id := job]
    {
      jobs := jobs[job.id := job];
    }

    method SaveAll(batch: seq<ScheduleJob>)
      requires Valid()
      modifies this
      ensures Valid()
      ensures jobs == SavedAll(old(jobs), batch)
    {
      var i := 0;
      while i < |batch|
        invariant 0 <= i <= |batch|
        invariant Valid()
        invariant jobs == SavedAll(old(jobs), batch[..i])
      {
        assert batch[..i + 1][..i] == batch[..i];
        jobs := jobs[batch[i].id := batch[i]];
        i := i + 1;
      }
      assert batch[..i] == batch;
    }
  }
}
