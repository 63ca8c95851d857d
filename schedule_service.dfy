/** `ScheduleServiceImpl`: job submission (which runs the worker inline) and
    the two reads that map a stored job to its response DTOs. */
module ScheduleService {
  import opened Common
  import opened DateUtil
  import opened Locks
  import opened ScheduleDomain
  import opened ScheduleGenerator

  function NotFoundMessage(scheduleId: string): (m: string)
    ensures |m| == |"Schedule job not found with ID: "| + |scheduleId|
    ensures m[|"Schedule job not found with ID: "|..] == scheduleId
  {
    "Schedule job not found with ID: " + scheduleId
  }

  /** The job `generateSchedule` builds (lines 54-59); a builder-made job has
      no assignments and no error message. */
  function NewJob(requestDto: CreateScheduleRequestDto, id: string): (job: ScheduleJob)
    ensures job.id == id && job.status == PENDING
    ensures job.staffGroupId == requestDto.staffGroupId && job.weekBeginDate == requestDto.weekBeginDate
    ensures job.assignments == [] && job.errorMessage == None
  {
    ScheduleJob(id, requestDto.staffGroupId, requestDto.weekBeginDate, PENDING, [], None)
  }

  /** The stream `map` of lines 89-91. */
  function ToAssignmentDtos(assignments: seq<ShiftAssignment>): (r: seq<ShiftAssignmentDto>)
    ensures |r| == |assignments|
    ensures forall i :: 0 <= i < |r| ==>
              r[i].staffId == assignments[i].staffId && r[i].date == assignments[i].date
              && r[i].shift == assignments[i].shiftType
  {
    if assignments == [] then []
    else
      var a := assignments[0];
      [ShiftAssignmentDto(a.staffId, a.date, a.shiftType)] + ToAssignmentDtos(assignments[1..])
  }

  /** The inverse mapping, back to the stored assignment. */
  function FromAssignmentDtos(dtos: seq<ShiftAssignmentDto>): (r: seq<ShiftAssignment>)
    ensures |r| == |dtos|
  {
    if dtos == [] then []
    else [ShiftAssignment(dtos[0].staffId, dtos[0].date, dtos[0].shift)] + FromAssignmentDtos(dtos[1..])
  }

  /** The DTO list loses nothing: the stored assignments can be read back
      from it, in order. */
  lemma {:induction false} AssignmentDtosRoundTrip(assignments: seq<ShiftAssignment>)
    ensures FromAssignmentDtos(ToAssignmentDtos(assignments)) == assignments
  {
    if assignments != [] {
      AssignmentDtosRoundTrip(assignments[1..]);
      assert assignments == [assignments[0]] + assignments[1..];
    }
  }

  class ScheduleServiceImpl {
    const scheduleJobRepository: ScheduleJobRepository
    const scheduleGeneratorService: ScheduleGeneratorService

    constructor (scheduleJobRepository: ScheduleJobRepository, scheduleGeneratorService: ScheduleGeneratorService)
      requires scheduleGeneratorService.scheduleJobRepository == scheduleJobRepository
      ensures this.scheduleJobRepository == scheduleJobRepository
      ensures this.scheduleGeneratorService == scheduleGeneratorService
    {
      this.scheduleJobRepository := scheduleJobRepository;
      this.scheduleGeneratorService := scheduleGeneratorService;
    }

    /** `generateSchedule` (lines 48-68). `newId` is the random UUID; the
        remaining parameters are what the worker sees (see
        `GenerateScheduleAsync`). */
    method GenerateSchedule(requestDto: CreateScheduleRequestDto, newId: string, lockValue: string,
                            staffIds: seq<string>, fault: Option<string>)
      returns (r: Result<ScheduleResponseDto, ScheduleError>)
      requires scheduleGeneratorService.scheduleJobRepository == scheduleJobRepository
      requires scheduleJobRepository.Valid()
      requires NoDuplicates(staffIds)
      modifies scheduleJobRepository, scheduleGeneratorService.lockService
      ensures scheduleJobRepository.Valid()
      ensures scheduleGeneratorService.lockService.store == old(scheduleGeneratorService.lockService.store)
      // exactly one job is written: the new one, processed by the worker when
      // the job's lock was free
      ensures newId in scheduleJobRepository.jobs
      ensures scheduleJobRepository.jobs == old(scheduleJobRepository.jobs)[newId := scheduleJobRepository.jobs[newId]]
      ensures Acquire(old(scheduleGeneratorService.lockService.store), JobLockKey(newId), lockValue).ok
              ==> ProcessedJob(scheduleGeneratorService.rules, NewJob(requestDto, newId), staffIds, fault,
                               scheduleJobRepository.jobs[newId])
      ensures !Acquire(old(scheduleGeneratorService.lockService.store), JobLockKey(newId), lockValue).ok
              ==> scheduleJobRepository.jobs[newId] == NewJob(requestDto, newId)
      // the response reports the job as re-read after the worker returned
      ensures r == Ok(ScheduleResponseDto(newId, scheduleJobRepository.jobs[newId].status,
                                          scheduleJobRepository.jobs[newId].errorMessage))
    {
      var job := NewJob(requestDto, newId);
      scheduleJobRepository.Save(job);
      scheduleGeneratorService.GenerateScheduleAsync(job.id, lockValue, staffIds, fault);
      var newestJob := scheduleJobRepository.FindById(job.id);
      r := match newestJob
        case Some(j) => Ok(ScheduleResponseDto(j.id, j.status, j.errorMessage))
        case None => Err(ResourceNotFound(NotFoundMessage(job.id)));
    }

    /** `getJobStatus` (lines 70-81): a read, unknown ids are not found. */
    function GetJobStatus(scheduleId: string): (r: Result<ScheduleResponseDto, ScheduleError>)
      reads this, scheduleJobRepository
      ensures r.Ok? <==> scheduleId in scheduleJobRepository.jobs
      ensures r.Ok? ==> var job := scheduleJobRepository.jobs[scheduleId];
                        r.value.scheduleId == job.id && r.value.status == job.status
                        && r.value.errorMessage == job.errorMessage
      ensures r.Err? ==> r.error == ResourceNotFound(NotFoundMessage(scheduleId))
    {
      match scheduleJobRepository.FindById(scheduleId)
      case None => Err(ResourceNotFound(NotFoundMessage(scheduleId)))
      case Some(job) => Ok(ScheduleResponseDto(job.id, job.status, job.errorMessage))
    }

    /** `getGeneratedSchedule` (lines 83-98): the job's header fields and one
        DTO per stored assignment, in order. */
    function GetGeneratedSchedule(scheduleId: string): (r: Result<GetScheduleResultDto, ScheduleError>)
      reads this, scheduleJobRepository
      ensures r.Ok? <==> scheduleId in scheduleJobRepository.jobs
      ensures r.Ok? ==> var job := scheduleJobRepository.jobs[scheduleId];
                        && r.value.scheduleId == job.id && r.value.weekBeginDate == job.weekBeginDate
                        && r.value.staffGroupId == job.staffGroupId
                        && FromAssignmentDtos(r.value.assignments) == job.assignments
      ensures r.Err? ==> r.error == ResourceNotFound(NotFoundMessage(scheduleId))
    {
      match scheduleJobRepository.FindById(scheduleId)
      case None => Err(ResourceNotFound(NotFoundMessage(scheduleId)))
      case Some(job) =>
        AssignmentDtosRoundTrip(job.assignments);
        Ok(GetScheduleResultDto(job.id, job.weekBeginDate, job.staffGroupId, ToAssignmentDtos(job.assignments)))
    }
  }
}
