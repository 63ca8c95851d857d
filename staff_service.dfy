/** `StaffServiceImpl`: staff records with a create lock per staff code, an
    update lock per id, member clean-up on delete, and a bulk import. */
module StaffService {
  import opened Common
  import opened DateUtil
  import opened Locks
  import opened DataDomain

  /** The Redis key guarding the creation of `staffCode`. */
  function CreateLockKey(staffCode: string): (k: string)
    ensures |k| == |"lock:staff:create:"| + |staffCode|
    ensures k[..|"lock:staff:create:"|] == "lock:staff:create:"
    ensures k[|"lock:staff:create:"|..] == staffCode
  {
    "lock:staff:create:" + staffCode
  }

  /** The Redis key guarding one staff record. */
  function StaffLockKey(id: string): (k: string)
    ensures |k| == |"lock:staff:"| + |id|
    ensures k[..|"lock:staff:"|] == "lock:staff:"
    ensures k[|"lock:staff:"|..] == id
  {
    "lock:staff:" + id
  }

  /** The lock keys of a batch of import rows. */
  function ImportLockKeys(dtos: seq<CreateStaffDto>): (keys: set<string>)
    ensures forall i :: 0 <= i < |dtos| ==> CreateLockKey(dtos[i].staffCode) in keys
    decreases |dtos|
  {
    if dtos == [] then {}
    else
      var n := |dtos| - 1;
      assert forall i :: 0 <= i < n ==> dtos[..n][i] == dtos[i];
      ImportLockKeys(dtos[..n]) + {CreateLockKey(dtos[n].staffCode)}
  }

  lemma ImportLockKeysSnoc(dtos: seq<CreateStaffDto>, d: CreateStaffDto)
    ensures ImportLockKeys(dtos + [d]) == ImportLockKeys(dtos) + {CreateLockKey(d.staffCode)}
  {
    assert (dtos + [d])[..|dtos|] == dtos;
  }

  /** No row's create lock is held in `store`. */
  predicate ImportLocksFree(store: map<string, string>, dtos: seq<CreateStaffDto>)
  {
    forall i :: 0 <= i < |dtos| ==> CreateLockKey(dtos[i].staffCode) !in store
  }

  /** The import's wrapping of a lock failure on `staffCode`. */
  function ImportLockFailure(staffCode: string): (e: ServiceError)
    ensures e.Runtime?
    ensures |e.message| == |"Failed to import staff data: "| + |"Could not acquire lock for staffCode: "| + |staffCode|
    ensures e.message[..|"Failed to import staff data: "|] == "Failed to import staff data: "
    ensures e.message[|"Failed to import staff data: "|..] == "Could not acquire lock for staffCode: " + staffCode
  {
    Runtime("Failed to import staff data: " + ("Could not acquire lock for staffCode: " + staffCode))
  }

  /** The record an import row yields, if its code is new. */
  function ImportRow(staff: map<string, Staff>, d: CreateStaffDto, newId: string, today: Date): (r: seq<Staff>)
    ensures r == [] <==> CodeTaken(staff, d.staffCode)
  {
    if CodeTaken(staff, d.staffCode) then [] else [Staff(newId, d.staffCode, d.name, d.email, today, today)]
  }

  predicate CodeTaken(staff: map<string, Staff>, staffCode: string)
  {
    exists k :: k in staff && staff[k].staffCode == staffCode
  }

  /** The staff an import creates, in input order: one per row whose code is
      not yet stored, with that row's fresh id. Codes are compared with the
      stored table only, so two rows with the same new code both yield a
      record. */
  function ImportedStaff(staff: map<string, Staff>, dtos: seq<CreateStaffDto>, newIds: seq<string>, today: Date)
    : (r: seq<Staff>)
    requires |newIds| == |dtos|
    ensures |r| <= |dtos|
    decreases |dtos|
  {
    if dtos == [] then []
    else
      var n := |dtos| - 1;
      var front := ImportedStaff(staff, dtos[..n], newIds[..n], today);
      front + ImportRow(staff, dtos[n], newIds[n], today)
  }

  /** One import row extends the lock keys deleted so far by the row's key
      and the records created so far by the row's record. */
  lemma ImportAdvance(staff: map<string, Staff>, store: map<string, string>, dtos: seq<CreateStaffDto>,
                      newIds: seq<string>, i: int, today: Date)
    requires |newIds| == |dtos| && 0 <= i < |dtos|
    ensures var key := CreateLockKey(dtos[i].staffCode);
            && ImportLockKeys(dtos[..i + 1]) == ImportLockKeys(dtos[..i]) + {key}
            && (store - ImportLockKeys(dtos[..i])) - {key} == store - ImportLockKeys(dtos[..i + 1])
    ensures ImportedStaff(staff, dtos[..i + 1], newIds[..i + 1], today)
            == ImportedStaff(staff, dtos[..i], newIds[..i], today) + ImportRow(staff, dtos[i], newIds[i], today)
  {
    assert dtos[..i + 1] == dtos[..i] + [dtos[i]];
    ImportLockKeysSnoc(dtos[..i], dtos[i]);
    assert dtos[..i + 1][..i] == dtos[..i] && newIds[..i + 1][..i] == newIds[..i];
  }

  /** An import only creates records for codes not yet stored, each carrying
      its row's code, name, email and fresh id, dated today. */
  lemma {:induction false} ImportedStaffFresh(staff: map<string, Staff>, dtos: seq<CreateStaffDto>,
                                             newIds: seq<string>, today: Date, s: Staff)
    requires |newIds| == |dtos|
    requires s in ImportedStaff(staff, dtos, newIds, today)
    ensures !CodeTaken(staff, s.staffCode) && s.createdAt == today && s.updatedAt == today
    ensures exists i :: 0 <= i < |dtos| && s == Staff(newIds[i], dtos[i].staffCode, dtos[i].name, dtos[i].email, today, today)
    decreases |dtos|
  {
    var n := |dtos| - 1;
    if s in ImportedStaff(staff, dtos[..n], newIds[..n], today) {
      ImportedStaffFresh(staff, dtos[..n], newIds[..n], today, s);
      var i :| 0 <= i < n && s == Staff(newIds[..n][i], dtos[..n][i].staffCode, dtos[..n][i].name,
                                         dtos[..n][i].email, today, today);
      assert dtos[..n][i] == dtos[i] && newIds[..n][i] == newIds[i];
    } else {
      assert s in ImportRow(staff, dtos[n], newIds[n], today);
    }
  }

  /** An import skips no new code: every row whose code is not yet stored
      yields its record. */
  lemma {:induction false} ImportedStaffComplete(staff: map<string, Staff>, dtos: seq<CreateStaffDto>,
                                                newIds: seq<string>, today: Date, i: int)
    requires |newIds| == |dtos| && 0 <= i < |dtos|
    requires !CodeTaken(staff, dtos[i].staffCode)
    ensures Staff(newIds[i], dtos[i].staffCode, dtos[i].name, dtos[i].email, today, today)
            in ImportedStaff(staff, dtos, newIds, today)
    decreases |dtos|
  {
    var n := |dtos| - 1;
    if i < n {
      ImportedStaffComplete(staff, dtos[..n], newIds[..n], today, i);
      assert dtos[..n][i] == dtos[i] && newIds[..n][i] == newIds[i];
    }
  }

  /** Import order is input order: importing two files one after the other
      creates the concatenation of what each creates. */
  lemma {:induction false} ImportedStaffAppend(staff: map<string, Staff>, a: seq<CreateStaffDto>, ia: seq<string>,
                                              b: seq<CreateStaffDto>, ib: seq<string>, today: Date)
    requires |ia| == |a| && |ib| == |b|
    ensures ImportedStaff(staff, a + b, ia + ib, today)
            == ImportedStaff(staff, a, ia, today) + ImportedStaff(staff, b, ib, today)
    decreases |b|
  {
    if b != [] {
      var n := |b| - 1;
      var row := ImportRow(staff, b[n], ib[n], today);
      calc {
        ImportedStaff(staff, a + b, ia + ib, today);
        { assert (a + b)[..|a| + n] == a + b[..n] && (a + b)[|a| + n] == b[n];
          assert (ia + ib)[..|a| + n] == ia + ib[..n] && (ia + ib)[|a| + n] == ib[n]; }
        ImportedStaff(staff, a + b[..n], ia + ib[..n], today) + row;
        { ImportedStaffAppend(staff, a, ia, b[..n], ib[..n], today); }
        (ImportedStaff(staff, a, ia, today) + ImportedStaff(staff, b[..n], ib[..n], today)) + row;
        ImportedStaff(staff, a, ia, today) + (ImportedStaff(staff, b[..n], ib[..n], today) + row);
        ImportedStaff(staff, a, ia, today) + ImportedStaff(staff, b, ib, today);
      }
    } else {
      assert a + b == a && ia + ib == ia;
    }
  }

  /** Duplicates within one file are not caught: two rows with the same new
      code create two records with that code. */
  lemma ImportKeepsFileDuplicates(staff: map<string, Staff>, d: CreateStaffDto, id1: string, id2: string, today: Date)
    requires !CodeTaken(staff, d.staffCode) && id1 != id2
    ensures var r := ImportedStaff(staff, [d, d], [id1, id2], today);
            |r| == 2 && r[0].staffCode == r[1].staffCode && r[0].id != r[1].id
  {
    assert [d, d][..1] == [d] && [id1, id2][..1] == [id1];
    assert [d][..0] == [] && [id1][..0] == [];
  }

  /** The group table once the groups in `done` have been stripped of
      `staffId` and saved. */
  function Detached(groups: map<string, StaffGroup>, staffId: string, today: Date, done: set<string>)
    : map<string, StaffGroup>
  {
    map k | k in groups :: if k in done then WithoutMember(groups[k], staffId, today) else groups[k]
  }

  /** The groups listing `staffId`. */
  function Containing(groups: map<string, StaffGroup>, staffId: string): set<string>
  {
    set k | k in groups && staffId in groups[k].memberIds
  }

  lemma DetachedNothing(groups: map<string, StaffGroup>, staffId: string, today: Date)
    ensures Detached(groups, staffId, today, {}) == groups
  {
  }

  lemma DetachedStep(groups: map<string, StaffGroup>, staffId: string, today: Date, done: set<string>, k: string)
    requires k in groups && k !in done
    ensures k in Detached(groups, staffId, today, done) && Detached(groups, staffId, today, done)[k] == groups[k]
    ensures Detached(groups, staffId, today, done)[k := WithoutMember(groups[k], staffId, today)]
            == Detached(groups, staffId, today, done + {k})
  {
  }

  /** After `deleteStaff` no group lists the staff id, exactly the groups that
      listed it were rewritten, and the table has the same keys. */
  lemma DeleteStaffClearsMembership(groups: map<string, StaffGroup>, staffId: string, today: Date)
    ensures var r := Detached(groups, staffId, today, Containing(groups, staffId));
            && r.Keys == groups.Keys
            && (forall k :: k in r ==> staffId !in r[k].memberIds)
            && (forall k :: k in r ==> r[k].memberIds == groups[k].memberIds - {staffId})
            && (forall k :: k in groups && staffId !in groups[k].memberIds ==> r[k] == groups[k])
  {
  }

  class StaffServiceImpl {
    const staffRepository: StaffRepository
    const staffGroupRepository: StaffGroupRepository
    const redisTemplate: RedisTemplate

    constructor (staffRepository: StaffRepository, staffGroupRepository: StaffGroupRepository,
                 redisTemplate: RedisTemplate)
      ensures this.staffRepository == staffRepository
      ensures this.staffGroupRepository == staffGroupRepository
      ensures this.redisTemplate == redisTemplate
    {
      this.staffRepository := staffRepository;
      this.staffGroupRepository := staffGroupRepository;
      this.redisTemplate := redisTemplate;
    }

    /** `createStaff` (lines 62-85); `newId` is the random UUID, `today` the
        current date. The lock key is deleted on every path. */
    method CreateStaff(staffCode: string, name: string, email: string, newId: string, today: Date)
      returns (r: Result<Staff, ServiceError>)
      requires staffRepository.Valid()
      modifies staffRepository, redisTemplate
      ensures staffRepository.Valid()
      ensures redisTemplate.store == old(redisTemplate.store) - {CreateLockKey(staffCode)}
      ensures CreateLockKey(staffCode) in old(redisTemplate.store)
              ==> r == Err(Runtime("Could not acquire lock for staffCode: " + staffCode))
      ensures CreateLockKey(staffCode) !in old(redisTemplate.store) && CodeTaken(old(staffRepository.staff), staffCode)
              ==> r == Err(DuplicateResource("Staff Code already exists: " + staffCode))
      ensures r.Ok? <==> CreateLockKey(staffCode) !in old(redisTemplate.store)
                         && !CodeTaken(old(staffRepository.staff), staffCode)
      ensures r.Err? ==> staffRepository.staff == old(staffRepository.staff)
      ensures r.Ok? ==> r.value == Staff(newId, staffCode, name, email, today, today)
                        && staffRepository.staff == old(staffRepository.staff)[newId := r.value]
    {
      var lockKey := CreateLockKey(staffCode);
      var locked := redisTemplate.SetIfAbsent(lockKey, staffCode);
      if !locked {
        r := Err(Runtime("Could not acquire lock for staffCode: " + staffCode));
      } else if staffRepository.ExistsByStaffCode(staffCode) {
        r := Err(DuplicateResource("Staff Code already exists: " + staffCode));
      } else {
        var staff := Staff(newId, staffCode, name, email, today, today);
        staffRepository.Save(staff);
        r := Ok(staff);
      }
      redisTemplate.Delete(lockKey);
    }

    /** `updateStaff` (lines 92-111): overwrites code, name and email of an
        existing record; the new code is not checked for uniqueness. */
    method UpdateStaff(id: string, staffCode: string, name: string, email: string, today: Date)
      returns (r: Result<Staff, ServiceError>)
      requires staffRepository.Valid()
      modifies staffRepository, redisTemplate
      ensures staffRepository.Valid()
      ensures redisTemplate.store == old(redisTemplate.store) - {StaffLockKey(id)}
      ensures StaffLockKey(id) in old(redisTemplate.store)
              ==> r == Err(Runtime("Could not acquire lock for id: " + id))
      ensures StaffLockKey(id) !in old(redisTemplate.store) && id !in old(staffRepository.staff)
              ==> r == Err(ResourceNotFound("Staff not found"))
      ensures r.Ok? <==> StaffLockKey(id) !in old(redisTemplate.store) && id in old(staffRepository.staff)
      ensures r.Err? ==> staffRepository.staff == old(staffRepository.staff)
      ensures r.Ok? ==> r.value == old(staffRepository.staff)[id].(staffCode := staffCode, name := name,
                                                                   email := email, updatedAt := today)
                        && staffRepository.staff == old(staffRepository.staff)[id := r.value]
    {
      var lockKey := StaffLockKey(id);
      var locked := redisTemplate.SetIfAbsent(lockKey, id);
      if !locked {
        r := Err(Runtime("Could not acquire lock for id: " + id));
      } else {
        var found := staffRepository.FindById(id);
        if found.None? {
          r := Err(ResourceNotFound("Staff not found"));
        } else {
          var staff := found.value.(staffCode := staffCode, name := name, email := email, updatedAt := today);
          staffRepository.Save(staff);
          r := Ok(staff);
        }
      }
      redisTemplate.Delete(lockKey);
    }

    /** The loop of `deleteStaff` (lines 128-132): each group of the list
        `findAllByMemberIds` returned loses the member and is saved. */
    method SaveWithoutMember(groupIds: set<string>, id: string, today: Date)
      requires staffGroupRepository.Valid()
      requires forall k :: k in groupIds ==> k in staffGroupRepository.groups
      modifies staffGroupRepository
      ensures staffGroupRepository.Valid()
      ensures staffGroupRepository.groups == Detached(old(staffGroupRepository.groups), id, today, groupIds)
    {
      var remaining := groupIds;
      ghost var done: set<string> := {};
      DetachedNothing(old(staffGroupRepository.groups), id, today);
      while remaining != {}
        invariant staffGroupRepository.Valid()
        invariant remaining + done == groupIds && remaining !! done
        invariant staffGroupRepository.groups == Detached(old(staffGroupRepository.groups), id, today, done)
        decreases |remaining|
      {
        var k :| k in remaining;
        // the copy `findAllByMemberIds` returned: not yet saved over
        DetachedStep(old(staffGroupRepository.groups), id, today, done, k);
        var group := staffGroupRepository.groups[k];
        staffGroupRepository.Save(WithoutMember(group, id, today));
        remaining := remaining - {k};
        done := done + {k};
      }
      assert done == groupIds;
    }

    /** `deleteStaff` (lines 121-138): removes the id from every group listing
        it, then the record. No lock is taken, yet its key is deleted. */
    method DeleteStaff(id: string, today: Date) returns (r: Result<Staff, ServiceError>)
      requires staffRepository.Valid() && staffGroupRepository.Valid()
      modifies staffRepository, staffGroupRepository, redisTemplate
      ensures staffRepository.Valid() && staffGroupRepository.Valid()
      ensures redisTemplate.store == old(redisTemplate.store) - {StaffLockKey(id)}
      ensures r.Ok? <==> id in old(staffRepository.staff)
      ensures r.Err? ==> r.error == ResourceNotFound("Staff not found")
                         && staffRepository.staff == old(staffRepository.staff)
                         && staffGroupRepository.groups == old(staffGroupRepository.groups)
      ensures r.Ok? ==> r.value == old(staffRepository.staff)[id]
                        && staffRepository.staff == old(staffRepository.staff) - {id}
                        && staffGroupRepository.groups
                           == Detached(old(staffGroupRepository.groups), id, today,
                                       Containing(old(staffGroupRepository.groups), id))
    {
      var found := staffRepository.FindById(id);
      if found.None? {
        r := Err(ResourceNotFound("Staff not found"));
      } else {
        var groupIds := staffGroupRepository.FindAllByMemberIds(id);
        SaveWithoutMember(groupIds, id, today);
        staffRepository.DeleteById(id);
        r := Ok(found.value);
      }
      redisTemplate.Delete(StaffLockKey(id));
    }

    /** `getStaffGroupsById` (lines 142-147): the groups listing an existing
        staff id. */
    function GetStaffGroupsById(id: string): (r: Result<set<StaffGroup>, ServiceError>)
      reads this, staffRepository, staffGroupRepository
      ensures r.Ok? <==> id in staffRepository.staff
      ensures r.Err? ==> r.error == ResourceNotFound("Staff not found with id: " + id)
      ensures r.Ok? ==> forall g :: g in r.value <==>
                          exists k :: k in staffGroupRepository.groups && staffGroupRepository.groups[k] == g
                                      && id in g.memberIds
    {
      if staffRepository.FindById(id).None? then Err(ResourceNotFound("Staff not found with id: " + id))
      else
        var groups := staffGroupRepository.groups;
        Ok(set k | k in staffGroupRepository.FindAllByMemberIds(id) :: groups[k])
    }

    /** One pass of the import loop (lines 159-184): lock the row's code,
        build its record if the code is new, delete the key. */
    method ImportOne(dto: CreateStaffDto, newId: string, today: Date) returns (locked: bool, row: seq<Staff>)
      modifies redisTemplate
      ensures redisTemplate.store == old(redisTemplate.store) - {CreateLockKey(dto.staffCode)}
      ensures locked <==> CreateLockKey(dto.staffCode) !in old(redisTemplate.store)
      ensures locked ==> row == ImportRow(staffRepository.staff, dto, newId, today)
    {
      var lockKey := CreateLockKey(dto.staffCode);
      locked := redisTemplate.SetIfAbsent(lockKey, dto.staffCode);
      row := [];
      if locked && !staffRepository.ExistsByStaffCode(dto.staffCode) {
        row := [Staff(newId, dto.staffCode, dto.name, dto.email, today, today)];
      }
      redisTemplate.Delete(lockKey);
    }

    /** The loop of `importStaff` (lines 158-185). It stops at the first row
        whose lock is held (`failed`, at row `i`); otherwise it returns the
        records to create. */
    method CollectImport(dtos: seq<CreateStaffDto>, newIds: seq<string>, today: Date)
      returns (failed: bool, i: int, created: seq<Staff>)
      requires |newIds| == |dtos|
      modifies redisTemplate
      ensures 0 <= i <= |dtos| && ImportLocksFree(old(redisTemplate.store), dtos[..i])
      ensures failed ==> i < |dtos| && CreateLockKey(dtos[i].staffCode) in old(redisTemplate.store)
                         && redisTemplate.store == old(redisTemplate.store) - ImportLockKeys(dtos[..i + 1])
      ensures !failed ==> i == |dtos|
                          && created == ImportedStaff(staffRepository.staff, dtos, newIds, today)
                          && redisTemplate.store == old(redisTemplate.store) - ImportLockKeys(dtos)
    {
      created := [];
      i := 0;
      while i < |dtos|
        invariant 0 <= i <= |dtos|
        invariant redisTemplate.store == old(redisTemplate.store) - ImportLockKeys(dtos[..i])
        invariant forall k :: k in ImportLockKeys(dtos[..i]) ==> k !in old(redisTemplate.store)
        invariant created == ImportedStaff(staffRepository.staff, dtos[..i], newIds[..i], today)
      {
        var dto := dtos[i];
        ImportAdvance(staffRepository.staff, old(redisTemplate.store), dtos, newIds, i, today);
        var locked, row := ImportOne(dto, newIds[i], today);
        if !locked {
          failed := true;
          return;
        }
        created := created + row;
        i := i + 1;
      }
      assert dtos[..i] == dtos && newIds[..i] == newIds;
      failed := false;
    }

    /** `importStaff` (lines 154-195) over the parsed rows; `newIds[i]` is the
        UUID row `i` would get. A held lock aborts the import before anything
        is saved; every key taken so far has been deleted. */
    method ImportStaff(dtos: seq<CreateStaffDto>, newIds: seq<string>, today: Date)
      returns (r: Result<seq<Staff>, ServiceError>)
      requires |newIds| == |dtos|
      requires staffRepository.Valid()
      modifies staffRepository, redisTemplate
      ensures staffRepository.Valid()
      ensures r.Ok? <==> ImportLocksFree(old(redisTemplate.store), dtos)
      ensures r.Ok? ==> r.value == ImportedStaff(old(staffRepository.staff), dtos, newIds, today)
                        && staffRepository.staff == SavedStaff(old(staffRepository.staff), r.value)
                        && redisTemplate.store == old(redisTemplate.store) - ImportLockKeys(dtos)
      ensures r.Err? ==> staffRepository.staff == old(staffRepository.staff)
                         && exists i :: 0 <= i < |dtos| && ImportLocksFree(old(redisTemplate.store), dtos[..i])
                              && CreateLockKey(dtos[i].staffCode) in old(redisTemplate.store)
                              && r.error == ImportLockFailure(dtos[i].staffCode)
                              && redisTemplate.store == old(redisTemplate.store) - ImportLockKeys(dtos[..i + 1])
    {
      var failed, i, created := CollectImport(dtos, newIds, today);
      if failed {
        r := Err(ImportLockFailure(dtos[i].staffCode));
        return;
      }
      assert dtos[..i] == dtos;
      if created != [] {
        staffRepository.SaveAll(created);
      }
      r := Ok(created);
    }
  }
}
