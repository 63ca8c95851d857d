/** `StaffGroupServiceImpl`: the staff-group hierarchy kept in the group
    index. Every write goes through `save`, `saveAll` or `deleteById`, after
    the whole batch has been computed, so a failure leaves the index as it
    was. Each method is proved to compute the table rewrite of
    `StaffGroupRules` (or `StaffGroupImport`) that describes it. */
module StaffGroupService {
  import opened Common
  import opened DateUtil
  import opened Locks
  import opened DataDomain
  import opened StaffGroupMapper
  import opened StaffGroupRules
  import opened StaffGroupImport

  /** The Redis key guarding the creation of `groupCode`. */
  function CreateGroupLockKey(groupCode: string): (k: string)
    ensures |k| == |"lock:staffgroup:create:"| + |groupCode|
    ensures k[..|"lock:staffgroup:create:"|] == "lock:staffgroup:create:"
    ensures k[|"lock:staffgroup:create:"|..] == groupCode
  {
    "lock:staffgroup:create:" + groupCode
  }

  /** The Redis key guarding one group. */
  function GroupLockKey(id: string): (k: string)
    ensures |k| == |"lock:staffgroup:"| + |id|
    ensures k[..|"lock:staffgroup:"|] == "lock:staffgroup:"
    ensures k[|"lock:staffgroup:"|..] == id
  {
    "lock:staffgroup:" + id
  }

  class StaffGroupServiceImpl {
    const staffGroupRepository: StaffGroupRepository
    const staffRepository: StaffRepository
    const redisTemplate: RedisTemplate

    constructor (staffGroupRepository: StaffGroupRepository, staffRepository: StaffRepository,
                 redisTemplate: RedisTemplate)
      ensures this.staffGroupRepository == staffGroupRepository
      ensures this.staffRepository == staffRepository
      ensures this.redisTemplate == redisTemplate
    {
      this.staffGroupRepository := staffGroupRepository;
      this.staffRepository := staffRepository;
      this.redisTemplate := redisTemplate;
    }

    /** The child-linking loops of create (lines 87-97) and update (lines
        156-168): reads each child and links the parentless ones to
        `parentId`. */
    method LinkLoop(parentId: string, childIds: seq<string>, today: Date, keepLinked: bool)
      returns (r: Result<Linked, ServiceError>)
      ensures r == LinkChildren(staffGroupRepository.groups, parentId, childIds, today, keepLinked)
    {
      var saved: seq<StaffGroup> := [];
      var entries: seq<StaffGroupChildDto> := [];
      var i := 0;
      while i < |childIds|
        invariant 0 <= i <= |childIds|
        invariant LinkChildren(staffGroupRepository.groups, parentId, childIds[..i], today, keepLinked)
                  == Ok(Linked(saved, entries))
      {
        var childId := childIds[i];
        assert childIds[..i + 1][..i] == childIds[..i];
        var found := staffGroupRepository.FindById(childId);
        if found.None? {
          r := Err(ResourceNotFound("Child group not found with id: " + childId));
          LinkChildrenStopsAtFailure(staffGroupRepository.groups, parentId, childIds, i + 1, today, keepLinked);
          return;
        }
        var child := found.value;
        if child.parentId.Some? && !(keepLinked && child.parentId.value == parentId) {
          r := Err(DuplicateResource("Child group already has a parent: " + childId));
          LinkChildrenStopsAtFailure(staffGroupRepository.groups, parentId, childIds, i + 1, today, keepLinked);
          return;
        }
        if child.parentId.None? {
          var linked := child.(parentId := Some(parentId), updatedAt := today);
          saved := saved + [linked];
          entries := entries + [ToChildDto(linked)];
        }
        i := i + 1;
      }
      assert childIds[..i] == childIds;
      r := Ok(Linked(saved, entries));
    }

    /** The release loops of update (lines 144-154, 171-179) and delete
        (lines 243-251): every child entry not in `keep` whose group is
        stored yields that group without a parent. */
    method DetachLoop(entries: seq<StaffGroupChildDto>, keep: seq<string>, today: Date)
      returns (saved: seq<StaffGroup>)
      ensures saved == Detach(staffGroupRepository.groups, entries, keep, today)
    {
      saved := [];
      var i := 0;
      while i < |entries|
        invariant 0 <= i <= |entries|
        invariant saved == Detach(staffGroupRepository.groups, entries[..i], keep, today)
      {
        assert entries[..i + 1][..i] == entries[..i];
        var e := entries[i];
        if e.id !in keep {
          var found := staffGroupRepository.FindById(e.id);
          if found.Some? {
            saved := saved + [found.value.(parentId := None, updatedAt := today)];
          }
        }
        i := i + 1;
      }
      assert entries[..i] == entries;
    }

    /** The body of `createStaffGroup` between the lock and `saveAll` (lines
        71-107): the new group and the batch to save. The children loop runs
        only when the given id list is empty (line 86), so it links nothing. */
    method PlanCreate(groupCode: string, name: string, parentId: Option<string>, childrenIds: Option<seq<string>>,
                      newId: string, today: Date) returns (r: Result<(StaffGroup, seq<StaffGroup>), ServiceError>)
      ensures r == CreatePlanAsWritten(staffGroupRepository.groups, newId, groupCode, name, parentId, childrenIds, today)
    {
      if staffGroupRepository.ExistsByGroupCode(groupCode) {
        return Err(DuplicateResource("StaffGroup already exist with code: " + groupCode));
      }
      var staffGroup := NewGroup(newId, groupCode, name, today);
      var walked := if childrenIds.Some? && |childrenIds.value| == 0 then childrenIds.value else [];
      var linked := LinkLoop(newId, walked, today, false);
      var l: Linked;
      match linked {
        case Err(e) => return Err(e);
        case Ok(v) => l := v;
      }
      staffGroup := staffGroup.(children := l.entries);
      if parentId.None? {
        return Ok((staffGroup, [staffGroup] + l.saved));
      }
      var parentGroup := staffGroupRepository.FindById(parentId.value);
      if parentGroup.None? {
        return Err(ResourceNotFound("Parent group not found with id: " + parentId.value));
      }
      staffGroup := staffGroup.(parentId := Some(parentGroup.value.id));
      var parent := WithChildEntry(parentGroup.value, staffGroup, today);
      r := Ok((staffGroup, [staffGroup] + l.saved + [parent]));
    }

    /** `createStaffGroup` (lines 64-114), with the children guard of line 86
        as written; `newId` is the random UUID. The lock key is deleted on
        every path, and only a successful plan is saved. */
    method CreateStaffGroup(groupCode: string, name: string, parentId: Option<string>,
                            childrenIds: Option<seq<string>>, newId: string, today: Date)
      returns (r: Result<StaffGroup, ServiceError>)
      requires staffGroupRepository.Valid()
      modifies staffGroupRepository, redisTemplate
      ensures staffGroupRepository.Valid()
      ensures redisTemplate.store == old(redisTemplate.store) - {CreateGroupLockKey(groupCode)}
      ensures CreateGroupLockKey(groupCode) in old(redisTemplate.store)
              ==> r == Err(Runtime("Could not acquire lock for groupCode: " + groupCode))
      ensures r.Err? ==> staffGroupRepository.groups == old(staffGroupRepository.groups)
      ensures CreateGroupLockKey(groupCode) !in old(redisTemplate.store)
              ==> var plan := CreatePlanAsWritten(old(staffGroupRepository.groups), newId, groupCode, name, parentId,
                                                  childrenIds, today);
                  && (plan.Err? ==> r == Err(plan.error))
                  && (plan.Ok? ==> r == Ok(plan.value.0)
                                   && staffGroupRepository.groups
                                      == SavedGroups(old(staffGroupRepository.groups), plan.value.1))
    {
      ghost var expected := CreatePlanAsWritten(staffGroupRepository.groups, newId, groupCode, name, parentId,
                                                childrenIds, today);
      var lockKey := CreateGroupLockKey(groupCode);
      AcquireThenDelete(redisTemplate.store, lockKey, groupCode);
      var locked := redisTemplate.SetIfAbsent(lockKey, groupCode);
      if !locked {
        r := Err(Runtime("Could not acquire lock for groupCode: " + groupCode));
      } else {
        var plan := PlanCreate(groupCode, name, parentId, childrenIds, newId, today);
        assert plan == expected;
        if plan.Err? {
          r := Err(plan.error);
        } else {
          staffGroupRepository.SaveAll(plan.value.1);
          r := Ok(plan.value.0);
        }
      }
      redisTemplate.Delete(lockKey);
    }

    /** The body of `updateStaffGroup` between the lock and `saveAll` (lines
        129-205): the batch to save, the updated group first. */
    method PlanUpdate(id: string, groupCode: Option<string>, name: string, parentId: Option<string>,
                      childrenIds: Option<seq<string>>, today: Date) returns (r: Result<seq<StaffGroup>, ServiceError>)
      requires staffGroupRepository.Valid()
      ensures r == UpdatePlan(staffGroupRepository.groups, id, groupCode, name, parentId, childrenIds, today)
    {
      var found := staffGroupRepository.FindById(id);
      if found.None? {
        return Err(ResourceNotFound("Staff group not found with id: " + id));
      }
      if groupCode.None? || groupCode.value == "" {
        return Err(IllegalArgument("Group ID cannot be null or empty"));
      }
      if staffGroupRepository.ExistsByGroupCode(groupCode.value) && found.value.groupCode != groupCode.value {
        return Err(DuplicateResource("StaffGroup already exist with group code: " + groupCode.value));
      }
      var staffGroup := found.value.(groupCode := groupCode.value, name := name);
      var children := RelinkChildrenLoops(staffGroup, childrenIds, today);
      if children.Err? {
        return Err(children.error);
      }
      var parent := RelinkParentLookups(children.value.0, parentId, today);
      if parent.Err? {
        return Err(parent.error);
      }
      r := Ok([parent.value.0.(updatedAt := today)] + children.value.1 + parent.value.1);
    }

    /** The children part of `updateStaffGroup` (lines 143-181) on the group
        `g` being updated: the group with its new children list, and the
        children to save. */
    method RelinkChildrenLoops(g: StaffGroup, childrenIds: Option<seq<string>>, today: Date)
      returns (r: Result<(StaffGroup, seq<StaffGroup>), ServiceError>)
      ensures r == RelinkChildren(staffGroupRepository.groups, g, childrenIds, today)
    {
      if childrenIds.Some? {
        var dropped := DetachLoop(g.children, childrenIds.value, today);
        var linked := LinkLoop(g.id, childrenIds.value, today, true);
        if linked.Err? {
          return Err(linked.error);
        }
        r := Ok((g.(children := linked.value.entries), dropped + linked.value.saved));
      } else if g.children != [] {
        var released := DetachLoop(g.children, [], today);
        r := Ok((g.(children := []), released));
      } else {
        r := Ok((g, []));
      }
    }

    /** The parent part of `updateStaffGroup` (lines 184-204) on the group
        `g` being updated: the group with its new parent, and the parents to
        save. */
    method RelinkParentLookups(g: StaffGroup, parentId: Option<string>, today: Date)
      returns (r: Result<(StaffGroup, seq<StaffGroup>), ServiceError>)
      ensures r == RelinkParent(staffGroupRepository.groups, g, parentId, today)
    {
      var oldParentId := g.parentId;
      if parentId.Some? && parentId != oldParentId {
        var newParent := staffGroupRepository.FindById(parentId.value);
        if newParent.None? {
          return Err(ResourceNotFound("Parent group not found with id: " + parentId.value));
        }
        if oldParentId.None? {
          return Err(IllegalArgument(NULL_ID_MESSAGE));
        }
        var oldParent := staffGroupRepository.FindById(oldParentId.value);
        if oldParent.None? {
          return Err(ResourceNotFound("Old parent group not found with id: " + oldParentId.value));
        }
        var moved := g.(parentId := Some(newParent.value.id));
        r := Ok((moved, [Unlinked(oldParent.value, g.id, today), WithChildEntry(newParent.value, moved, today)]));
      } else if parentId.None? && oldParentId.Some? {
        var oldParent := staffGroupRepository.FindById(oldParentId.value);
        if oldParent.None? {
          return Err(ResourceNotFound("Old parent group not found with id: " + oldParentId.value));
        }
        r := Ok((g.(parentId := None), [Unlinked(oldParent.value, g.id, today)]));
      } else {
        r := Ok((g, []));
      }
    }

    /** `updateStaffGroup` (lines 122-212): the lock key is deleted on every
        path, and only a successful plan is saved. */
    method UpdateStaffGroup(id: string, groupCode: Option<string>, name: string, parentId: Option<string>,
                            childrenIds: Option<seq<string>>, today: Date) returns (r: Result<StaffGroup, ServiceError>)
      requires staffGroupRepository.Valid()
      modifies staffGroupRepository, redisTemplate
      ensures staffGroupRepository.Valid()
      ensures redisTemplate.store == old(redisTemplate.store) - {GroupLockKey(id)}
      ensures GroupLockKey(id) in old(redisTemplate.store) ==> r == Err(Runtime("Could not acquire lock for id: " + id))
      ensures r.Err? ==> staffGroupRepository.groups == old(staffGroupRepository.groups)
      ensures GroupLockKey(id) !in old(redisTemplate.store)
              ==> var plan := UpdatePlan(old(staffGroupRepository.groups), id, groupCode, name, parentId,
                                         childrenIds, today);
                  && (plan.Err? ==> r == Err(plan.error))
                  && (plan.Ok? ==> r == Ok(plan.value[0])
                                   && staffGroupRepository.groups
                                      == SavedGroups(old(staffGroupRepository.groups), plan.value))
    {
      var lockKey := GroupLockKey(id);
      var locked := redisTemplate.SetIfAbsent(lockKey, id);
      if !locked {
        r := Err(Runtime("Could not acquire lock for id: " + id));
      } else {
        var plan := PlanUpdate(id, groupCode, name, parentId, childrenIds, today);
        if plan.Err? {
          r := Err(plan.error);
        } else {
          staffGroupRepository.SaveAll(plan.value);
          r := Ok(plan.value[0]);
        }
      }
      redisTemplate.Delete(lockKey);
    }

    /** `deleteStaffGroup` (lines 221-260): the parent loses the group's
        entry, the children are released, then the group is deleted. */
    method DeleteStaffGroup(id: string, today: Date) returns (r: Result<StaffGroup, ServiceError>)
      requires staffGroupRepository.Valid()
      modifies staffGroupRepository, redisTemplate
      ensures staffGroupRepository.Valid()
      ensures redisTemplate.store == old(redisTemplate.store) - {GroupLockKey(id)}
      ensures GroupLockKey(id) in old(redisTemplate.store)
              ==> r == Err(Runtime("Could not acquire lock for group id: " + id))
      ensures GroupLockKey(id) !in old(redisTemplate.store) && id !in old(staffGroupRepository.groups)
              ==> r == Err(ResourceNotFound("StaffGroup not found with id: " + id))
      ensures r.Err? ==> staffGroupRepository.groups == old(staffGroupRepository.groups)
      ensures GroupLockKey(id) !in old(redisTemplate.store) && id in old(staffGroupRepository.groups)
              ==> var plan := DeletePlan(old(staffGroupRepository.groups), id, today);
                  && (plan.Err? ==> r == Err(plan.error))
                  && (plan.Ok? ==> r == Ok(old(staffGroupRepository.groups)[id])
                                   && staffGroupRepository.groups
                                      == SavedGroups(old(staffGroupRepository.groups), plan.value) - {id})
    {
      var lockKey := GroupLockKey(id);
      var locked := redisTemplate.SetIfAbsent(lockKey, id);
      if !locked {
        r := Err(Runtime("Could not acquire lock for group id: " + id));
      } else {
        var found := staffGroupRepository.FindById(id);
        if found.None? {
          r := Err(ResourceNotFound("StaffGroup not found with id: " + id));
        } else {
          var plan := PlanDelete(id, today);
          if plan.Err? {
            r := Err(plan.error);
          } else {
            if plan.value != [] {
              staffGroupRepository.SaveAll(plan.value);
            }
            staffGroupRepository.DeleteById(id);
            r := Ok(found.value);
          }
        }
      }
      redisTemplate.Delete(lockKey);
    }

    /** The body of `deleteStaffGroup` between the lookup and `saveAll`
        (lines 233-251): the parent without the group's entry, then the
        released children. */
    method PlanDelete(id: string, today: Date) returns (r: Result<seq<StaffGroup>, ServiceError>)
      requires id in staffGroupRepository.groups
      ensures r == DeletePlan(staffGroupRepository.groups, id, today)
    {
      var staffGroup := staffGroupRepository.groups[id];
      var groupsToUpdate: seq<StaffGroup> := [];
      if staffGroup.parentId.Some? {
        var parentGroup := staffGroupRepository.FindById(staffGroup.parentId.value);
        if parentGroup.None? {
          return Err(ResourceNotFound("Parent group not found with id: " + staffGroup.parentId.value));
        }
        groupsToUpdate := [Unlinked(parentGroup.value, id, today)];
      }
      var released := DetachLoop(staffGroup.children, [], today);
      r := Ok(groupsToUpdate + released);
    }

    /** `addStaffToGroup` (lines 269-288): the staff id joins the members of
        an existing group, if the staff record exists. */
    method AddStaffToGroup(id: string, staffId: string, today: Date) returns (r: Result<StaffGroup, ServiceError>)
      requires staffGroupRepository.Valid()
      modifies staffGroupRepository, redisTemplate
      ensures staffGroupRepository.Valid()
      ensures redisTemplate.store == old(redisTemplate.store) - {GroupLockKey(id)}
      ensures GroupLockKey(id) in old(redisTemplate.store)
              ==> r == Err(Runtime("Could not acquire lock for group id: " + id))
      ensures GroupLockKey(id) !in old(redisTemplate.store) && id !in old(staffGroupRepository.groups)
              ==> r == Err(ResourceNotFound("Staff Group not found with id: " + id))
      ensures GroupLockKey(id) !in old(redisTemplate.store) && id in old(staffGroupRepository.groups)
              && staffId !in staffRepository.staff
              ==> r == Err(ResourceNotFound("Staff not found with id: " + staffId))
      ensures r.Ok? <==> GroupLockKey(id) !in old(redisTemplate.store) && id in old(staffGroupRepository.groups)
                         && staffId in staffRepository.staff
      ensures r.Err? ==> staffGroupRepository.groups == old(staffGroupRepository.groups)
      ensures r.Ok? ==> r.value == WithMember(old(staffGroupRepository.groups)[id], staffId, today)
                        && staffGroupRepository.groups == old(staffGroupRepository.groups)[id := r.value]
    {
      var lockKey := GroupLockKey(id);
      var locked := redisTemplate.SetIfAbsent(lockKey, id);
      if !locked {
        r := Err(Runtime("Could not acquire lock for group id: " + id));
      } else {
        var found := staffGroupRepository.FindById(id);
        if found.None? {
          r := Err(ResourceNotFound("Staff Group not found with id: " + id));
        } else if !staffRepository.ExistsById(staffId) {
          r := Err(ResourceNotFound("Staff not found with id: " + staffId));
        } else {
          var staffGroup := WithMember(found.value, staffId, today);
          staffGroupRepository.Save(staffGroup);
          r := Ok(staffGroup);
        }
      }
      redisTemplate.Delete(lockKey);
    }

    /** `removeStaffFromGroup` (lines 297-316): the staff id leaves the
        members of an existing group, if the staff record exists. */
    method RemoveStaffFromGroup(id: string, staffId: string, today: Date) returns (r: Result<StaffGroup, ServiceError>)
      requires staffGroupRepository.Valid()
      modifies staffGroupRepository, redisTemplate
      ensures staffGroupRepository.Valid()
      ensures redisTemplate.store == old(redisTemplate.store) - {GroupLockKey(id)}
      ensures GroupLockKey(id) in old(redisTemplate.store)
              ==> r == Err(Runtime("Could not acquire lock for group id: " + id))
      ensures GroupLockKey(id) !in old(redisTemplate.store) && id !in old(staffGroupRepository.groups)
              ==> r == Err(ResourceNotFound("Staff Group not found with id: " + id))
      ensures GroupLockKey(id) !in old(redisTemplate.store) && id in old(staffGroupRepository.groups)
              && staffId !in staffRepository.staff
              ==> r == Err(ResourceNotFound("Staff not found with id: " + staffId))
      ensures r.Ok? <==> GroupLockKey(id) !in old(redisTemplate.store) && id in old(staffGroupRepository.groups)
                         && staffId in staffRepository.staff
      ensures r.Err? ==> staffGroupRepository.groups == old(staffGroupRepository.groups)
      ensures r.Ok? ==> r.value == WithoutMember(old(staffGroupRepository.groups)[id], staffId, today)
                        && staffGroupRepository.groups == old(staffGroupRepository.groups)[id := r.value]
    {
      var lockKey := GroupLockKey(id);
      var locked := redisTemplate.SetIfAbsent(lockKey, id);
      if !locked {
        r := Err(Runtime("Could not acquire lock for group id: " + id));
      } else {
        var found := staffGroupRepository.FindById(id);
        if found.None? {
          r := Err(ResourceNotFound("Staff Group not found with id: " + id));
        } else if !staffRepository.ExistsById(staffId) {
          r := Err(ResourceNotFound("Staff not found with id: " + staffId));
        } else {
          var staffGroup := WithoutMember(found.value, staffId, today);
          staffGroupRepository.Save(staffGroup);
          r := Ok(staffGroup);
        }
      }
      redisTemplate.Delete(lockKey);
    }

    /** `resolveGroupMembersRecursive` (lines 440-452): the group's members
        united with those of each stored child, recursively. `None` when the
        recursion is deeper than `fuel`. */
    method ResolveMembers(g: StaffGroup, fuel: nat) returns (r: Option<set<string>>)
      ensures r == Resolved(staffGroupRepository.groups, g, fuel)
      decreases fuel
    {
      if fuel == 0 {
        return None;
      }
      var members := g.memberIds;
      ghost var fromChildren: set<string> := {};
      var i := 0;
      while i < |g.children|
        invariant 0 <= i <= |g.children|
        invariant ResolvedChildren(staffGroupRepository.groups, g.children[..i], fuel - 1) == Some(fromChildren)
        invariant members == g.memberIds + fromChildren
      {
        assert g.children[..i + 1][..i] == g.children[..i];
        var childGroup := staffGroupRepository.FindById(g.children[i].id);
        if childGroup.Some? {
          var sub := ResolveMembers(childGroup.value, fuel - 1);
          if sub.None? {
            ResolvedChildrenStopsAtNone(staffGroupRepository.groups, g.children, i + 1, fuel - 1);
            return None;
          }
          members := members + sub.value;
          fromChildren := fromChildren + sub.value;
        }
        i := i + 1;
      }
      assert g.children[..i] == g.children;
      r := Some(members);
    }

    /** `resolveGroupMembers` (lines 320-324): the resolution of a stored
        group. */
    method ResolveGroupMembers(id: string, fuel: nat) returns (r: Result<Option<set<string>>, ServiceError>)
      ensures r.Err? <==> id !in staffGroupRepository.groups
      ensures r.Err? ==> r.error == ResourceNotFound("StaffGroup not found with id: " + id)
      ensures r.Ok? ==> r.value == Resolved(staffGroupRepository.groups, staffGroupRepository.groups[id], fuel)
    {
      var found := staffGroupRepository.FindById(id);
      if found.None? {
        return Err(ResourceNotFound("StaffGroup not found with id: " + id));
      }
      var members := ResolveMembers(found.value, fuel);
      r := Ok(members);
    }

    /** `getGroupMembersById` (lines 327-331): a stored group's own members,
        without its children's. */
    function GetGroupMembersById(id: string): (r: Result<set<string>, ServiceError>)
      reads this, staffGroupRepository
      ensures r.Err? <==> id !in staffGroupRepository.groups
      ensures r.Err? ==> r.error == ResourceNotFound("StaffGroup not found with id: " + id)
      ensures r.Ok? ==> r.value == staffGroupRepository.groups[id].memberIds
    {
      match staffGroupRepository.FindById(id)
      case None => Err(ResourceNotFound("StaffGroup not found with id: " + id))
      case Some(g) => Ok(g.memberIds)
    }

    /** One pass of the phase-1 loop (lines 347-373): lock the row's code,
        build its group if the code is not stored, delete the key. */
    method ImportOneGroup(dto: ImportStaffGroupDto, newId: string, today: Date) returns (locked: bool, row: seq<StaffGroup>)
      modifies redisTemplate
      ensures redisTemplate.store == old(redisTemplate.store) - {GroupImportLockKey(dto.groupCode)}
      ensures locked <==> GroupImportLockKey(dto.groupCode) !in old(redisTemplate.store)
      ensures locked ==> row == ImportedGroupRow(staffGroupRepository.groups, dto, newId, today)
    {
      var lockKey := GroupImportLockKey(dto.groupCode);
      locked := redisTemplate.SetIfAbsent(lockKey, dto.groupCode);
      row := [];
      if locked && !staffGroupRepository.ExistsByGroupCode(dto.groupCode) {
        row := [NewGroup(newId, dto.groupCode, dto.name, today)];
      }
      redisTemplate.Delete(lockKey);
    }

    /** Phase 1 of `importStaffGroups` (lines 346-374). It stops at the first
        row whose lock is held (`failed`, at row `i`); otherwise it returns
        the groups to create and the code-to-id map. */
    method CollectGroupImport(dtos: seq<ImportStaffGroupDto>, newIds: seq<string>, today: Date)
      returns (failed: bool, i: int, created: seq<StaffGroup>, codeToId: map<string, string>)
      requires |newIds| == |dtos|
      modifies redisTemplate
      ensures 0 <= i <= |dtos| && GroupImportLocksFree(old(redisTemplate.store), dtos[..i])
      ensures failed ==> i < |dtos| && GroupImportLockKey(dtos[i].groupCode) in old(redisTemplate.store)
                         && redisTemplate.store == old(redisTemplate.store) - GroupImportLockKeys(dtos[..i + 1])
      ensures !failed ==> i == |dtos|
                          && created == ImportedGroups(staffGroupRepository.groups, dtos, newIds, today)
                          && codeToId == CodeToId(created)
                          && redisTemplate.store == old(redisTemplate.store) - GroupImportLockKeys(dtos)
    {
      created := [];
      codeToId := map[];
      i := 0;
      while i < |dtos|
        invariant 0 <= i <= |dtos|
        invariant redisTemplate.store == old(redisTemplate.store) - GroupImportLockKeys(dtos[..i])
        invariant forall k :: k in GroupImportLockKeys(dtos[..i]) ==> k !in old(redisTemplate.store)
        invariant created == ImportedGroups(staffGroupRepository.groups, dtos[..i], newIds[..i], today)
        invariant codeToId == CodeToId(created)
      {
        var dto := dtos[i];
        Phase1Advance(staffGroupRepository.groups, old(redisTemplate.store), dtos, newIds, i, today);
        var locked, row := ImportOneGroup(dto, newIds[i], today);
        if !locked {
          failed := true;
          return;
        }
        CodeToIdSnoc(created, row);
        if row != [] {
          codeToId := codeToId[row[0].groupCode := row[0].id];
        }
        created := created + row;
        i := i + 1;
      }
      assert dtos[..i] == dtos && newIds[..i] == newIds;
      failed := false;
    }

    /** The group a phase-2 row works on (lines 384-388): the first created
        group with its code, else the one the index finds by code. */
    method OwnRef(created: seq<StaffGroup>, groupCode: string) returns (r: Result<GroupRef, ServiceError>)
      requires staffGroupRepository.Valid()
      requires FirstWithCode(created, groupCode).None? ==> UniqueCode(staffGroupRepository.groups, groupCode)
      ensures r == OwnGroup(staffGroupRepository.groups, created, groupCode)
    {
      var first := FirstWithCode(created, groupCode);
      if first.Some? {
        return Ok(Created(first.value));
      }
      var stored := staffGroupRepository.FindByGroupCode(groupCode);
      if stored.None? {
        return Err(ResourceNotFound("Group not found: " + groupCode));
      }
      r := Ok(Copy(stored.value));
    }

    /** The parent a phase-2 row names (lines 398-410). */
    method ParentRef(codeToId: map<string, string>, created: seq<StaffGroup>, parentCode: string)
      returns (r: Result<GroupRef, ServiceError>)
      requires staffGroupRepository.Valid()
      requires parentCode !in codeToId ==> UniqueCode(staffGroupRepository.groups, parentCode)
      ensures r == ParentGroup(staffGroupRepository.groups, codeToId, created, parentCode)
    {
      if parentCode in codeToId {
        var parentId := codeToId[parentCode];
        var first := FirstWithId(created, parentId);
        if first.Some? {
          return Ok(Created(first.value));
        }
        var stored := staffGroupRepository.FindById(parentId);
        if stored.None? {
          return Err(ResourceNotFound("Parent group not found with id: " + parentId));
        }
        return Ok(Copy(stored.value));
      }
      var stored := staffGroupRepository.FindByGroupCode(parentCode);
      if stored.None? {
        return Err(ResourceNotFound("Parent group not found with code: " + parentCode));
      }
      r := Ok(Copy(stored.value));
    }

    /** One pass of the phase-2 loop (lines 384-427). Phase 1 deleted every
        row's key, so the lock is free here. */
    method Phase2Row(codeToId: map<string, string>, st: Phase2, d: ImportStaffGroupDto, today: Date)
      returns (r: Result<Phase2, ServiceError>)
      requires staffGroupRepository.Valid()
      requires FirstWithCode(st.created, d.groupCode).None? ==> UniqueCode(staffGroupRepository.groups, d.groupCode)
      requires d.parentCode.Some? && d.parentCode.value !in codeToId
               ==> UniqueCode(staffGroupRepository.groups, d.parentCode.value)
      requires GroupImportLockKey(d.groupCode) !in redisTemplate.store
      modifies redisTemplate
      ensures redisTemplate.store == old(redisTemplate.store)
      ensures r == Step(staffGroupRepository.groups, codeToId, st, d, today)
    {
      var own := OwnRef(st.created, d.groupCode);
      if own.Err? {
        return Err(own.error);
      }
      var lockKey := GroupImportLockKey(d.groupCode);
      var locked := redisTemplate.SetIfAbsent(lockKey, d.groupCode);
      if !locked {
        r := Err(GroupLockFailure(d.groupCode));
      } else if d.parentCode.None? {
        r := Ok(Stamp(st, own.value, today));
      } else {
        var parent := ParentRef(codeToId, st.created, d.parentCode.value);
        if parent.Err? {
          r := Err(parent.error);
        } else {
          var attached := Attach(st, own.value, parent.value, today);
          r := Ok(Stamp(attached.0, attached.1, today));
        }
      }
      redisTemplate.Delete(lockKey);
      assert redisTemplate.store == old(redisTemplate.store);
    }

    /** Phase 2 of `importStaffGroups` (lines 383-428), over the table phase
        1 saved into. It stops at the first failing row. */
    method RunPhase2(codeToId: map<string, string>, created: seq<StaffGroup>, dtos: seq<ImportStaffGroupDto>,
                     today: Date) returns (r: Result<Phase2, ServiceError>)
      requires staffGroupRepository.Valid()
      requires codeToId == CodeToId(created)
      requires UniqueBesides(staffGroupRepository.groups, created, dtos)
      requires GroupImportLocksFree(redisTemplate.store, dtos)
      modifies redisTemplate
      ensures redisTemplate.store == old(redisTemplate.store)
      ensures r == Phase2Run(staffGroupRepository.groups, codeToId, created, dtos, today)
    {
      var table := staffGroupRepository.groups;
      var st := Phase2(created, []);
      var i := 0;
      while i < |dtos|
        invariant 0 <= i <= |dtos|
        invariant redisTemplate.store == old(redisTemplate.store)
        invariant Phase2Run(table, codeToId, created, dtos[..i], today) == Ok(st)
      {
        var d := dtos[i];
        Phase2Ready(table, created, dtos, i, today);
        assert GroupImportLockKey(d.groupCode) !in redisTemplate.store;
        var next := Phase2Row(codeToId, st, d, today);
        Phase2Advance(table, codeToId, created, dtos, i, today, next);
        if next.Err? {
          return next;
        }
        st := next.value;
        i := i + 1;
      }
      assert dtos[..i] == dtos;
      r := Ok(st);
    }

    /** `importStaffGroups` (lines 339-438) over the parsed rows; `newIds[i]`
        is the UUID row `i` would get. A held lock in phase 1 aborts before
        anything is saved; a failure in phase 2 keeps phase 1's groups. Every
        failure is wrapped. Answers the created groups as phase 2 left them. */
    method ImportStaffGroups(dtos: seq<ImportStaffGroupDto>, newIds: seq<string>, today: Date)
      returns (r: Result<seq<StaffGroup>, ServiceError>)
      requires |newIds| == |dtos|
      requires staffGroupRepository.Valid() && MentionedCodesUnique(staffGroupRepository.groups, dtos)
      modifies staffGroupRepository, redisTemplate
      ensures staffGroupRepository.Valid()
      ensures r.Ok? <==> GroupImportLocksFree(old(redisTemplate.store), dtos)
                         && ImportPhase2(old(staffGroupRepository.groups), dtos, newIds, today).Ok?
      ensures r.Ok? ==> r.value == ImportPhase2(old(staffGroupRepository.groups), dtos, newIds, today).value.created
      ensures GroupImportLocksFree(old(redisTemplate.store), dtos)
              ==> staffGroupRepository.groups == ImportedTable(old(staffGroupRepository.groups), dtos, newIds, today)
                  && redisTemplate.store == old(redisTemplate.store) - GroupImportLockKeys(dtos)
      ensures GroupImportLocksFree(old(redisTemplate.store), dtos) && r.Err?
              ==> r.error == GroupImportFailure(ImportPhase2(old(staffGroupRepository.groups), dtos, newIds, today).error)
      ensures !GroupImportLocksFree(old(redisTemplate.store), dtos)
              ==> staffGroupRepository.groups == old(staffGroupRepository.groups)
                  && exists i :: 0 <= i < |dtos| && GroupImportLocksFree(old(redisTemplate.store), dtos[..i])
                       && GroupImportLockKey(dtos[i].groupCode) in old(redisTemplate.store)
                       && r.error == GroupImportFailure(GroupLockFailure(dtos[i].groupCode))
                       && redisTemplate.store == old(redisTemplate.store) - GroupImportLockKeys(dtos[..i + 1])
    {
      var failed, i, created, codeToId := CollectGroupImport(dtos, newIds, today);
      if failed {
        r := Err(GroupImportFailure(GroupLockFailure(dtos[i].groupCode)));
        return;
      }
      assert dtos[..i] == dtos;
      if created != [] {
        staffGroupRepository.SaveAll(created);
      }
      UncreatedCodesUnique(old(staffGroupRepository.groups), created, dtos);
      var phase2 := RunPhase2(codeToId, created, dtos, today);
      if phase2.Err? {
        r := Err(GroupImportFailure(phase2.error));
        return;
      }
      var updatedGroups := Resolve(phase2.value);
      if updatedGroups != [] {
        staffGroupRepository.SaveAll(updatedGroups);
      }
      r := Ok(phase2.value.created);
    }
  }
}
