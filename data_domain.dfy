/** Documents of the data service (staff and staff groups), the errors its
    operations raise, the rows an import file holds, and the Elasticsearch
    repositories and Redis template the services write through. */
module DataDomain {
  import opened Common
  import opened DateUtil
  import opened Locks

  /** `Staff`. */
  datatype Staff = Staff(
    id: string,
    staffCode: string,
    name: string,
    email: string,
    createdAt: Date,
    updatedAt: Date)

  /** `StaffGroupChildDto`: the entry a group keeps about one sub-group, a
      snapshot of that sub-group taken when the entry was written. */
  datatype StaffGroupChildDto = StaffGroupChildDto(
    id: string,
    groupCode: string,
    name: string,
    parentId: Option<string>,
    createdAt: Date,
    updatedAt: Date)

  /** `StaffGroup`: a node of the group tree. The parent link is an id; the
      downward links are the embedded child entries. */
  datatype StaffGroup = StaffGroup(
    id: string,
    groupCode: string,
    name: string,
    parentId: Option<string>,
    children: seq<StaffGroupChildDto>,
    memberIds: set<string>,
    createdAt: Date,
    updatedAt: Date)

  /** The exceptions the data services raise (`RuntimeException` is `Runtime`). */
  datatype ServiceError =
    | ResourceNotFound(message: string)
    | DuplicateResource(message: string)
    | IllegalArgument(message: string)
    | Runtime(message: string)

  /** One row of a staff import file. */
  datatype CreateStaffDto = CreateStaffDto(staffCode: string, name: string, email: string)

  /** One row of a staff-group import file. */
  datatype ImportStaffGroupDto = ImportStaffGroupDto(
    groupCode: string,
    name: string,
    parentCode: Option<string>,
    childrenCodes: set<string>)

  /** Every stored group sits under its own id. */
  predicate GroupsKeyed(groups: map<string, StaffGroup>)
  {
    forall k :: k in groups ==> groups[k].id == k
  }

  /** True when no two stored groups share a group code. */
  predicate UniqueGroupCodes(groups: map<string, StaffGroup>)
  {
    forall k, k' :: k in groups && k' in groups && groups[k].groupCode == groups[k'].groupCode ==> k == k'
  }

  /** At most one stored group carries `groupCode`. */
  predicate UniqueCode(groups: map<string, StaffGroup>, groupCode: string)
  {
    forall k, k' ::
      k in groups && k' in groups && groups[k].groupCode == groupCode && groups[k'].groupCode == groupCode
      ==> k == k'
  }

  /** A stored group carrying `groupCode`, if any (the one, when the code is
      unique). */
  ghost function GroupByCode(groups: map<string, StaffGroup>, groupCode: string): (r: Option<StaffGroup>)
    ensures r.Some? <==> exists k :: k in groups && groups[k].groupCode == groupCode
    ensures r.Some? ==> exists k :: k in groups && groups[k] == r.value && r.value.groupCode == groupCode
  {
    if exists k :: k in groups && groups[k].groupCode == groupCode then
      var k :| k in groups && groups[k].groupCode == groupCode;
      Some(groups[k])
    else None
  }

  /** The group table after saving `batch` one document after another: a
      later save of the same id overwrites an earlier one. */
  function SavedGroups(table: map<string, StaffGroup>, batch: seq<StaffGroup>): (r: map<string, StaffGroup>)
    ensures r.Keys == table.Keys + (set g | g in batch :: g.id)
    ensures forall k :: k in table && (forall g :: g in batch ==> g.id != k) ==> r[k] == table[k]
  {
    if batch == [] then table
    else
      var front := batch[..|batch| - 1];
      var last := batch[|batch| - 1];
      assert batch == front + [last];
      SavedGroups(table, front)[last.id := last]
  }

  lemma SavedGroupsSnoc(table: map<string, StaffGroup>, batch: seq<StaffGroup>, g: StaffGroup)
    ensures SavedGroups(table, batch + [g]) == SavedGroups(table, batch)[g.id := g]
  {
    assert (batch + [g])[..|batch|] == batch;
  }

  /** The last document of `batch` with id `k` is the one the table keeps. */
  lemma {:induction false} SavedGroupsLastWins(table: map<string, StaffGroup>, batch: seq<StaffGroup>, i: int)
    requires 0 <= i < |batch|
    requires forall j :: i < j < |batch| ==> batch[j].id != batch[i].id
    ensures SavedGroups(table, batch)[batch[i].id] == batch[i]
  {
    var front := batch[..|batch| - 1];
    assert batch == front + [batch[|batch| - 1]];
    if i < |batch| - 1 {
      SavedGroupsLastWins(table, front, i);
    }
  }

  /** Saving a batch keeps every stored group under its own id. */
  lemma {:induction false} SavedGroupsKeyed(table: map<string, StaffGroup>, batch: seq<StaffGroup>)
    requires forall k :: k in table ==> table[k].id == k
    ensures forall k :: k in SavedGroups(table, batch) ==> SavedGroups(table, batch)[k].id == k
  {
    if batch != [] {
      var front := batch[..|batch| - 1];
      assert batch == front + [batch[|batch| - 1]];
      SavedGroupsKeyed(table, front);
    }
  }

  /** The staff table after saving `batch` in order. */
  function SavedStaff(table: map<string, Staff>, batch: seq<Staff>): (r: map<string, Staff>)
    ensures r.Keys == table.Keys + (set s | s in batch :: s.id)
    ensures forall k :: k in table && (forall s :: s in batch ==> s.id != k) ==> r[k] == table[k]
  {
    if batch == [] then table
    else
      var front := batch[..|batch| - 1];
      var last := batch[|batch| - 1];
      assert batch == front + [last];
      SavedStaff(table, front)[last.id := last]
  }

  lemma SavedStaffSnoc(table: map<string, Staff>, batch: seq<Staff>, s: Staff)
    ensures SavedStaff(table, batch + [s]) == SavedStaff(table, batch)[s.id := s]
  {
    assert (batch + [s])[..|batch|] == batch;
  }

  /** `children.removeIf(child -> child.getId().equals(id))`. */
  function RemoveChild(children: seq<StaffGroupChildDto>, id: string): (r: seq<StaffGroupChildDto>)
    ensures forall c :: c in r ==> c in children && c.id != id
    ensures forall c :: c in children && c.id != id ==> c in r
    ensures |r| <= |children|
    ensures |children| == 1 ==> r == if children[0].id == id then [] else children
  {
    if children == [] then []
    else if children[0].id == id then RemoveChild(children[1..], id)
    else [children[0]] + RemoveChild(children[1..], id)
  }

  /** `removeIf` keeps the surviving entries in order and with their
      multiplicity: filtering a concatenation filters each part. */
  lemma {:induction false} RemoveChildAppend(a: seq<StaffGroupChildDto>, b: seq<StaffGroupChildDto>, id: string)
    ensures RemoveChild(a + b, id) == RemoveChild(a, id) + RemoveChild(b, id)
    decreases |a|
  {
    if a != [] {
      assert (a + b)[0] == a[0] && (a + b)[1..] == a[1..] + b;
      RemoveChildAppend(a[1..], b, id);
    } else {
      assert a + b == b;
    }
  }

  /** A group with `staffId` added to its members, dated `today`. */
  function WithMember(g: StaffGroup, staffId: string, today: Date): (r: StaffGroup)
    ensures r.memberIds == g.memberIds + {staffId} && r.updatedAt == today
    ensures r.(memberIds := g.memberIds, updatedAt := g.updatedAt) == g
  {
    g.(memberIds := g.memberIds + {staffId}, updatedAt := today)
  }

  /** A group with `staffId` removed from its members, dated `today`. */
  function WithoutMember(g: StaffGroup, staffId: string, today: Date): (r: StaffGroup)
    ensures r.memberIds == g.memberIds - {staffId} && r.updatedAt == today
    ensures r.(memberIds := g.memberIds, updatedAt := g.updatedAt) == g
  {
    g.(memberIds := g.memberIds - {staffId}, updatedAt := today)
  }

  /** Adding is idempotent, and removing undoes adding (set semantics). */
  lemma MemberOperationsAreSetOperations(g: StaffGroup, staffId: string, today: Date)
    ensures WithMember(WithMember(g, staffId, today), staffId, today) == WithMember(g, staffId, today)
    ensures WithoutMember(WithoutMember(g, staffId, today), staffId, today) == WithoutMember(g, staffId, today)
    ensures staffId in WithMember(g, staffId, today).memberIds
    ensures staffId !in WithoutMember(g, staffId, today).memberIds
    ensures staffId !in g.memberIds ==> WithoutMember(WithMember(g, staffId, today), staffId, today) == g.(updatedAt := today)
  {
  }

  /** `StaffRepository`: the staff index, keyed by id. */
  class StaffRepository {
    var staff: map<string, Staff>

    ghost predicate Valid()
      reads this
    {
      forall k :: k in staff ==> staff[k].id == k
    }

    constructor ()
      ensures staff == map[] && Valid()
    {
      staff := map[];
    }

    function FindById(id: string): (r: Option<Staff>)
      reads this
      ensures r.Some? <==> id in staff
      ensures r.Some? ==> r.value == staff[id]
    {
      if id in staff then Some(staff[id]) else None
    }

    function ExistsById(id: string): (b: bool)
      reads this
      ensures b <==> id in staff
    {
      id in staff
    }

    function ExistsByStaffCode(staffCode: string): (b: bool)
      reads this
      ensures b <==> exists k :: k in staff && staff[k].staffCode == staffCode
    {
      exists k :: k in staff.Keys && staff[k].staffCode == staffCode
    }

    method Save(s: Staff)
      requires Valid()
      modifies this
      ensures Valid()
      ensures staff == old(staff)[s.id := s]
    {
      staff := staff[s.id := s];
    }

    method SaveAll(batch: seq<Staff>)
      requires Valid()
      modifies this
      ensures Valid()
      ensures staff == SavedStaff(old(staff), batch)
    {
      var i := 0;
      while i < |batch|
        invariant 0 <= i <= |batch|
        invariant Valid()
        invariant staff == SavedStaff(old(staff), batch[..i])
      {
        SavedStaffSnoc(old(staff), batch[..i], batch[i]);
        assert batch[..i + 1] == batch[..i] + [batch[i]];
        staff := staff[batch[i].id := batch[i]];
        i := i + 1;
      }
      assert batch[..i] == batch;
    }

    method DeleteById(id: string)
      requires Valid()
      modifies this
      ensures Valid()
      ensures staff == old(staff) - {id}
    {
      staff := staff - {id};
    }
  }

  /** `StaffGroupRepository`: the staff-group index, keyed by id. */
  class StaffGroupRepository {
    var groups: map<string, StaffGroup>

    ghost predicate Valid()
      reads this
    {
      GroupsKeyed(groups)
    }

    constructor ()
      ensures groups == map[] && Valid()
    {
      groups := map[];
    }

    function FindById(id: string): (r: Option<StaffGroup>)
      reads this
      ensures r.Some? <==> id in groups
      ensures r.Some? ==> r.value == groups[id]
    {
      if id in groups then Some(groups[id]) else None
    }

    function ExistsByGroupCode(groupCode: string): (b: bool)
      reads this
      ensures b <==> exists k :: k in groups && groups[k].groupCode == groupCode
    {
      exists k :: k in groups.Keys && groups[k].groupCode == groupCode
    }

    /** `findByGroupCode`, for a code at most one group carries (with several
        matches the index returns an unspecified one). */
    function FindByGroupCode(groupCode: string): (r: Option<StaffGroup>)
      reads this
      requires Valid() && UniqueCode(groups, groupCode)
      ensures r.Some? <==> ExistsByGroupCode(groupCode)
      ensures r.Some? ==> r.value.id in groups && groups[r.value.id] == r.value
                          && r.value.groupCode == groupCode
      ensures r == GroupByCode(groups, groupCode)
    {
      if ExistsByGroupCode(groupCode) then
        var k :| k in groups && groups[k].groupCode == groupCode;
        Some(groups[k])
      else None
    }

    /** `findAllByMemberIds`: the ids of the groups listing `staffId`. */
    function FindAllByMemberIds(staffId: string): (r: set<string>)
      reads this
      ensures forall k :: k in r <==> k in groups && staffId in groups[k].memberIds
    {
      set k | k in groups && staffId in groups[k].memberIds
    }

    method Save(g: StaffGroup)
      requires Valid()
      modifies this
      ensures Valid()
      ensures groups == old(groups)[g.id := g]
    {
      groups := groups[g.id := g];
    }

    method SaveAll(batch: seq<StaffGroup>)
      requires Valid()
      modifies this
      ensures Valid()
      ensures groups == SavedGroups(old(groups), batch)
    {
      var i := 0;
      while i < |batch|
        invariant 0 <= i <= |batch|
        invariant Valid()
        invariant groups == SavedGroups(old(groups), batch[..i])
      {
        SavedGroupsSnoc(old(groups), batch[..i], batch[i]);
        assert batch[..i + 1] == batch[..i] + [batch[i]];
        groups := groups[batch[i].id := batch[i]];
        i := i + 1;
      }
      assert batch[..i] == batch;
    }

    method DeleteById(id: string)
      requires Valid()
      modifies this
      ensures Valid()
      ensures groups == old(groups) - {id}
    {
      groups := groups - {id};
    }
  }

  /** The two Redis commands the data services use: `setIfAbsent` (the time
      to live is not modelled) and an unconditional `delete`. */
  class RedisTemplate {
    var store: map<string, string>

    constructor ()
      ensures store == map[]
    {
      store := map[];
    }

    method SetIfAbsent(key: string, value: string) returns (ok: bool)
      modifies this
      ensures ok == Acquire(old(store), key, value).ok
      ensures store == Acquire(old(store), key, value).store
    {
      var step := Acquire(store, key, value);
      store := step.store;
      ok := step.ok;
    }

    method Delete(key: string)
      modifies this
      ensures store == old(store) - {key}
    {
      store := store - {key};
    }
  }
}
