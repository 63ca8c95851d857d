/** The two phases of `importStaffGroups` as functions of the stored group
    table. Phase 1 creates a group for every row whose code is not stored;
    phase 2 walks the rows again and hangs each group under its parent.

    The source mutates Java objects: a group created in phase 1 is one
    object, shared by every later row that names it, while a group read back
    from the index is a fresh copy on every read. Phase 2 therefore keeps the
    created groups in a sequence and refers to a document it will save either
    by its position there (`Created`) or by value (`Copy`); what `saveAll`
    finally writes is each reference's value at the end. */
module StaffGroupImport {
  import opened Common
  import opened DateUtil
  import opened DataDomain
  import opened StaffGroupMapper
  import opened StaffGroupRules

  /** The Redis key guarding the import of `groupCode`. */
  function GroupImportLockKey(groupCode: string): (k: string)
    ensures |k| == |"lock:staffgroup:import:"| + |groupCode|
    ensures k[..|"lock:staffgroup:import:"|] == "lock:staffgroup:import:"
    ensures k[|"lock:staffgroup:import:"|..] == groupCode
  {
    "lock:staffgroup:import:" + groupCode
  }

  /** The lock keys of a batch of import rows. */
  function GroupImportLockKeys(dtos: seq<ImportStaffGroupDto>): (keys: set<string>)
    ensures forall i :: 0 <= i < |dtos| ==> GroupImportLockKey(dtos[i].groupCode) in keys
    decreases |dtos|
  {
    if dtos == [] then {}
    else
      var n := |dtos| - 1;
      assert forall i :: 0 <= i < n ==> dtos[..n][i] == dtos[i];
      GroupImportLockKeys(dtos[..n]) + {GroupImportLockKey(dtos[n].groupCode)}
  }

  lemma GroupImportLockKeysSnoc(dtos: seq<ImportStaffGroupDto>, d: ImportStaffGroupDto)
    ensures GroupImportLockKeys(dtos + [d]) == GroupImportLockKeys(dtos) + {GroupImportLockKey(d.groupCode)}
  {
    assert (dtos + [d])[..|dtos|] == dtos;
  }

  /** No row's import lock is held in `store`. */
  predicate GroupImportLocksFree(store: map<string, string>, dtos: seq<ImportStaffGroupDto>)
  {
    forall i :: 0 <= i < |dtos| ==> GroupImportLockKey(dtos[i].groupCode) !in store
  }

  /** The import's wrapping of any failure (line 434). */
  function GroupImportFailure(e: ServiceError): (w: ServiceError)
    ensures w.Runtime?
    ensures w.message == "Failed to import staff groups: " + e.message
  {
    Runtime("Failed to import staff groups: " + e.message)
  }

  /** The failure a held lock on `groupCode` raises inside the import. */
  function GroupLockFailure(groupCode: string): (e: ServiceError)
    ensures e.Runtime? && e.message == "Could not acquire lock for groupCode: " + groupCode
  {
    Runtime("Could not acquire lock for groupCode: " + groupCode)
  }

  // ---------------------------------------------------------------- phase 1

  /** The group a phase-1 row yields, if its code is not stored. */
  function ImportedGroupRow(groups: map<string, StaffGroup>, d: ImportStaffGroupDto, newId: string, today: Date)
    : (r: seq<StaffGroup>)
    ensures r == [] <==> CodeTakenBy(groups, d.groupCode)
  {
    if CodeTakenBy(groups, d.groupCode) then [] else [NewGroup(newId, d.groupCode, d.name, today)]
  }

  /** The groups phase 1 creates, in row order. Codes are compared with the
      stored table only, so two rows with the same new code both create a
      group. */
  function ImportedGroups(groups: map<string, StaffGroup>, dtos: seq<ImportStaffGroupDto>, newIds: seq<string>,
                          today: Date): (r: seq<StaffGroup>)
    requires |newIds| == |dtos|
    ensures |r| <= |dtos|
    decreases |dtos|
  {
    if dtos == [] then []
    else
      var n := |dtos| - 1;
      ImportedGroups(groups, dtos[..n], newIds[..n], today) + ImportedGroupRow(groups, dtos[n], newIds[n], today)
  }

  /** One phase-1 row extends the lock keys deleted so far by the row's key
      and the groups created so far by the row's group. */
  lemma Phase1Advance(groups: map<string, StaffGroup>, store: map<string, string>, dtos: seq<ImportStaffGroupDto>,
                      newIds: seq<string>, i: int, today: Date)
    requires |newIds| == |dtos| && 0 <= i < |dtos|
    ensures var key := GroupImportLockKey(dtos[i].groupCode);
            && GroupImportLockKeys(dtos[..i + 1]) == GroupImportLockKeys(dtos[..i]) + {key}
            && (store - GroupImportLockKeys(dtos[..i])) - {key} == store - GroupImportLockKeys(dtos[..i + 1])
    ensures ImportedGroups(groups, dtos[..i + 1], newIds[..i + 1], today)
            == ImportedGroups(groups, dtos[..i], newIds[..i], today) + ImportedGroupRow(groups, dtos[i], newIds[i], today)
  {
    assert dtos[..i + 1] == dtos[..i] + [dtos[i]];
    GroupImportLockKeysSnoc(dtos[..i], dtos[i]);
    assert dtos[..i + 1][..i] == dtos[..i] && newIds[..i + 1][..i] == newIds[..i];
  }

  /** Phase 1 creates only groups for codes not yet stored, each a fresh
      parentless, childless, memberless group carrying its row's code, name
      and id. */
  lemma {:induction false} ImportedGroupsFresh(groups: map<string, StaffGroup>, dtos: seq<ImportStaffGroupDto>,
                                              newIds: seq<string>, today: Date, g: StaffGroup)
    requires |newIds| == |dtos|
    requires g in ImportedGroups(groups, dtos, newIds, today)
    ensures !CodeTakenBy(groups, g.groupCode)
    ensures exists i :: 0 <= i < |dtos| && g == NewGroup(newIds[i], dtos[i].groupCode, dtos[i].name, today)
    decreases |dtos|
  {
    var n := |dtos| - 1;
    if g in ImportedGroups(groups, dtos[..n], newIds[..n], today) {
      ImportedGroupsFresh(groups, dtos[..n], newIds[..n], today, g);
      var i :| 0 <= i < n && g == NewGroup(newIds[..n][i], dtos[..n][i].groupCode, dtos[..n][i].name, today);
      assert dtos[..n][i] == dtos[i] && newIds[..n][i] == newIds[i];
    } else {
      assert g in ImportedGroupRow(groups, dtos[n], newIds[n], today);
    }
  }

  /** Phase 1 skips no new code: every row whose code is not stored yields
      its group. */
  lemma {:induction false} ImportedGroupsComplete(groups: map<string, StaffGroup>, dtos: seq<ImportStaffGroupDto>,
                                                 newIds: seq<string>, today: Date, i: int)
    requires |newIds| == |dtos| && 0 <= i < |dtos|
    requires !CodeTakenBy(groups, dtos[i].groupCode)
    ensures NewGroup(newIds[i], dtos[i].groupCode, dtos[i].name, today) in ImportedGroups(groups, dtos, newIds, today)
    decreases |dtos|
  {
    var n := |dtos| - 1;
    if i < n {
      ImportedGroupsComplete(groups, dtos[..n], newIds[..n], today, i);
      assert dtos[..n][i] == dtos[i] && newIds[..n][i] == newIds[i];
    }
  }

  /** The code-to-id map phase 1 fills: a later group with the same code
      replaces an earlier one. */
  function CodeToId(created: seq<StaffGroup>): (m: map<string, string>)
    decreases |created|
  {
    if created == [] then map[]
    else
      var n := |created| - 1;
      CodeToId(created[..n])[created[n].groupCode := created[n].id]
  }

  lemma CodeToIdSnoc(created: seq<StaffGroup>, row: seq<StaffGroup>)
    requires |row| <= 1
    ensures row == [] ==> CodeToId(created + row) == CodeToId(created)
    ensures row != [] ==> CodeToId(created + row) == CodeToId(created)[row[0].groupCode := row[0].id]
  {
    if row == [] {
      assert created + row == created;
    } else {
      assert (created + row)[..|created|] == created;
    }
  }

  /** The map holds exactly the created codes. */
  lemma {:induction false} CodeToIdKeys(created: seq<StaffGroup>, c: string)
    ensures c in CodeToId(created) <==> exists i :: 0 <= i < |created| && created[i].groupCode == c
    decreases |created|
  {
    if created != [] {
      var n := |created| - 1;
      CodeToIdKeys(created[..n], c);
      if c != created[n].groupCode && exists i :: 0 <= i < |created| && created[i].groupCode == c {
        var i :| 0 <= i < |created| && created[i].groupCode == c;
        assert created[..n][i] == created[i];
      }
    }
  }

  /** A created code maps to the id of the last group created with it. */
  lemma {:induction false} CodeToIdLastWins(created: seq<StaffGroup>, c: string) returns (i: int)
    requires c in CodeToId(created)
    ensures 0 <= i < |created| && created[i].groupCode == c && CodeToId(created)[c] == created[i].id
    ensures forall j :: i < j < |created| ==> created[j].groupCode != c
    decreases |created|
  {
    var n := |created| - 1;
    if c == created[n].groupCode {
      i := n;
    } else {
      i := CodeToIdLastWins(created[..n], c);
      assert forall j :: i < j < n ==> created[j] == created[..n][j];
    }
  }

  // ---------------------------------------------------------------- phase 2

  /** A document phase 2 will save: a created group, by position, or a copy
      read from the index. */
  datatype GroupRef = Created(index: nat) | Copy(group: StaffGroup)

  /** The created groups as phase 2 has left them so far, and the documents
      queued for `saveAll`. */
  datatype Phase2 = Phase2(created: seq<StaffGroup>, updated: seq<GroupRef>)

  predicate RefOk(created: seq<StaffGroup>, r: GroupRef)
  {
    r.Created? ==> r.index < |created|
  }

  /** The current value behind a reference. */
  function Val(created: seq<StaffGroup>, r: GroupRef): StaffGroup
    requires RefOk(created, r)
  {
    if r.Created? then created[r.index] else r.group
  }

  /** Changes the value behind a reference: a created group changes in
      place, a copy becomes a new copy. */
  function Put(created: seq<StaffGroup>, r: GroupRef, v: StaffGroup): (p: (seq<StaffGroup>, GroupRef))
    requires RefOk(created, r)
    ensures |p.0| == |created| && RefOk(p.0, p.1) && Val(p.0, p.1) == v && p.1.Created? == r.Created?
    ensures r.Created? ==> p.1 == r && p.0 == created[r.index := v]
    ensures r.Copy? ==> p.0 == created
  {
    if r.Created? then (created[r.index := v], r) else (created, Copy(v))
  }

  /** The first created group carrying `groupCode`. */
  function FirstWithCode(created: seq<StaffGroup>, groupCode: string): (r: Option<nat>)
    ensures r.Some? ==> r.value < |created| && created[r.value].groupCode == groupCode
                        && forall j :: 0 <= j < r.value ==> created[j].groupCode != groupCode
    ensures r.None? <==> forall j :: 0 <= j < |created| ==> created[j].groupCode != groupCode
  {
    if created == [] then None
    else if created[0].groupCode == groupCode then Some(0)
    else match FirstWithCode(created[1..], groupCode)
      case None => None
      case Some(i) => Some(i + 1)
  }

  /** The first created group with id `id`. */
  function FirstWithId(created: seq<StaffGroup>, id: string): (r: Option<nat>)
    ensures r.Some? ==> r.value < |created| && created[r.value].id == id
                        && forall j :: 0 <= j < r.value ==> created[j].id != id
    ensures r.None? <==> forall j :: 0 <= j < |created| ==> created[j].id != id
  {
    if created == [] then None
    else if created[0].id == id then Some(0)
    else match FirstWithId(created[1..], id)
      case None => None
      case Some(i) => Some(i + 1)
  }

  /** The group a phase-2 row works on (lines 384-388): the first created
      group with its code, else the stored one. */
  ghost function OwnGroup(table: map<string, StaffGroup>, created: seq<StaffGroup>, groupCode: string)
    : (r: Result<GroupRef, ServiceError>)
    ensures r.Ok? ==> RefOk(created, r.value) && Val(created, r.value).groupCode == groupCode
  {
    match FirstWithCode(created, groupCode)
    case Some(i) => Ok(Created(i))
    case None =>
      match GroupByCode(table, groupCode)
      case Some(g) => Ok(Copy(g))
      case None => Err(ResourceNotFound("Group not found: " + groupCode))
  }

  /** The parent a phase-2 row names (lines 397-409): through the code-to-id
      map when phase 1 created the code (the created group with that id,
      else the stored one), otherwise the stored group with that code. */
  ghost function ParentGroup(table: map<string, StaffGroup>, codeToId: map<string, string>, created: seq<StaffGroup>,
                             parentCode: string): (r: Result<GroupRef, ServiceError>)
    ensures r.Ok? ==> RefOk(created, r.value)
  {
    if parentCode in codeToId then
      var pid := codeToId[parentCode];
      match FirstWithId(created, pid)
      case Some(j) => Ok(Created(j))
      case None =>
        if pid in table then Ok(Copy(table[pid]))
        else Err(ResourceNotFound("Parent group not found with id: " + pid))
    else
      match GroupByCode(table, parentCode)
      case Some(p) => Ok(Copy(p))
      case None => Err(ResourceNotFound("Parent group not found with code: " + parentCode))
  }

  /** Hangs `own` under `parent` (lines 411-420): `own` takes the parent's
      id, then the parent gets `own`'s snapshot appended and is dated today.
      Answers the new state with the parent queued, and `own`'s new
      reference. */
  function Attach(st: Phase2, own: GroupRef, parent: GroupRef, today: Date): (r: (Phase2, GroupRef))
    requires RefOk(st.created, own) && RefOk(st.created, parent)
    ensures |r.0.created| == |st.created| && RefOk(r.0.created, r.1)
    ensures AllRefsOk(st) ==> AllRefsOk(r.0)
  {
    var pid := Val(st.created, parent).id;
    var p1 := Put(st.created, own, Val(st.created, own).(parentId := Some(pid)));
    var entry := ToChildDto(Val(p1.0, p1.1));
    var pv := Val(p1.0, parent);
    var p2 := Put(p1.0, parent, pv.(children := pv.children + [entry], updatedAt := today));
    (Phase2(p2.0, st.updated + [p2.1]), p1.1)
  }

  /** Dates `own` today and queues it (lines 423-424). */
  function Stamp(st: Phase2, own: GroupRef, today: Date): (r: Phase2)
    requires RefOk(st.created, own)
    ensures |r.created| == |st.created|
    ensures AllRefsOk(st) ==> AllRefsOk(r)
  {
    var p := Put(st.created, own, Val(st.created, own).(updatedAt := today));
    Phase2(p.0, st.updated + [p.1])
  }

  /** One phase-2 row. */
  ghost function Step(table: map<string, StaffGroup>, codeToId: map<string, string>, st: Phase2,
                      d: ImportStaffGroupDto, today: Date): (r: Result<Phase2, ServiceError>)
    ensures r.Ok? ==> |r.value.created| == |st.created| && (AllRefsOk(st) ==> AllRefsOk(r.value))
  {
    match OwnGroup(table, st.created, d.groupCode)
    case Err(e) => Err(e)
    case Ok(own) =>
      if d.parentCode.None? then Ok(Stamp(st, own, today))
      else
        match ParentGroup(table, codeToId, st.created, d.parentCode.value)
        case Err(e) => Err(e)
        case Ok(parent) =>
          var a := Attach(st, own, parent, today);
          Ok(Stamp(a.0, a.1, today))
  }

  /** Every queued reference is valid for the created groups. */
  predicate AllRefsOk(st: Phase2)
  {
    forall j :: 0 <= j < |st.updated| ==> RefOk(st.created, st.updated[j])
  }

  /** Phase 2 over the rows `dtos`, stopping at the first failing row. */
  ghost function Phase2Run(table: map<string, StaffGroup>, codeToId: map<string, string>, created: seq<StaffGroup>,
                           dtos: seq<ImportStaffGroupDto>, today: Date): (r: Result<Phase2, ServiceError>)
    ensures r.Ok? ==> |r.value.created| == |created| && AllRefsOk(r.value)
    decreases |dtos|
  {
    if dtos == [] then Ok(Phase2(created, []))
    else
      var n := |dtos| - 1;
      match Phase2Run(table, codeToId, created, dtos[..n], today)
      case Err(e) => Err(e)
      case Ok(st) => Step(table, codeToId, st, dtos[n], today)
  }

  /** The documents `saveAll` writes: each queued reference's final value. */
  function Resolve(st: Phase2): (r: seq<StaffGroup>)
    requires AllRefsOk(st)
    ensures |r| == |st.updated|
    ensures forall j :: 0 <= j < |r| ==> r[j] == Val(st.created, st.updated[j])
  {
    seq(|st.updated|, j requires 0 <= j < |st.updated| => Val(st.created, st.updated[j]))
  }

  /** The whole import over the parsed rows: the groups phase 1 creates, and
      phase 2's outcome on the table they were saved into. */
  ghost function ImportPhase2(groups: map<string, StaffGroup>, dtos: seq<ImportStaffGroupDto>, newIds: seq<string>,
                              today: Date): Result<Phase2, ServiceError>
    requires |newIds| == |dtos|
  {
    var created := ImportedGroups(groups, dtos, newIds, today);
    Phase2Run(SavedGroups(groups, created), CodeToId(created), created, dtos, today)
  }

  // ---------------------------------------------------------------- properties

  /** The fields phase 2 never touches. */
  predicate SameGroup(a: StaffGroup, b: StaffGroup)
  {
    a.id == b.id && a.groupCode == b.groupCode && a.name == b.name && a.memberIds == b.memberIds
    && a.createdAt == b.createdAt
  }

  /** What phase 2 keeps: each created group is its phase-1 self up to parent,
      children and date, and each queued copy is a stored group up to the
      same. */
  predicate Keeps(table: map<string, StaffGroup>, created: seq<StaffGroup>, st: Phase2)
  {
    && CreatedKept(created, st.created)
    && (forall j :: 0 <= j < |st.updated| ==> CopyKept(table, st.updated[j]))
  }

  /** The created groups keep their phase-1 identity. */
  predicate CreatedKept(created: seq<StaffGroup>, cur: seq<StaffGroup>)
  {
    |cur| == |created| && forall i :: 0 <= i < |created| ==> SameGroup(cur[i], created[i])
  }

  /** A copy is a stored group up to parent, children and date. */
  predicate CopyKept(table: map<string, StaffGroup>, r: GroupRef)
  {
    r.Copy? ==> r.group.id in table && SameGroup(r.group, table[r.group.id])
  }

  lemma PutKeeps(table: map<string, StaffGroup>, created: seq<StaffGroup>, cur: seq<StaffGroup>, r: GroupRef,
                 v: StaffGroup)
    requires CreatedKept(created, cur) && RefOk(cur, r) && SameGroup(v, Val(cur, r)) && CopyKept(table, r)
    ensures CreatedKept(created, Put(cur, r, v).0) && CopyKept(table, Put(cur, r, v).1)
  {
  }

  lemma StampKeeps(table: map<string, StaffGroup>, created: seq<StaffGroup>, st: Phase2, own: GroupRef, today: Date)
    requires Keeps(table, created, st) && RefOk(st.created, own) && CopyKept(table, own)
    ensures Keeps(table, created, Stamp(st, own, today))
  {
    PutKeeps(table, created, st.created, own, Val(st.created, own).(updatedAt := today));
  }

  lemma AttachKeeps(table: map<string, StaffGroup>, created: seq<StaffGroup>, st: Phase2, own: GroupRef,
                    parent: GroupRef, today: Date)
    requires Keeps(table, created, st) && RefOk(st.created, own) && RefOk(st.created, parent)
    requires CopyKept(table, own) && CopyKept(table, parent)
    ensures Keeps(table, created, Attach(st, own, parent, today).0)
    ensures CopyKept(table, Attach(st, own, parent, today).1)
  {
    var pid := Val(st.created, parent).id;
    var p1 := Put(st.created, own, Val(st.created, own).(parentId := Some(pid)));
    PutKeeps(table, created, st.created, own, Val(st.created, own).(parentId := Some(pid)));
    var pv := Val(p1.0, parent);
    PutKeeps(table, created, p1.0, parent, pv.(children := pv.children + [ToChildDto(Val(p1.0, p1.1))],
                                                updatedAt := today));
  }

  /** The stored group a code lookup answers is kept under its own id. */
  lemma GroupByCodeKept(table: map<string, StaffGroup>, groupCode: string)
    requires GroupsKeyed(table) && GroupByCode(table, groupCode).Some?
    ensures CopyKept(table, Copy(GroupByCode(table, groupCode).value))
  {
  }

  /** One row keeps what phase 2 keeps. */
  lemma StepKeeps(table: map<string, StaffGroup>, codeToId: map<string, string>, created: seq<StaffGroup>,
                  st: Phase2, d: ImportStaffGroupDto, today: Date)
    requires GroupsKeyed(table)
    requires Keeps(table, created, st)
    requires Step(table, codeToId, st, d, today).Ok?
    ensures Keeps(table, created, Step(table, codeToId, st, d, today).value)
  {
    var own := OwnGroup(table, st.created, d.groupCode).value;
    if own.Copy? {
      GroupByCodeKept(table, d.groupCode);
    }
    if d.parentCode.None? {
      StampKeeps(table, created, st, own, today);
    } else {
      var parent := ParentGroup(table, codeToId, st.created, d.parentCode.value).value;
      if parent.Copy? && d.parentCode.value !in codeToId {
        GroupByCodeKept(table, d.parentCode.value);
      }
      AttachKeeps(table, created, st, own, parent, today);
      var a := Attach(st, own, parent, today);
      StampKeeps(table, created, a.0, a.1, today);
    }
  }

  /** Phase 2 changes no group's id, code, name, members or creation date:
      every document it saves is a created or stored group re-parented,
      re-childed or re-dated. */
  lemma {:induction false} Phase2Keeps(table: map<string, StaffGroup>, codeToId: map<string, string>,
                                      created: seq<StaffGroup>, dtos: seq<ImportStaffGroupDto>, today: Date)
    requires GroupsKeyed(table)
    requires Phase2Run(table, codeToId, created, dtos, today).Ok?
    ensures Keeps(table, created, Phase2Run(table, codeToId, created, dtos, today).value)
    decreases |dtos|
  {
    if dtos != [] {
      var n := |dtos| - 1;
      Phase2Keeps(table, codeToId, created, dtos[..n], today);
      StepKeeps(table, codeToId, created, Phase2Run(table, codeToId, created, dtos[..n], today).value, dtos[n], today);
    }
  }

  /** Saving a batch whose documents agree with the table on the identity
      fields, for the keys in `keys`, keeps those fields for those keys. */
  lemma {:induction false} SavedGroupsSame(table: map<string, StaffGroup>, batch: seq<StaffGroup>, keys: set<string>)
    requires forall g :: g in batch && g.id in keys ==> g.id in table && SameGroup(g, table[g.id])
    ensures forall k :: k in keys && k in table ==> SameGroup(SavedGroups(table, batch)[k], table[k])
    decreases |batch|
  {
    if batch != [] {
      var n := |batch| - 1;
      assert batch == batch[..n] + [batch[n]];
      SavedGroupsSame(table, batch[..n], keys);
    }
  }

  /** A queued document with a stored id is a stored group up to parent,
      children and date (created groups have fresh ids). */
  lemma QueuedAgrees(groups: map<string, StaffGroup>, table: map<string, StaffGroup>, created: seq<StaffGroup>,
                     st: Phase2, j: int)
    requires Keeps(table, created, st) && AllRefsOk(st) && 0 <= j < |st.updated|
    requires forall g :: g in created ==> g.id !in groups
    ensures Val(st.created, st.updated[j]).id in groups ==>
              Val(st.created, st.updated[j]).id in table
              && SameGroup(Val(st.created, st.updated[j]), table[Val(st.created, st.updated[j]).id])
  {
    assert CopyKept(table, st.updated[j]);
    if st.updated[j].Created? {
      var i := st.updated[j].index;
      assert SameGroup(st.created[i], created[i]) && created[i] in created;
    }
  }

  /** The table after an import whose locks were all free: phase 1's groups
      are saved, then, if phase 2 succeeds, the documents it queued (a
      failing phase 2 leaves phase 1's saves in place). */
  ghost function ImportedTable(groups: map<string, StaffGroup>, dtos: seq<ImportStaffGroupDto>, newIds: seq<string>,
                               today: Date): map<string, StaffGroup>
    requires |newIds| == |dtos|
  {
    var table := SavedGroups(groups, ImportedGroups(groups, dtos, newIds, today));
    match ImportPhase2(groups, dtos, newIds, today)
    case Ok(st) => SavedGroups(table, Resolve(st))
    case Err(_) => table
  }

  /** An import neither drops nor renames a stored group, nor changes its
      members or creation date: only parent links, children and dates of
      stored groups change. */
  lemma ImportKeepsStoredGroups(groups: map<string, StaffGroup>, dtos: seq<ImportStaffGroupDto>, newIds: seq<string>,
                                today: Date)
    requires |newIds| == |dtos| && GroupsKeyed(groups)
    requires forall i :: 0 <= i < |newIds| ==> newIds[i] !in groups
    requires ImportPhase2(groups, dtos, newIds, today).Ok?
    ensures forall k :: k in groups ==> k in ImportedTable(groups, dtos, newIds, today)
                                        && SameGroup(ImportedTable(groups, dtos, newIds, today)[k], groups[k])
  {
    var created := ImportedGroups(groups, dtos, newIds, today);
    var table := SavedGroups(groups, created);
    forall g | g in created ensures g.id !in groups {
      ImportedGroupsFresh(groups, dtos, newIds, today, g);
    }
    SavedGroupsKeyed(groups, created);
    var st := ImportPhase2(groups, dtos, newIds, today).value;
    Phase2Keeps(table, CodeToId(created), created, dtos, today);
    var batch := Resolve(st);
    forall g | g in batch && g.id in groups.Keys
      ensures g.id in table && SameGroup(g, table[g.id])
    {
      var j :| 0 <= j < |batch| && batch[j] == g;
      QueuedAgrees(groups, table, created, st, j);
    }
    SavedGroupsSame(table, batch, groups.Keys);
  }

  /** A row over stored groups only: its group, re-read from the index,
      takes the stored parent's id, and a fresh copy of that parent gets the
      row's entry; both are queued, parent first. */
  lemma StoredRowStep(table: map<string, StaffGroup>, updated: seq<GroupRef>, d: ImportStaffGroupDto,
                      g: StaffGroup, p: StaffGroup, today: Date)
    requires GroupByCode(table, d.groupCode) == Some(g)
    requires d.parentCode.Some? && GroupByCode(table, d.parentCode.value) == Some(p)
    ensures var g1 := g.(parentId := Some(p.id));
            Step(table, map[], Phase2([], updated), d, today)
            == Ok(Phase2([], updated + [Copy(p.(children := p.children + [ToChildDto(g1)], updatedAt := today)),
                                        Copy(g1.(updatedAt := today))]))
  {
    var g1 := g.(parentId := Some(p.id));
    var pp := p.(children := p.children + [ToChildDto(g1)], updatedAt := today);
    var st := Phase2([], updated);
    assert OwnGroup(table, [], d.groupCode) == Ok(Copy(g));
    assert ParentGroup(table, map[], [], d.parentCode.value) == Ok(Copy(p));
    assert Attach(st, Copy(g), Copy(p), today) == (Phase2([], updated + [Copy(pp)]), Copy(g1));
    assert (updated + [Copy(pp)]) + [Copy(g1.(updatedAt := today))] == updated + [Copy(pp), Copy(g1.(updatedAt := today))];
  }

  /** Two such rows under the same stored parent queue two separate copies
      of it. */
  lemma StoredRowsRun(table: map<string, StaffGroup>, da: ImportStaffGroupDto, db: ImportStaffGroupDto,
                      a: StaffGroup, b: StaffGroup, p: StaffGroup, today: Date)
    requires GroupByCode(table, da.groupCode) == Some(a) && GroupByCode(table, db.groupCode) == Some(b)
    requires da.parentCode.Some? && da.parentCode == db.parentCode && GroupByCode(table, da.parentCode.value) == Some(p)
    ensures var a1 := a.(parentId := Some(p.id));
            var b1 := b.(parentId := Some(p.id));
            Phase2Run(table, map[], [], [da, db], today)
            == Ok(Phase2([], [Copy(p.(children := p.children + [ToChildDto(a1)], updatedAt := today)),
                              Copy(a1.(updatedAt := today)),
                              Copy(p.(children := p.children + [ToChildDto(b1)], updatedAt := today)),
                              Copy(b1.(updatedAt := today))]))
  {
    var a1 := a.(parentId := Some(p.id));
    var pa := p.(children := p.children + [ToChildDto(a1)], updatedAt := today);
    var u1 := [Copy(pa), Copy(a1.(updatedAt := today))];
    assert [da, db][..1] == [da] && [da][..0] == [];
    StoredRowStep(table, [], da, a, p, today);
    assert [] + u1 == u1;
    assert Phase2Run(table, map[], [], [da], today) == Ok(Phase2([], u1));
    StoredRowStep(table, u1, db, b, p, today);
    var b1 := b.(parentId := Some(p.id));
    var pb := p.(children := p.children + [ToChildDto(b1)], updatedAt := today);
    assert u1 + [Copy(pb), Copy(b1.(updatedAt := today))]
           == [Copy(pa), Copy(a1.(updatedAt := today)), Copy(pb), Copy(b1.(updatedAt := today))];
  }

  /** Rows whose codes are all stored create nothing in phase 1. */
  lemma {:induction false} NothingCreated(groups: map<string, StaffGroup>, dtos: seq<ImportStaffGroupDto>,
                                         newIds: seq<string>, today: Date)
    requires |newIds| == |dtos|
    requires forall i :: 0 <= i < |dtos| ==> CodeTakenBy(groups, dtos[i].groupCode)
    ensures ImportedGroups(groups, dtos, newIds, today) == []
    decreases |dtos|
  {
    if dtos != [] {
      var n := |dtos| - 1;
      assert forall i :: 0 <= i < n ==> dtos[..n][i] == dtos[i];
      NothingCreated(groups, dtos[..n], newIds[..n], today);
    }
  }

  /** Saving the two rows' documents: the later parent copy wins. */
  lemma TwoRowsSaved(groups: map<string, StaffGroup>, pa: StaffGroup, a2: StaffGroup, pb: StaffGroup, b2: StaffGroup)
    requires pa.id == pb.id && a2.id != pa.id && b2.id != pa.id
    ensures var t := SavedGroups(groups, [pa, a2, pb, b2]);
            && pb.id in t && a2.id in t && b2.id in t
            && t[pb.id] == pb && t[b2.id] == b2 && (t[a2.id] == a2 || t[a2.id] == b2)
  {
    var batch := [pa, a2, pb, b2];
    if a2.id != b2.id {
      SavedGroupsLastWins(groups, batch, 1);
    }
    SavedGroupsLastWins(groups, batch, 2);
    SavedGroupsLastWins(groups, batch, 3);
  }

  /** The documents two stored rows under one stored parent save. */
  lemma TwoStoredRowsImport(groups: map<string, StaffGroup>, da: ImportStaffGroupDto, db: ImportStaffGroupDto,
                            newIds: seq<string>, a: StaffGroup, b: StaffGroup, p: StaffGroup, today: Date)
    requires |newIds| == 2
    requires GroupByCode(groups, da.groupCode) == Some(a) && GroupByCode(groups, db.groupCode) == Some(b)
    requires da.parentCode.Some? && da.parentCode == db.parentCode && GroupByCode(groups, da.parentCode.value) == Some(p)
    ensures var a1 := a.(parentId := Some(p.id));
            var b1 := b.(parentId := Some(p.id));
            && ImportPhase2(groups, [da, db], newIds, today).Ok?
            && ImportedTable(groups, [da, db], newIds, today)
               == SavedGroups(groups, [p.(children := p.children + [ToChildDto(a1)], updatedAt := today),
                                       a1.(updatedAt := today),
                                       p.(children := p.children + [ToChildDto(b1)], updatedAt := today),
                                       b1.(updatedAt := today)])
  {
    var a1 := a.(parentId := Some(p.id));
    var b1 := b.(parentId := Some(p.id));
    var pa := p.(children := p.children + [ToChildDto(a1)], updatedAt := today);
    var pb := p.(children := p.children + [ToChildDto(b1)], updatedAt := today);
    var st := Phase2([], [Copy(pa), Copy(a1.(updatedAt := today)), Copy(pb), Copy(b1.(updatedAt := today))]);
    ImportOverStoredCodes(groups, [da, db], newIds, today);
    StoredRowsRun(groups, da, db, a, b, p, today);
    assert ImportPhase2(groups, [da, db], newIds, today) == Ok(st);
    ResolveFourCopies(pa, a1.(updatedAt := today), pb, b1.(updatedAt := today));
  }

  /** Rows whose codes are all stored: phase 2 runs over the stored table
      alone, and the import saves exactly phase 2's documents. */
  lemma ImportOverStoredCodes(groups: map<string, StaffGroup>, dtos: seq<ImportStaffGroupDto>, newIds: seq<string>,
                              today: Date)
    requires |newIds| == |dtos|
    requires forall i :: 0 <= i < |dtos| ==> CodeTakenBy(groups, dtos[i].groupCode)
    ensures ImportPhase2(groups, dtos, newIds, today) == Phase2Run(groups, map[], [], dtos, today)
    ensures ImportPhase2(groups, dtos, newIds, today).Ok?
            ==> ImportedTable(groups, dtos, newIds, today)
                == SavedGroups(groups, Resolve(ImportPhase2(groups, dtos, newIds, today).value))
  {
    NothingCreated(groups, dtos, newIds, today);
    assert SavedGroups(groups, []) == groups;
    assert CodeToId([]) == map[];
  }

  /** A queue of four copies saves the four copied documents, in order. */
  lemma ResolveFourCopies(x0: StaffGroup, x1: StaffGroup, x2: StaffGroup, x3: StaffGroup)
    ensures Resolve(Phase2([], [Copy(x0), Copy(x1), Copy(x2), Copy(x3)])) == [x0, x1, x2, x3]
  {
    var r := Resolve(Phase2([], [Copy(x0), Copy(x1), Copy(x2), Copy(x3)]));
    assert r[0] == x0 && r[1] == x1 && r[2] == x2 && r[3] == x3;
  }

  /** Rows naming a stored parent each hang their group under a fresh copy of
      that parent, and the copies overwrite one another: after rows for two
      stored groups `a` and `b` under the same stored parent `p`, both claim
      `p` as parent, but `p` lists only `b`'s new entry. */
  lemma ImportParentCopiesOverwrite(groups: map<string, StaffGroup>, da: ImportStaffGroupDto,
                                    db: ImportStaffGroupDto, newIds: seq<string>, a: StaffGroup, b: StaffGroup,
                                    p: StaffGroup, today: Date)
    requires |newIds| == 2 && GroupsKeyed(groups)
    requires GroupByCode(groups, da.groupCode) == Some(a) && GroupByCode(groups, db.groupCode) == Some(b)
    requires da.parentCode.Some? && da.parentCode == db.parentCode && GroupByCode(groups, da.parentCode.value) == Some(p)
    requires p.id != a.id && p.id != b.id
    ensures ImportPhase2(groups, [da, db], newIds, today).Ok?
    ensures var t := ImportedTable(groups, [da, db], newIds, today);
            a.id in t && b.id in t && p.id in t
    ensures var t := ImportedTable(groups, [da, db], newIds, today);
            && t[a.id].parentId == Some(p.id) && t[b.id].parentId == Some(p.id)
            && t[p.id].children == p.children + [ToChildDto(b.(parentId := Some(p.id)))]
  {
    TwoStoredRowsImport(groups, da, db, newIds, a, b, p, today);
    var a1 := a.(parentId := Some(p.id));
    var b1 := b.(parentId := Some(p.id));
    TwoRowsSaved(groups, p.(children := p.children + [ToChildDto(a1)], updatedAt := today), a1.(updatedAt := today),
                 p.(children := p.children + [ToChildDto(b1)], updatedAt := today), b1.(updatedAt := today));
  }

  /** Phase 2 stops at its first failing row. */
  lemma {:induction false} Phase2RunStopsAtFailure(table: map<string, StaffGroup>, codeToId: map<string, string>,
                                                  created: seq<StaffGroup>, dtos: seq<ImportStaffGroupDto>, i: int,
                                                  today: Date)
    requires 0 <= i <= |dtos|
    requires Phase2Run(table, codeToId, created, dtos[..i], today).Err?
    ensures Phase2Run(table, codeToId, created, dtos, today) == Phase2Run(table, codeToId, created, dtos[..i], today)
    decreases |dtos|
  {
    if i < |dtos| {
      var n := |dtos| - 1;
      assert dtos[..n][..i] == dtos[..i];
      Phase2RunStopsAtFailure(table, codeToId, created, dtos[..n], i, today);
    } else {
      assert dtos[..i] == dtos;
    }
  }

  /** Before row `i` of phase 2, the row's index lookups meet unique codes. */
  lemma Phase2Ready(table: map<string, StaffGroup>, created: seq<StaffGroup>, dtos: seq<ImportStaffGroupDto>,
                    i: int, today: Date)
    requires 0 <= i < |dtos| && GroupsKeyed(table) && UniqueBesides(table, created, dtos)
    requires Phase2Run(table, CodeToId(created), created, dtos[..i], today).Ok?
    ensures var st := Phase2Run(table, CodeToId(created), created, dtos[..i], today).value;
            && (FirstWithCode(st.created, dtos[i].groupCode).None? ==> UniqueCode(table, dtos[i].groupCode))
            && (dtos[i].parentCode.Some? && dtos[i].parentCode.value !in CodeToId(created)
                ==> UniqueCode(table, dtos[i].parentCode.value))
  {
    Phase2Keeps(table, CodeToId(created), created, dtos[..i], today);
    assert Mentioned(dtos, dtos[i].groupCode);
    assert dtos[i].parentCode.Some? ==> Mentioned(dtos, dtos[i].parentCode.value);
    Phase2LookupsUnique(table, created, Phase2Run(table, CodeToId(created), created, dtos[..i], today).value, dtos[i]);
  }

  /** After row `i` of phase 2: a row that succeeds extends the run by one
      row, and a row that fails is the outcome of the whole run. */
  lemma Phase2Advance(table: map<string, StaffGroup>, codeToId: map<string, string>, created: seq<StaffGroup>,
                      dtos: seq<ImportStaffGroupDto>, i: int, today: Date, next: Result<Phase2, ServiceError>)
    requires 0 <= i < |dtos|
    requires Phase2Run(table, codeToId, created, dtos[..i], today).Ok?
    requires next == Step(table, codeToId, Phase2Run(table, codeToId, created, dtos[..i], today).value, dtos[i], today)
    ensures next.Ok? ==> Phase2Run(table, codeToId, created, dtos[..i + 1], today) == next
    ensures next.Err? ==> Phase2Run(table, codeToId, created, dtos, today) == next
  {
    assert dtos[..i + 1][..i] == dtos[..i];
    if next.Err? {
      Phase2RunStopsAtFailure(table, codeToId, created, dtos, i + 1, today);
    }
  }

  /** No group phase 1 created carries `code`. */
  ghost predicate Uncreated(created: seq<StaffGroup>, code: string)
  {
    forall j :: 0 <= j < |created| ==> created[j].groupCode != code
  }

  /** The file names `code` as a group code or as a parent code. */
  ghost predicate Mentioned(dtos: seq<ImportStaffGroupDto>, code: string)
  {
    exists i :: 0 <= i < |dtos| && (dtos[i].groupCode == code || dtos[i].parentCode == Some(code))
  }

  /** Every group code and parent code the file names is held by at most one
      stored group. */
  ghost predicate MentionedCodesUnique(table: map<string, StaffGroup>, dtos: seq<ImportStaffGroupDto>)
  {
    forall c :: Mentioned(dtos, c) ==> UniqueCode(table, c)
  }

  /** Every code of the file that no created group carries is held by at
      most one group of `table`: the codes phase 2 may look up in the index. */
  ghost predicate UniqueBesides(table: map<string, StaffGroup>, created: seq<StaffGroup>,
                                dtos: seq<ImportStaffGroupDto>)
  {
    forall c :: Mentioned(dtos, c) && Uncreated(created, c) ==> UniqueCode(table, c)
  }

  /** Saving phase 1's groups keeps a unique code they do not carry unique. */
  lemma UncreatedCodeUnique(groups: map<string, StaffGroup>, created: seq<StaffGroup>, c: string)
    requires UniqueCode(groups, c) && Uncreated(created, c)
    ensures UniqueCode(SavedGroups(groups, created), c)
  {
    var t := SavedGroups(groups, created);
    forall k | k in t
      ensures t[k].groupCode == c ==> k in groups && groups[k].groupCode == c
    {
      if exists g :: g in created && g.id == k {
        SavedGroupsFrom(groups, created, k);
        var j :| 0 <= j < |created| && created[j] == t[k];
        assert t[k].groupCode != c;
      }
    }
  }

  /** Saving phase 1's groups over a table where the file's codes are unique
      leaves every such code they do not carry unique. */
  lemma UncreatedCodesUnique(groups: map<string, StaffGroup>, created: seq<StaffGroup>,
                             dtos: seq<ImportStaffGroupDto>)
    requires MentionedCodesUnique(groups, dtos)
    ensures UniqueBesides(SavedGroups(groups, created), created, dtos)
  {
    forall c | Mentioned(dtos, c) && Uncreated(created, c)
      ensures UniqueCode(SavedGroups(groups, created), c)
    {
      UncreatedCodeUnique(groups, created, c);
    }
  }

  /** The index lookups of a phase-2 row meet unique codes: a code it looks
      up by `findByGroupCode` was created by no phase-1 row. */
  lemma Phase2LookupsUnique(table: map<string, StaffGroup>, created: seq<StaffGroup>, st: Phase2,
                            d: ImportStaffGroupDto)
    requires Uncreated(created, d.groupCode) ==> UniqueCode(table, d.groupCode)
    requires d.parentCode.Some? && Uncreated(created, d.parentCode.value) ==> UniqueCode(table, d.parentCode.value)
    requires CreatedKept(created, st.created)
    ensures FirstWithCode(st.created, d.groupCode).None? ==> UniqueCode(table, d.groupCode)
    ensures d.parentCode.Some? && d.parentCode.value !in CodeToId(created)
            ==> UniqueCode(table, d.parentCode.value)
  {
    if FirstWithCode(st.created, d.groupCode).None? {
      assert forall j :: 0 <= j < |created| ==> created[j].groupCode == st.created[j].groupCode;
    }
    if d.parentCode.Some? {
      CodeToIdKeys(created, d.parentCode.value);
    }
  }
}
