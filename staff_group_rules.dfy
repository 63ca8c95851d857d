/** The table rewrites behind `StaffGroupServiceImpl`, as functions of the
    stored group table: which documents create, update and delete hand to
    `saveAll`, and the members a group resolves to. The service's methods
    are proved to compute exactly these. */
module StaffGroupRules {
  import opened Common
  import opened DateUtil
  import opened DataDomain
  import opened StaffGroupMapper

  /** Stands for the message the repository raises on a null id (the
      framework's text is not modelled). */
  const NULL_ID_MESSAGE: string := "id must not be null"

  /** A group released from its parent, dated `today`. */
  function Orphaned(g: StaffGroup, today: Date): (r: StaffGroup)
    ensures r.parentId == None && r.updatedAt == today
    ensures r.(parentId := g.parentId, updatedAt := g.updatedAt) == g
  {
    g.(parentId := None, updatedAt := today)
  }

  /** A parent with every child entry of `childId` removed, dated `today`. */
  function Unlinked(parent: StaffGroup, childId: string, today: Date): (r: StaffGroup)
    ensures forall e :: e in r.children ==> e.id != childId
    ensures forall e :: e in parent.children && e.id != childId ==> e in r.children
    ensures r.updatedAt == today && r.(children := parent.children, updatedAt := parent.updatedAt) == parent
  {
    parent.(children := RemoveChild(parent.children, childId), updatedAt := today)
  }

  /** A parent with one more child entry, the snapshot of `child`, dated
      `today`. */
  function WithChildEntry(parent: StaffGroup, child: StaffGroup, today: Date): (r: StaffGroup)
    ensures r.children == parent.children + [ToChildDto(child)] && r.updatedAt == today
    ensures r.(children := parent.children, updatedAt := parent.updatedAt) == parent
  {
    parent.(children := parent.children + [ToChildDto(child)], updatedAt := today)
  }

  /** The children released by walking the child entries `entries`: every
      entry not in `keep` whose group is stored yields that group orphaned,
      in entry order. */
  function Detach(groups: map<string, StaffGroup>, entries: seq<StaffGroupChildDto>, keep: seq<string>, today: Date)
    : (r: seq<StaffGroup>)
    ensures |r| <= |entries|
    decreases |entries|
  {
    if entries == [] then []
    else
      var n := |entries| - 1;
      var e := entries[n];
      Detach(groups, entries[..n], keep, today)
      + (if e.id !in keep && e.id in groups then [Orphaned(groups[e.id], today)] else [])
  }

  /** What walking `entries` releases: exactly the stored groups of the
      entries not kept, each without a parent. */
  lemma {:induction false} DetachReleases(groups: map<string, StaffGroup>, entries: seq<StaffGroupChildDto>,
                                         keep: seq<string>, today: Date)
    requires GroupsKeyed(groups)
    ensures forall g :: g in Detach(groups, entries, keep, today) ==>
              g.id in groups && g == Orphaned(groups[g.id], today) && g.id !in keep
              && exists e :: e in entries && e.id == g.id
    ensures forall e :: e in entries && e.id !in keep && e.id in groups ==>
              Orphaned(groups[e.id], today) in Detach(groups, entries, keep, today)
    decreases |entries|
  {
    if entries != [] {
      var n := |entries| - 1;
      DetachReleases(groups, entries[..n], keep, today);
      assert entries == entries[..n] + [entries[n]];
      forall g | g in Detach(groups, entries, keep, today)
        ensures exists e :: e in entries && e.id == g.id
      {
        if g !in Detach(groups, entries[..n], keep, today) {
          assert entries[n] in entries;
        }
      }
    }
  }

  /** The children a parent links, and the entries it records for them. */
  datatype Linked = Linked(saved: seq<StaffGroup>, entries: seq<StaffGroupChildDto>)

  /** The child-linking loop: each id must name a stored group without a
      parent, or (with `keepLinked`) one already under `parentId`, which is
      passed over. A parentless child is linked and gets an entry. The first
      missing or foreign-parented child aborts. */
  function LinkChildren(groups: map<string, StaffGroup>, parentId: string, childIds: seq<string>, today: Date,
                        keepLinked: bool): (r: Result<Linked, ServiceError>)
    ensures r.Ok? ==> |r.value.saved| == |r.value.entries| <= |childIds|
    decreases |childIds|
  {
    if childIds == [] then Ok(Linked([], []))
    else
      var n := |childIds| - 1;
      match LinkChildren(groups, parentId, childIds[..n], today, keepLinked)
      case Err(e) => Err(e)
      case Ok(acc) =>
        var c := childIds[n];
        if c !in groups then Err(ResourceNotFound("Child group not found with id: " + c))
        else
          var child := groups[c];
          if child.parentId.Some? && !(keepLinked && child.parentId.value == parentId) then
            Err(DuplicateResource("Child group already has a parent: " + c))
          else if child.parentId.Some? then Ok(acc)
          else
            var linked := child.(parentId := Some(parentId), updatedAt := today);
            Ok(Linked(acc.saved + [linked], acc.entries + [ToChildDto(linked)]))
  }

  /** A child id the linking loop accepts. */
  predicate Linkable(groups: map<string, StaffGroup>, parentId: string, c: string, keepLinked: bool)
  {
    c in groups && (groups[c].parentId.None? || (keepLinked && groups[c].parentId == Some(parentId)))
  }

  /** Linking succeeds exactly when every child is stored and has no parent
      other than (with `keepLinked`) `parentId`: a child parented elsewhere is
      rejected. */
  lemma {:induction false} LinkChildrenSucceeds(groups: map<string, StaffGroup>, parentId: string,
                                               childIds: seq<string>, today: Date, keepLinked: bool)
    ensures LinkChildren(groups, parentId, childIds, today, keepLinked).Ok?
            <==> forall i :: 0 <= i < |childIds| ==> Linkable(groups, parentId, childIds[i], keepLinked)
    decreases |childIds|
  {
    if childIds != [] {
      var n := |childIds| - 1;
      LinkChildrenSucceeds(groups, parentId, childIds[..n], today, keepLinked);
      assert forall i :: 0 <= i < n ==> childIds[..n][i] == childIds[i];
    }
  }

  /** On success only previously parentless children are linked: each gets
      `parentId`, and the recorded entries are their snapshots; a child that
      was already under `parentId` gets no entry. */
  lemma {:induction false} LinkChildrenLinksOrphans(groups: map<string, StaffGroup>, parentId: string,
                                                   childIds: seq<string>, today: Date, keepLinked: bool)
    requires GroupsKeyed(groups)
    requires LinkChildren(groups, parentId, childIds, today, keepLinked).Ok?
    ensures var l := LinkChildren(groups, parentId, childIds, today, keepLinked).value;
            && (forall i :: 0 <= i < |l.saved| ==>
                  l.saved[i].id in groups && groups[l.saved[i].id].parentId.None?
                  && l.saved[i] == groups[l.saved[i].id].(parentId := Some(parentId), updatedAt := today)
                  && l.entries[i] == ToChildDto(l.saved[i])
                  && l.saved[i].id in childIds)
            && (forall c :: c in childIds && c in groups && groups[c].parentId.None? ==>
                  exists i :: 0 <= i < |l.saved| && l.saved[i].id == c)
    decreases |childIds|
  {
    if childIds != [] {
      var n := |childIds| - 1;
      LinkChildrenLinksOrphans(groups, parentId, childIds[..n], today, keepLinked);
      var acc := LinkChildren(groups, parentId, childIds[..n], today, keepLinked).value;
      var l := LinkChildren(groups, parentId, childIds, today, keepLinked).value;
      assert childIds == childIds[..n] + [childIds[n]];
      if groups[childIds[n]].parentId.None? {
        assert l.saved == acc.saved + [l.saved[|acc.saved|]];
        forall c | c in childIds && c in groups && groups[c].parentId.None?
          ensures exists i :: 0 <= i < |l.saved| && l.saved[i].id == c
        {
          if c == childIds[n] {
            assert l.saved[|acc.saved|].id == c;
          } else {
            assert c in childIds[..n];
            var i :| 0 <= i < |acc.saved| && acc.saved[i].id == c;
            assert l.saved[i] == acc.saved[i];
          }
        }
      } else {
        forall c | c in childIds && c in groups && groups[c].parentId.None?
          ensures c in childIds[..n]
        {
        }
      }
    }
  }

  /** The children part of `updateStaffGroup` (lines 143-181) on the group
      `g` being updated: with an id set, the dropped children are released
      and the listed ones linked, the children list becoming the new
      entries; without one, a non-empty children list is released and
      cleared. Answers the new `g` and the children to save. */
  function RelinkChildren(groups: map<string, StaffGroup>, g: StaffGroup, childrenIds: Option<seq<string>>,
                          today: Date): (r: Result<(StaffGroup, seq<StaffGroup>), ServiceError>)
    ensures r.Ok? ==> r.value.0 == g.(children := r.value.0.children)
  {
    match childrenIds
    case Some(ids) =>
      var dropped := Detach(groups, g.children, ids, today);
      (match LinkChildren(groups, g.id, ids, today, true)
       case Err(e) => Err(e)
       case Ok(l) => Ok((g.(children := l.entries), dropped + l.saved)))
    case None =>
      if g.children != [] then Ok((g.(children := []), Detach(groups, g.children, [], today)))
      else Ok((g, []))
  }

  /** The parent part of `updateStaffGroup` (lines 184-204): a new parent
      moves `g` from its old parent's children to the new parent's; no
      parent detaches it from the old one. Asking for a parent when `g` has
      none reaches `findById(null)`, which raises. */
  function RelinkParent(groups: map<string, StaffGroup>, g: StaffGroup, parentId: Option<string>, today: Date)
    : (r: Result<(StaffGroup, seq<StaffGroup>), ServiceError>)
    ensures r.Ok? ==> r.value.0 == g.(parentId := r.value.0.parentId)
  {
    if parentId.Some? && parentId != g.parentId then
      var p := parentId.value;
      if p !in groups then Err(ResourceNotFound("Parent group not found with id: " + p))
      else if g.parentId.None? then Err(IllegalArgument(NULL_ID_MESSAGE))
      else
        var q := g.parentId.value;
        if q !in groups then Err(ResourceNotFound("Old parent group not found with id: " + q))
        else
          var moved := g.(parentId := Some(groups[p].id));
          Ok((moved, [Unlinked(groups[q], g.id, today), WithChildEntry(groups[p], moved, today)]))
    else if parentId.None? && g.parentId.Some? then
      var q := g.parentId.value;
      if q !in groups then Err(ResourceNotFound("Old parent group not found with id: " + q))
      else Ok((g.(parentId := None), [Unlinked(groups[q], g.id, today)]))
    else Ok((g, []))
  }

  /** The group `createStaffGroup` builds (lines 76-83): dated `today`, no
      parent, no children, and no members (the builder leaves the set unset). */
  function NewGroup(id: string, groupCode: string, name: string, today: Date): (r: StaffGroup)
    ensures r.id == id && r.groupCode == groupCode && r.name == name
    ensures r.parentId == None && r.children == [] && r.memberIds == {}
    ensures r.createdAt == today && r.updatedAt == today
  {
    StaffGroup(id, groupCode, name, None, [], {}, today, today)
  }

  /** `createStaffGroup` after the lock (lines 71-108) when the children loop
      walks `walked`: the new group and the documents handed to `saveAll`
      (the group, its linked children, then its parent). */
  function CreatePlanWalking(groups: map<string, StaffGroup>, newId: string, groupCode: string, name: string,
                             parentId: Option<string>, walked: seq<string>, today: Date)
    : (r: Result<(StaffGroup, seq<StaffGroup>), ServiceError>)
  {
    if CodeTakenBy(groups, groupCode) then Err(DuplicateResource("StaffGroup already exist with code: " + groupCode))
    else
      match LinkChildren(groups, newId, walked, today, false)
      case Err(e) => Err(e)
      case Ok(l) =>
        var g := NewGroup(newId, groupCode, name, today).(children := l.entries);
        if parentId.None? then Ok((g, [g] + l.saved))
        else if parentId.value !in groups then Err(ResourceNotFound("Parent group not found with id: " + parentId.value))
        else
          var parent := groups[parentId.value];
          var placed := g.(parentId := Some(parent.id));
          Ok((placed, [placed] + l.saved + [WithChildEntry(parent, placed, today)]))
  }

  /** `createStaffGroup` as written: the children loop runs only over an
      empty id set (line 86), so it never links anything. */
  function CreatePlanAsWritten(groups: map<string, StaffGroup>, newId: string, groupCode: string, name: string,
                               parentId: Option<string>, childrenIds: Option<seq<string>>, today: Date)
    : (r: Result<(StaffGroup, seq<StaffGroup>), ServiceError>)
  {
    var walked := if childrenIds.Some? && |childrenIds.value| == 0 then childrenIds.value else [];
    CreatePlanWalking(groups, newId, groupCode, name, parentId, walked, today)
  }

  /** As written, create saves the new group, and with a parent also that
      parent with the new group's entry appended, and nothing else: the new
      group has no children, and every other stored group, a requested child
      included, is left as it was. A taken code or a missing parent fails with
      the source's messages. */
  lemma CreateAsWrittenSaves(groups: map<string, StaffGroup>, newId: string, groupCode: string, name: string,
                             parentId: Option<string>, childrenIds: Option<seq<string>>, today: Date)
    requires GroupsKeyed(groups)
    ensures var r := CreatePlanAsWritten(groups, newId, groupCode, name, parentId, childrenIds, today);
            && (CodeTakenBy(groups, groupCode) ==> r == Err(DuplicateResource("StaffGroup already exist with code: " + groupCode)))
            && (!CodeTakenBy(groups, groupCode) && parentId.Some? && parentId.value !in groups ==>
                  r == Err(ResourceNotFound("Parent group not found with id: " + parentId.value)))
            && (!CodeTakenBy(groups, groupCode) && (parentId.None? || parentId.value in groups) ==>
                  var g := NewGroup(newId, groupCode, name, today).(parentId := parentId);
                  r == Ok((g, if parentId.None? then [g] else [g, WithChildEntry(groups[parentId.value], g, today)])))
    ensures var r := CreatePlanAsWritten(groups, newId, groupCode, name, parentId, childrenIds, today);
            r.Ok? ==> r.value.0.children == []
                      && forall k :: k in groups && k != newId && Some(k) != parentId ==>
                           SavedGroups(groups, r.value.1)[k] == groups[k]
  {
    var walked := if childrenIds.Some? && |childrenIds.value| == 0 then childrenIds.value else [];
    assert walked == [];
    assert LinkChildren(groups, newId, walked, today, false) == Ok(Linked([], []));
    var g0 := NewGroup(newId, groupCode, name, today);
    assert g0.(children := []) == g0;
    if !CodeTakenBy(groups, groupCode) && parentId.Some? && parentId.value in groups {
      assert groups[parentId.value].id == parentId.value;
      assert [g0.(parentId := parentId)] + [] + [WithChildEntry(groups[parentId.value], g0.(parentId := parentId), today)]
             == [g0.(parentId := parentId), WithChildEntry(groups[parentId.value], g0.(parentId := parentId), today)];
    } else if !CodeTakenBy(groups, groupCode) && parentId.None? {
      assert [g0] + [] == [g0];
    }
  }

  /** `createStaffGroup` as intended: the children loop walks every given
      child id. */
  function CreatePlan(groups: map<string, StaffGroup>, newId: string, groupCode: string, name: string,
                      parentId: Option<string>, childrenIds: Option<seq<string>>, today: Date)
    : (r: Result<(StaffGroup, seq<StaffGroup>), ServiceError>)
  {
    CreatePlanWalking(groups, newId, groupCode, name, parentId, if childrenIds.Some? then childrenIds.value else [], today)
  }

  /** As written, asking for a parentless stored child links nothing: the
      new group has no children, while the intended create lists the child. */
  lemma CreateAsWrittenDropsChildren(c: StaffGroup, today: Date)
    requires c.id == "c" && c.groupCode == "C" && c.parentId.None?
    ensures var groups := map["c" := c];
            && CreatePlanAsWritten(groups, "n", "N", "new", None, Some(["c"]), today).Ok?
            && CreatePlanAsWritten(groups, "n", "N", "new", None, Some(["c"]), today).value.0.children == []
            && CreatePlan(groups, "n", "N", "new", None, Some(["c"]), today).Ok?
            && CreatePlan(groups, "n", "N", "new", None, Some(["c"]), today).value.0.children
               == [ToChildDto(c.(parentId := Some("n"), updatedAt := today))]
  {
    var groups := map["c" := c];
    assert !CodeTakenBy(groups, "N") by {
      forall k | k in groups ensures groups[k].groupCode != "N" {
        assert k == "c";
      }
    }
    assert ["c"][..0] == [];
  }

  /** The intended create succeeds exactly when the code is free, every child
      is stored without a parent and a requested parent is stored; the new
      group then carries the requested code and name, lists every child it
      linked, and sits under the requested parent, which lists it last. */
  lemma {:induction false} CreateLinksChildren(groups: map<string, StaffGroup>, newId: string, groupCode: string,
                                              name: string, parentId: Option<string>, childrenIds: Option<seq<string>>,
                                              today: Date)
    requires GroupsKeyed(groups)
    ensures var ids := if childrenIds.Some? then childrenIds.value else [];
            CreatePlan(groups, newId, groupCode, name, parentId, childrenIds, today).Ok?
            <==> !CodeTakenBy(groups, groupCode)
                 && (forall i :: 0 <= i < |ids| ==> Linkable(groups, newId, ids[i], false))
                 && (parentId.Some? ==> parentId.value in groups)
    ensures var r := CreatePlan(groups, newId, groupCode, name, parentId, childrenIds, today);
            var ids := if childrenIds.Some? then childrenIds.value else [];
            r.Ok? ==>
              && r.value.0.id == newId && r.value.0.groupCode == groupCode && r.value.0.name == name
              && r.value.0.parentId == parentId && r.value.0.memberIds == {}
              && r.value.1[0] == r.value.0
              && (forall c :: c in ids ==>
                    exists e :: e in r.value.0.children && e.id == c && e.parentId == Some(newId))
              && (parentId.Some? ==>
                    var p := r.value.1[|r.value.1| - 1];
                    p.id == parentId.value && p.children[|p.children| - 1] == ToChildDto(r.value.0))
  {
    var ids := if childrenIds.Some? then childrenIds.value else [];
    LinkChildrenSucceeds(groups, newId, ids, today, false);
    var r := CreatePlan(groups, newId, groupCode, name, parentId, childrenIds, today);
    if r.Ok? {
      LinkChildrenLinksOrphans(groups, newId, ids, today, false);
      var l := LinkChildren(groups, newId, ids, today, false).value;
      forall c | c in ids
        ensures exists e :: e in r.value.0.children && e.id == c && e.parentId == Some(newId)
      {
        var j :| 0 <= j < |ids| && ids[j] == c;
        assert Linkable(groups, newId, ids[j], false);
        var i :| 0 <= i < |l.saved| && l.saved[i].id == c;
        assert l.entries[i] in r.value.0.children;
      }
    }
  }

  predicate CodeTakenBy(groups: map<string, StaffGroup>, groupCode: string)
  {
    exists k :: k in groups && groups[k].groupCode == groupCode
  }

  /** `updateStaffGroup` after the lock (lines 129-206): the documents handed
      to `saveAll`, the updated group first. */
  function UpdatePlan(groups: map<string, StaffGroup>, id: string, groupCode: Option<string>, name: string,
                      parentId: Option<string>, childrenIds: Option<seq<string>>, today: Date)
    : (r: Result<seq<StaffGroup>, ServiceError>)
    ensures r.Ok? ==> |r.value| >= 1 && id in groups && r.value[0].id == groups[id].id
  {
    if id !in groups then Err(ResourceNotFound("Staff group not found with id: " + id))
    else if groupCode.None? || groupCode.value == "" then Err(IllegalArgument("Group ID cannot be null or empty"))
    else if CodeTakenBy(groups, groupCode.value) && groups[id].groupCode != groupCode.value then
      Err(DuplicateResource("StaffGroup already exist with group code: " + groupCode.value))
    else
      var g0 := groups[id].(groupCode := groupCode.value, name := name);
      match RelinkChildren(groups, g0, childrenIds, today)
      case Err(e) => Err(e)
      case Ok(c) =>
        match RelinkParent(groups, c.0, parentId, today)
        case Err(e) => Err(e)
        case Ok(p) => Ok([p.0.(updatedAt := today)] + c.1 + p.1)
  }

  /** The code checks of `updateStaffGroup`: a null or empty code, and a code
      another group owns, are rejected. */
  lemma UpdateChecksCode(groups: map<string, StaffGroup>, id: string, groupCode: Option<string>, name: string,
                         parentId: Option<string>, childrenIds: Option<seq<string>>, today: Date)
    requires id in groups
    ensures groupCode.None? || groupCode == Some("") ==>
              UpdatePlan(groups, id, groupCode, name, parentId, childrenIds, today)
              == Err(IllegalArgument("Group ID cannot be null or empty"))
    ensures groupCode.Some? && groupCode.value != "" && groups[id].groupCode != groupCode.value
            && (exists k :: k in groups && groups[k].groupCode == groupCode.value) ==>
              UpdatePlan(groups, id, groupCode, name, parentId, childrenIds, today)
              == Err(DuplicateResource("StaffGroup already exist with group code: " + groupCode.value))
  {
  }

  /** On success the updated group leads the batch with the new code and
      name, dated today, and a listed child parented elsewhere is never
      accepted. */
  lemma {:induction false} UpdateRewritesGroup(groups: map<string, StaffGroup>, id: string, groupCode: Option<string>,
                                              name: string, parentId: Option<string>,
                                              childrenIds: Option<seq<string>>, today: Date)
    requires GroupsKeyed(groups)
    requires UpdatePlan(groups, id, groupCode, name, parentId, childrenIds, today).Ok?
    ensures var g := UpdatePlan(groups, id, groupCode, name, parentId, childrenIds, today).value[0];
            g.id == id && Some(g.groupCode) == groupCode && g.name == name && g.updatedAt == today
            && g.memberIds == groups[id].memberIds && g.createdAt == groups[id].createdAt
    ensures childrenIds.Some? ==>
              forall i :: 0 <= i < |childrenIds.value| ==> Linkable(groups, id, childrenIds.value[i], true)
  {
    if childrenIds.Some? {
      LinkChildrenSucceeds(groups, id, childrenIds.value, today, true);
    }
  }

  /** The children list an update gives the group. With an id list it holds
      exactly the snapshots of the listed children that had no parent, each
      now under the group; without one the list is cleared. */
  lemma UpdateRelinksChildren(groups: map<string, StaffGroup>, id: string, groupCode: Option<string>,
                              name: string, parentId: Option<string>, childrenIds: Option<seq<string>>, today: Date)
    requires GroupsKeyed(groups)
    requires UpdatePlan(groups, id, groupCode, name, parentId, childrenIds, today).Ok?
    ensures var b := UpdatePlan(groups, id, groupCode, name, parentId, childrenIds, today).value;
            childrenIds.None? ==> b[0].children == []
    ensures var b := UpdatePlan(groups, id, groupCode, name, parentId, childrenIds, today).value;
            childrenIds.Some? ==>
              && (forall x :: x in b[0].children ==>
                    x.id in childrenIds.value && x.id in groups && groups[x.id].parentId.None?
                    && x == ToChildDto(groups[x.id].(parentId := Some(id), updatedAt := today)))
              && (forall c :: c in childrenIds.value && c in groups && groups[c].parentId.None? ==>
                    exists x :: x in b[0].children && x.id == c)
  {
    var b := UpdatePlan(groups, id, groupCode, name, parentId, childrenIds, today).value;
    var g0 := groups[id].(groupCode := groupCode.value, name := name);
    var c := RelinkChildren(groups, g0, childrenIds, today).value;
    var p := RelinkParent(groups, c.0, parentId, today).value;
    assert b[0].children == c.0.children;
    if childrenIds.Some? {
      var keep := childrenIds.value;
      LinkChildrenLinksOrphans(groups, id, keep, today, true);
      var l := LinkChildren(groups, id, keep, today, true).value;
      assert c.0.children == l.entries;
      forall x | x in b[0].children
        ensures x.id in keep && x.id in groups && groups[x.id].parentId.None?
        ensures x == ToChildDto(groups[x.id].(parentId := Some(id), updatedAt := today))
      {
        var i :| 0 <= i < |l.entries| && l.entries[i] == x;
      }
      forall k | k in keep && k in groups && groups[k].parentId.None?
        ensures exists x :: x in b[0].children && x.id == k
      {
        var i :| 0 <= i < |l.saved| && l.saved[i].id == k;
        assert l.entries[i] in b[0].children;
      }
    }
  }

  /** The children documents an update saves: every listed child that had no
      parent is saved under the group, and every child entry that is dropped
      is saved without a parent. The claims are about children that are
      neither the group itself nor its old or new parent, which the parent
      documents saved last would overwrite. */
  lemma UpdateSavesChildren(groups: map<string, StaffGroup>, id: string, groupCode: Option<string>,
                            name: string, parentId: Option<string>, childrenIds: Option<seq<string>>, today: Date)
    requires GroupsKeyed(groups)
    requires UpdatePlan(groups, id, groupCode, name, parentId, childrenIds, today).Ok?
    ensures var b := UpdatePlan(groups, id, groupCode, name, parentId, childrenIds, today).value;
            forall e :: e in groups[id].children && e.id in groups && e.id != id
                        && (childrenIds.None? || e.id !in childrenIds.value)
                        && Some(e.id) != groups[id].parentId && Some(e.id) != parentId ==>
              SavedGroups(groups, b)[e.id] == Orphaned(groups[e.id], today)
    ensures var b := UpdatePlan(groups, id, groupCode, name, parentId, childrenIds, today).value;
            childrenIds.Some? ==>
              forall c :: c in childrenIds.value && c in groups && groups[c].parentId.None? && c != id
                          && Some(c) != groups[id].parentId && Some(c) != parentId ==>
                SavedGroups(groups, b)[c] == groups[c].(parentId := Some(id), updatedAt := today)
  {
    var b := UpdatePlan(groups, id, groupCode, name, parentId, childrenIds, today).value;
    var g0 := groups[id].(groupCode := groupCode.value, name := name);
    var c := RelinkChildren(groups, g0, childrenIds, today).value;
    var p := RelinkParent(groups, c.0, parentId, today).value;
    var b0 := p.0.(updatedAt := today);
    assert b == [b0] + c.1 + p.1;
    assert b0.id == id;
    RelinkParentTargets(groups, c.0, parentId, today);
    var keep := if childrenIds.Some? then childrenIds.value else [];
    DetachReleases(groups, g0.children, keep, today);
    var dropped := Detach(groups, g0.children, keep, today);
    if childrenIds.Some? {
      LinkChildrenLinksOrphans(groups, id, keep, today, true);
      var l := LinkChildren(groups, id, keep, today, true).value;
      assert c.1 == dropped + l.saved;
      forall k | k in keep && k in groups && groups[k].parentId.None? && k != id
                 && Some(k) != groups[id].parentId && Some(k) != parentId
        ensures SavedGroups(groups, b)[k] == groups[k].(parentId := Some(id), updatedAt := today)
      {
        var i :| 0 <= i < |l.saved| && l.saved[i].id == k;
        assert l.saved[i] in c.1;
        SavedInMiddle(groups, b0, c.1, p.1, k);
      }
    } else {
      assert c.1 == dropped || c.1 == [];
    }
    forall e | e in groups[id].children && e.id in groups && e.id != id && e.id !in keep
               && Some(e.id) != groups[id].parentId && Some(e.id) != parentId
      ensures SavedGroups(groups, b)[e.id] == Orphaned(groups[e.id], today)
    {
      assert Orphaned(groups[e.id], today) in dropped;
      assert c.1 == dropped + (c.1[|dropped|..]);
      SavedInMiddle(groups, b0, c.1, p.1, e.id);
    }
  }

  /** The documents the parent step saves are the group's old and new parent. */
  lemma RelinkParentTargets(groups: map<string, StaffGroup>, g: StaffGroup, parentId: Option<string>, today: Date)
    requires GroupsKeyed(groups)
    requires RelinkParent(groups, g, parentId, today).Ok?
    ensures forall x :: x in RelinkParent(groups, g, parentId, today).value.1 ==>
              Some(x.id) == g.parentId || Some(x.id) == parentId
  {
  }

  /** Saving the group, then `mid`, then `tail`: an id only `mid` carries ends
      up holding a document of `mid` with that id. */
  lemma SavedInMiddle(groups: map<string, StaffGroup>, b0: StaffGroup, mid: seq<StaffGroup>, tail: seq<StaffGroup>,
                      k: string)
    requires GroupsKeyed(groups) && k in groups && b0.id != k
    requires exists x :: x in mid && x.id == k
    requires forall x :: x in tail ==> x.id != k
    ensures SavedGroups(groups, [b0] + mid + tail)[k] in mid
    ensures SavedGroups(groups, [b0] + mid + tail)[k].id == k
  {
    SavedGroupsAppend(groups, [b0] + mid, tail);
    SavedGroupsFrom(groups, [b0] + mid, k);
    SavedGroupsKeyed(groups, [b0] + mid);
  }

  /** As written, a group without a parent cannot be given one through an
      update: the old-parent lookup runs on a null id. */
  lemma UpdateCannotAttachRoot(groups: map<string, StaffGroup>, id: string, groupCode: string, name: string,
                               p: string, today: Date)
    requires id in groups && groups[id].parentId.None? && groups[id].children == []
    requires groupCode != "" && groups[id].groupCode == groupCode
    requires p in groups
    ensures UpdatePlan(groups, id, Some(groupCode), name, Some(p), None, today) == Err(IllegalArgument(NULL_ID_MESSAGE))
  {
  }

  /** `deleteStaffGroup` after the lookup (lines 233-251): the documents
      saved before the group is deleted — its parent without the group's
      entry, then its released children. */
  function DeletePlan(groups: map<string, StaffGroup>, id: string, today: Date): (r: Result<seq<StaffGroup>, ServiceError>)
    requires id in groups
  {
    var g := groups[id];
    if g.parentId.Some? && g.parentId.value !in groups then
      Err(ResourceNotFound("Parent group not found with id: " + g.parentId.value))
    else
      var parentPart := if g.parentId.Some? then [Unlinked(groups[g.parentId.value], id, today)] else [];
      Ok(parentPart + Detach(groups, g.children, [], today))
  }

  /** After a successful delete plan is saved, every stored child the group
      listed is parentless. */
  lemma DeleteReleasesChildren(groups: map<string, StaffGroup>, id: string, today: Date)
    requires GroupsKeyed(groups) && id in groups
    requires DeletePlan(groups, id, today).Ok?
    ensures forall e :: e in groups[id].children && e.id in groups ==>
              SavedGroups(groups, DeletePlan(groups, id, today).value)[e.id].parentId.None?
  {
    var g := groups[id];
    var parentPart := if g.parentId.Some? then [Unlinked(groups[g.parentId.value], id, today)] else [];
    var childPart := Detach(groups, g.children, [], today);
    assert DeletePlan(groups, id, today).value == parentPart + childPart;
    SavedGroupsAppend(groups, parentPart, childPart);
    var mid := SavedGroups(groups, parentPart);
    DetachReleases(groups, g.children, [], today);
    forall e | e in g.children && e.id in groups
      ensures SavedGroups(mid, childPart)[e.id].parentId.None?
    {
      assert Orphaned(groups[e.id], today) in childPart;
      SavedGroupsFrom(mid, childPart, e.id);
    }
  }

  /** After a successful delete plan is saved, the group's parent no longer
      lists it, unless the parent is also among its own children. */
  lemma DeleteUnlinksParent(groups: map<string, StaffGroup>, id: string, today: Date)
    requires GroupsKeyed(groups) && id in groups
    requires DeletePlan(groups, id, today).Ok?
    requires groups[id].parentId.Some?
    requires forall e :: e in groups[id].children ==> e.id != groups[id].parentId.value
    ensures forall e :: e in SavedGroups(groups, DeletePlan(groups, id, today).value)[groups[id].parentId.value].children
              ==> e.id != id
  {
    var g := groups[id];
    var p := g.parentId.value;
    var parentPart := [Unlinked(groups[p], id, today)];
    var childPart := Detach(groups, g.children, [], today);
    assert DeletePlan(groups, id, today).value == parentPart + childPart;
    SavedGroupsAppend(groups, parentPart, childPart);
    SavedGroupsSnoc(groups, [], parentPart[0]);
    assert [] + parentPart == parentPart;
    var mid := SavedGroups(groups, parentPart);
    assert mid[p] == parentPart[0];
    DetachReleases(groups, g.children, [], today);
    assert forall c :: c in childPart ==> c.id != p;
  }

  /** Saving `a` then `b` is saving `a + b`. */
  lemma {:induction false} SavedGroupsAppend(table: map<string, StaffGroup>, a: seq<StaffGroup>, b: seq<StaffGroup>)
    ensures SavedGroups(table, a + b) == SavedGroups(SavedGroups(table, a), b)
    decreases |b|
  {
    if b == [] {
      assert a + b == a;
    } else {
      var n := |b| - 1;
      assert a + b == (a + b[..n]) + [b[n]];
      assert b == b[..n] + [b[n]];
      SavedGroupsAppend(table, a, b[..n]);
      SavedGroupsSnoc(table, a + b[..n], b[n]);
      SavedGroupsSnoc(SavedGroups(table, a), b[..n], b[n]);
    }
  }

  /** The saved table holds, under `k`, the last document of the batch with
      that id (when there is one). */
  lemma {:induction false} SavedGroupsFrom(table: map<string, StaffGroup>, batch: seq<StaffGroup>, k: string)
    requires exists g :: g in batch && g.id == k
    ensures SavedGroups(table, batch)[k] in batch
    decreases |batch|
  {
    var n := |batch| - 1;
    assert batch == batch[..n] + [batch[n]];
    if batch[n].id != k {
      var g :| g in batch && g.id == k;
      assert g in batch[..n];
      SavedGroupsFrom(table, batch[..n], k);
    }
  }

  /** A batch whose documents keep their stored code, except that `owner`
      may carry `code`, leaves every stored code in place and `code` on
      `owner` at most. */
  lemma {:induction false} SavedGroupsCodes(table: map<string, StaffGroup>, batch: seq<StaffGroup>, owner: string,
                                           code: string)
    requires forall g :: g in batch ==>
               (g.id in table && g.groupCode == table[g.id].groupCode) || (g.id == owner && g.groupCode == code)
    ensures forall k :: k in SavedGroups(table, batch) ==>
              (k in table && SavedGroups(table, batch)[k].groupCode == table[k].groupCode)
              || (k == owner && SavedGroups(table, batch)[k].groupCode == code)
    decreases |batch|
  {
    if batch != [] {
      var n := |batch| - 1;
      assert batch == batch[..n] + [batch[n]];
      SavedGroupsCodes(table, batch[..n], owner, code);
    }
  }

  /** Such a batch keeps group codes unique when no other group holds
      `code`. */
  lemma SavedGroupsCodesUnique(table: map<string, StaffGroup>, batch: seq<StaffGroup>, owner: string, code: string)
    requires UniqueGroupCodes(table)
    requires forall k :: k in table && table[k].groupCode == code ==> k == owner
    requires forall g :: g in batch ==>
               (g.id in table && g.groupCode == table[g.id].groupCode) || (g.id == owner && g.groupCode == code)
    ensures UniqueGroupCodes(SavedGroups(table, batch))
  {
    SavedGroupsCodes(table, batch, owner, code);
  }

  /** Creating a group keeps group codes unique, whichever child ids the
      loop walks (none as written, all as intended). */
  lemma CreateKeepsCodesUnique(groups: map<string, StaffGroup>, newId: string, groupCode: string, name: string,
                               parentId: Option<string>, walked: seq<string>, today: Date)
    requires GroupsKeyed(groups) && UniqueGroupCodes(groups)
    requires CreatePlanWalking(groups, newId, groupCode, name, parentId, walked, today).Ok?
    ensures UniqueGroupCodes(SavedGroups(groups, CreatePlanWalking(groups, newId, groupCode, name, parentId, walked, today).value.1))
  {
    LinkChildrenLinksOrphans(groups, newId, walked, today, false);
    SavedGroupsCodesUnique(groups, CreatePlanWalking(groups, newId, groupCode, name, parentId, walked, today).value.1,
                           newId, groupCode);
  }

  /** The documents `RelinkChildren` saves besides the group are stored
      groups under their own ids, with their stored codes. */
  lemma RelinkChildrenKeepsCodes(groups: map<string, StaffGroup>, g: StaffGroup, childrenIds: Option<seq<string>>,
                                 today: Date)
    requires GroupsKeyed(groups)
    requires RelinkChildren(groups, g, childrenIds, today).Ok?
    ensures forall x :: x in RelinkChildren(groups, g, childrenIds, today).value.1 ==>
              x.id in groups && x.groupCode == groups[x.id].groupCode
  {
    DetachReleases(groups, g.children, if childrenIds.Some? then childrenIds.value else [], today);
    if childrenIds.Some? {
      LinkChildrenLinksOrphans(groups, g.id, childrenIds.value, today, true);
    }
  }

  /** Updating a group keeps group codes unique. */
  lemma UpdateKeepsCodesUnique(groups: map<string, StaffGroup>, id: string, groupCode: Option<string>, name: string,
                               parentId: Option<string>, childrenIds: Option<seq<string>>, today: Date)
    requires GroupsKeyed(groups) && UniqueGroupCodes(groups)
    requires UpdatePlan(groups, id, groupCode, name, parentId, childrenIds, today).Ok?
    ensures UniqueGroupCodes(SavedGroups(groups, UpdatePlan(groups, id, groupCode, name, parentId, childrenIds, today).value))
  {
    var g0 := groups[id].(groupCode := groupCode.value, name := name);
    var c := RelinkChildren(groups, g0, childrenIds, today).value;
    var p := RelinkParent(groups, c.0, parentId, today).value;
    var batch := UpdatePlan(groups, id, groupCode, name, parentId, childrenIds, today).value;
    assert batch == [p.0.(updatedAt := today)] + c.1 + p.1;
    RelinkChildrenKeepsCodes(groups, g0, childrenIds, today);
    assert p.0.id == id && p.0.groupCode == groupCode.value;
    SavedGroupsCodesUnique(groups, batch, id, groupCode.value);
  }

  /** The members a group resolves to: its own, united with those of every
      stored child, recursively; a missing child is skipped. `None` when the
      recursion is deeper than `fuel` (on a cycle the source never returns). */
  function Resolved(groups: map<string, StaffGroup>, g: StaffGroup, fuel: nat): (r: Option<set<string>>)
    decreases fuel, 1
  {
    if fuel == 0 then None
    else
      match ResolvedChildren(groups, g.children, fuel - 1)
      case None => None
      case Some(m) => Some(g.memberIds + m)
  }

  /** The members the child entries `entries` resolve to, each child with
      `fuel` levels left. */
  function ResolvedChildren(groups: map<string, StaffGroup>, entries: seq<StaffGroupChildDto>, fuel: nat)
    : (r: Option<set<string>>)
    decreases fuel, 2, |entries|
  {
    if entries == [] then Some({})
    else
      var n := |entries| - 1;
      match ResolvedChildren(groups, entries[..n], fuel)
      case None => None
      case Some(m) =>
        var c := entries[n].id;
        if c !in groups then Some(m)
        else
          match Resolved(groups, groups[c], fuel)
          case None => None
          case Some(mc) => Some(m + mc)
  }

  /** The children's members are exactly the union of each stored child's
      resolution: every stored child contributes all its members, and every
      member comes from some stored child. */
  lemma {:induction false} ResolvedChildrenUnion(groups: map<string, StaffGroup>, entries: seq<StaffGroupChildDto>,
                                                fuel: nat)
    requires ResolvedChildren(groups, entries, fuel).Some?
    ensures forall e :: e in entries && e.id in groups ==>
              Resolved(groups, groups[e.id], fuel).Some?
              && Resolved(groups, groups[e.id], fuel).value <= ResolvedChildren(groups, entries, fuel).value
    ensures forall x :: x in ResolvedChildren(groups, entries, fuel).value ==>
              exists e :: e in entries && e.id in groups && Resolved(groups, groups[e.id], fuel).Some?
                          && x in Resolved(groups, groups[e.id], fuel).value
    decreases |entries|
  {
    if entries != [] {
      var n := |entries| - 1;
      ResolvedChildrenUnion(groups, entries[..n], fuel);
      assert entries == entries[..n] + [entries[n]];
      forall x | x in ResolvedChildren(groups, entries, fuel).value
        ensures exists e :: e in entries && e.id in groups && Resolved(groups, groups[e.id], fuel).Some?
                            && x in Resolved(groups, groups[e.id], fuel).value
      {
        if x !in ResolvedChildren(groups, entries[..n], fuel).value {
          assert entries[n] in entries;
        } else {
          var e :| e in entries[..n] && e.id in groups && Resolved(groups, groups[e.id], fuel).Some?
                   && x in Resolved(groups, groups[e.id], fuel).value;
          assert e in entries;
        }
      }
    }
  }

  /** A resolution holds the group's own members and those of each stored
      child, and nothing else. */
  lemma ResolvedIsUnion(groups: map<string, StaffGroup>, g: StaffGroup, fuel: nat)
    requires Resolved(groups, g, fuel).Some?
    ensures g.memberIds <= Resolved(groups, g, fuel).value
    ensures forall e :: e in g.children && e.id in groups ==>
              Resolved(groups, groups[e.id], fuel - 1).Some?
              && Resolved(groups, groups[e.id], fuel - 1).value <= Resolved(groups, g, fuel).value
    ensures forall x :: x in Resolved(groups, g, fuel).value ==>
              x in g.memberIds || exists e :: e in g.children && e.id in groups
                                             && Resolved(groups, groups[e.id], fuel - 1).Some?
                                             && x in Resolved(groups, groups[e.id], fuel - 1).value
  {
    ResolvedChildrenUnion(groups, g.children, fuel - 1);
  }

  /** More fuel never changes a resolution that completed. */
  lemma {:induction false} ResolvedFuelMonotone(groups: map<string, StaffGroup>, g: StaffGroup, fuel: nat)
    requires Resolved(groups, g, fuel).Some?
    ensures Resolved(groups, g, fuel + 1) == Resolved(groups, g, fuel)
    decreases fuel, 1
  {
    ResolvedChildrenFuelMonotone(groups, g.children, fuel - 1);
  }

  lemma {:induction false} ResolvedChildrenFuelMonotone(groups: map<string, StaffGroup>,
                                                       entries: seq<StaffGroupChildDto>, fuel: nat)
    requires ResolvedChildren(groups, entries, fuel).Some?
    ensures ResolvedChildren(groups, entries, fuel + 1) == ResolvedChildren(groups, entries, fuel)
    decreases fuel, 2, |entries|
  {
    if entries != [] {
      var n := |entries| - 1;
      ResolvedChildrenFuelMonotone(groups, entries[..n], fuel);
      var c := entries[n].id;
      if c in groups {
        ResolvedFuelMonotone(groups, groups[c], fuel);
      }
    }
  }

  /** The linking loop stops at its first failure: once a prefix of the ids
      fails, the whole walk fails the same way. */
  lemma {:induction false} LinkChildrenStopsAtFailure(groups: map<string, StaffGroup>, parentId: string,
                                                     childIds: seq<string>, i: int, today: Date, keepLinked: bool)
    requires 0 <= i <= |childIds|
    requires LinkChildren(groups, parentId, childIds[..i], today, keepLinked).Err?
    ensures LinkChildren(groups, parentId, childIds, today, keepLinked)
            == LinkChildren(groups, parentId, childIds[..i], today, keepLinked)
    decreases |childIds|
  {
    if i < |childIds| {
      var n := |childIds| - 1;
      assert childIds[..n][..i] == childIds[..i];
      LinkChildrenStopsAtFailure(groups, parentId, childIds[..n], i, today, keepLinked);
    } else {
      assert childIds[..i] == childIds;
    }
  }

  /** Resolution of the children stops at the first child that runs out of
      fuel. */
  lemma {:induction false} ResolvedChildrenStopsAtNone(groups: map<string, StaffGroup>,
                                                      entries: seq<StaffGroupChildDto>, i: int, fuel: nat)
    requires 0 <= i <= |entries|
    requires ResolvedChildren(groups, entries[..i], fuel).None?
    ensures ResolvedChildren(groups, entries, fuel).None?
    decreases |entries|
  {
    if i < |entries| {
      var n := |entries| - 1;
      assert entries[..n][..i] == entries[..i];
      ResolvedChildrenStopsAtNone(groups, entries[..n], i, fuel);
    } else {
      assert entries[..i] == entries;
    }
  }
}
