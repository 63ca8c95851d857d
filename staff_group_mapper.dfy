/** `StaffGroupMapper`: the snapshot a parent keeps of each child group. */
module StaffGroupMapper {
  import opened DataDomain

  /** `toChildDto`: copies the group's identity, its parent link as it stands
      at the call, and its dates. The child entry has no member field, so the
      member set is not copied. */
  function ToChildDto(g: StaffGroup): (d: StaffGroupChildDto)
    ensures d.id == g.id && d.groupCode == g.groupCode && d.name == g.name
    ensures d.parentId == g.parentId
    ensures d.createdAt == g.createdAt && d.updatedAt == g.updatedAt
  {
    StaffGroupChildDto(g.id, g.groupCode, g.name, g.parentId, g.createdAt, g.updatedAt)
  }

  /** `toChildDtoList`: the stream `map` of `toChildDto`. */
  function ToChildDtoList(groups: seq<StaffGroup>): (r: seq<StaffGroupChildDto>)
    ensures |r| == |groups|
    ensures forall i :: 0 <= i < |groups| ==> r[i] == ToChildDto(groups[i])
  {
    if groups == [] then [] else [ToChildDto(groups[0])] + ToChildDtoList(groups[1..])
  }

  /** The snapshot ignores the group's own children and members: relinking
      or re-membering a group does not change the entry its parent holds. */
  lemma ChildDtoIgnoresSubtree(g: StaffGroup, children: seq<StaffGroupChildDto>, memberIds: set<string>)
    ensures ToChildDto(g.(children := children, memberIds := memberIds)) == ToChildDto(g)
  {
  }

  /** The list mapping distributes over concatenation, so a parent that
      appends entries one at a time holds the mapping of the appended groups. */
  lemma {:induction false} ChildDtoListAppend(a: seq<StaffGroup>, b: seq<StaffGroup>)
    ensures ToChildDtoList(a + b) == ToChildDtoList(a) + ToChildDtoList(b)
  {
  }
}
