/** `GroupController`: deleting and updating groups, adding a user to a
    group and removing one from it, and listing a user's groups. The group
    and membership repositories are sequences of rows in storage order. */
module GroupController {
  import opened Text
  import opened Entities
  import opened GroupService

  const DefaultRole: string := "member"

  /** `findByUserId` over the memberships, in storage order. */
  function MembershipsOf(memberships: seq<UserGroup>, userId: string): (r: seq<UserGroup>)
    ensures |r| <= |memberships|
    ensures forall m :: m in r <==> m in memberships && m.userId == userId
  {
    Filter(memberships, (m: UserGroup) => m.userId == userId)
  }

  /** The position of the first membership of the user in the group, or
      -1: the one the removal loop reaches first. */
  function FirstMembership(memberships: seq<UserGroup>, userId: string, groupId: Uuid): (k: int)
    ensures -1 <= k < |memberships|
    ensures k >= 0 ==> memberships[k].userId == userId && memberships[k].groupId == groupId
    ensures forall j :: 0 <= j < |memberships| && (k == -1 || j < k) ==>
      !(memberships[j].userId == userId && memberships[j].groupId == groupId)
  {
    if memberships == [] then -1
    else if memberships[0].userId == userId && memberships[0].groupId == groupId then 0
    else
      var k := FirstMembership(memberships[1..], userId, groupId);
      if k < 0 then -1 else k + 1
  }

  /** How many memberships hold the user in the group. */
  function CountIn(memberships: seq<UserGroup>, userId: string, groupId: Uuid): nat
  {
    if memberships == [] then 0
    else (if memberships[0].userId == userId && memberships[0].groupId == groupId then 1 else 0)
         + CountIn(memberships[1..], userId, groupId)
  }

  /** Removing the membership at `k` takes one off the count of its user
      and group, and leaves the count of every other pair alone. */
  lemma {:induction false} RemoveAtCount(memberships: seq<UserGroup>, k: int, userId: string, groupId: Uuid)
    requires 0 <= k < |memberships|
    ensures var hit := memberships[k].userId == userId && memberships[k].groupId == groupId;
      CountIn(memberships[..k] + memberships[k + 1..], userId, groupId)
        == CountIn(memberships, userId, groupId) - (if hit then 1 else 0)
    decreases k
  {
    var rest := memberships[..k] + memberships[k + 1..];
    if k == 0 {
      assert rest == memberships[1..];
    } else {
      var tail := memberships[1..];
      RemoveAtCount(tail, k - 1, userId, groupId);
      assert rest == [memberships[0]] + (tail[..k - 1] + tail[k..]);
      assert rest[1..] == tail[..k - 1] + tail[k..];
    }
  }

  /** The group each membership points at, in membership order. */
  function GroupsOf(groups: seq<Group>, memberships: seq<UserGroup>): (r: seq<Group>)
    requires forall k :: 0 <= k < |memberships| ==> GroupIndex(groups, memberships[k].groupId) >= 0
    ensures |r| == |memberships|
    ensures forall k :: 0 <= k < |r| ==> r[k].id == memberships[k].groupId && r[k] in groups
  {
    if memberships == [] then []
    else [groups[GroupIndex(groups, memberships[0].groupId)]] + GroupsOf(groups, memberships[1..])
  }

  class GroupStore {
    var groups: seq<Group>
    var memberships: seq<UserGroup>

    /** Every membership points at a stored group (the group column is not
        nullable and references a group). */
    predicate Valid()
      reads this
    {
      forall k :: 0 <= k < |memberships| ==> GroupIndex(groups, memberships[k].groupId) >= 0
    }

    constructor (storedGroups: seq<Group>, storedMemberships: seq<UserGroup>)
      ensures groups == storedGroups && memberships == storedMemberships
    {
      groups := storedGroups;
      memberships := storedMemberships;
    }

    /** `deleteGroup`: the group removed and 200 when it exists, 404 and
        nothing changed otherwise. */
    method DeleteGroup(id: Uuid) returns (code: int)
      modifies this
      ensures memberships == old(memberships)
      ensures var k := GroupIndex(old(groups), id);
        if k >= 0 then code == OK && groups == old(groups)[..k] + old(groups)[k + 1..]
        else code == NOT_FOUND && groups == old(groups)
    {
      var k := GroupIndex(groups, id);
      if k < 0 {
        return NOT_FOUND;
      }
      groups := groups[..k] + groups[k + 1..];
      return OK;
    }

    /** `updateGroup`: for an existing id the body is saved in the stored
        group's place under the path's id, whatever id the body held; 404
        and nothing changed otherwise. */
    method UpdateGroup(id: Uuid, body: Group) returns (code: int, saved: Option<Group>)
      requires Valid()
      modifies this
      ensures Valid()
      ensures memberships == old(memberships)
      ensures var k := GroupIndex(old(groups), id);
        if k >= 0 then code == OK && saved == Some(body.(id := id)) && groups == old(groups)[k := body.(id := id)]
        else code == NOT_FOUND && saved.None? && groups == old(groups)
    {
      var k := GroupIndex(groups, id);
      if k < 0 {
        return NOT_FOUND, None;
      }
      var g := body.(id := id);
      ghost var before := groups;
      groups := groups[k := g];
      forall j | 0 <= j < |memberships| ensures GroupIndex(groups, memberships[j].groupId) >= 0 {
        SameIdsSameIndex(before, groups, memberships[j].groupId);
      }
      return OK, Some(g);
    }

    /** `addUserToGroup`: for an existing group a membership of the user
        in it, with the given role or "member" (the request parameter's
        default, which also replaces an empty value), is saved under `newId`
        and answered with 200; 404 and nothing saved otherwise. */
    method AddUserToGroup(groupId: Uuid, userId: string, role: Option<string>, newId: Uuid)
      returns (code: int, saved: Option<UserGroup>)
      requires Valid()
      requires forall j :: 0 <= j < |memberships| ==> memberships[j].id != newId
      modifies this
      ensures Valid()
      ensures groups == old(groups)
      ensures GroupIndex(groups, groupId) >= 0 ==>
        var m := UserGroup(newId, userId, groupId, if role.Some? && role.value != "" then role.value else DefaultRole);
        code == OK && saved == Some(m) && memberships == old(memberships) + [m]
      ensures GroupIndex(groups, groupId) < 0 ==> code == NOT_FOUND && saved.None? && memberships == old(memberships)
    {
      if GroupIndex(groups, groupId) < 0 {
        return NOT_FOUND, None;
      }
      var m := UserGroup(newId, userId, groupId, if role.Some? && role.value != "" then role.value else DefaultRole);
      memberships := memberships + [m];
      return OK, Some(m);
    }

    /** `removeUserFromGroup`: the loop over the user's memberships deletes
        the first one in the group and answers 200; 404 and nothing deleted
        when there is none. */
    method RemoveUserFromGroup(groupId: Uuid, userId: string) returns (code: int)
      requires Valid()
      modifies this
      ensures Valid()
      ensures groups == old(groups)
      ensures var k := FirstMembership(old(memberships), userId, groupId);
        if k >= 0 then code == OK && memberships == old(memberships)[..k] + old(memberships)[k + 1..]
        else code == NOT_FOUND && memberships == old(memberships)
    {
      var i := 0;
      while i < |memberships|
        invariant 0 <= i <= |memberships|
        invariant forall j :: 0 <= j < i ==> !(memberships[j].userId == userId && memberships[j].groupId == groupId)
      {
        if memberships[i].userId == userId && memberships[i].groupId == groupId {
          assert FirstMembership(memberships, userId, groupId) == i;
          memberships := memberships[..i] + memberships[i + 1..];
          return OK;
        }
        i := i + 1;
      }
      assert FirstMembership(memberships, userId, groupId) == -1;
      return NOT_FOUND;
    }

    /** `getGroupsForUser`: the user id must be UUID text (the parse throws
        otherwise and the request fails with 500); the groups of the
        memberships of its canonical form, in membership order, followed by
        the groups owned by the user id as given, keeping duplicates. */
    method GetGroupsForUser(userId: string) returns (code: int, listing: seq<Group>)
      requires Valid()
      ensures ParseUuid(userId).None? ==> code == INTERNAL_SERVER_ERROR && listing == []
      ensures ParseUuid(userId).Some? ==>
        var mine := MembershipsOf(memberships, ParseUuid(userId).value);
        && code == OK
        && |listing| == |mine| + |Owned(groups, userId)|
        && listing[..|mine|] == GroupsOf(groups, mine)
        && listing[|mine|..] == Owned(groups, userId)
    {
      var canonical := ParseUuid(userId);
      if canonical.None? {
        return INTERNAL_SERVER_ERROR, [];
      }
      var mine := MembershipsOf(memberships, canonical.value);
      assert forall k :: 0 <= k < |mine| ==> mine[k] in memberships;
      var memberGroups := GroupsOf(groups, mine);
      var owned := Owned(groups, userId);
      listing := memberGroups + owned;
      assert listing[..|mine|] == memberGroups;
      assert listing[|mine|..] == owned;
      return OK, listing;
    }
  }

  /** Replacing rows without changing their ids finds every id at the same
      position. */
  lemma {:induction false} SameIdsSameIndex(a: seq<Group>, b: seq<Group>, id: Uuid)
    requires |a| == |b|
    requires forall j :: 0 <= j < |a| ==> a[j].id == b[j].id
    ensures GroupIndex(a, id) == GroupIndex(b, id)
    decreases |a|
  {
    if a != [] {
      SameIdsSameIndex(a[..|a| - 1], b[..|b| - 1], id);
    }
  }
}
