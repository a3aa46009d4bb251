/** `GroupService`: an owner's active and archived groups, and archiving
    and restoring a group. The group repository is the sequence of group
    rows in storage order; `findByOwnerAndArchivedFalse` and
    `findByOwnerAndArchivedTrue` are filters over it. */
module GroupService {
  import opened Text
  import opened Entities

  /** The owner's groups whose archived flag is `archived`, in storage
      order. */
  function OwnedWithFlag(groups: seq<Group>, owner: string, archived: bool): (r: seq<Group>)
    ensures |r| <= |groups|
    ensures forall g :: g in r <==> g in groups && g.owner == owner && g.archived == archived
  {
    Filter(groups, (g: Group) => g.owner == owner && g.archived == archived)
  }

  /** All of the owner's groups, in storage order. */
  function Owned(groups: seq<Group>, owner: string): (r: seq<Group>)
    ensures forall g :: g in r <==> g in groups && g.owner == owner
  {
    Filter(groups, (g: Group) => g.owner == owner)
  }

  /** The active and the archived listings split the owner's groups: every
      one of them is in exactly one of the two, as often as it is stored. */
  lemma {:induction false} ListingsPartitionOwned(groups: seq<Group>, owner: string)
    ensures multiset(OwnedWithFlag(groups, owner, false)) + multiset(OwnedWithFlag(groups, owner, true))
         == multiset(Owned(groups, owner))
    decreases |groups|
  {
    if groups != [] {
      ListingsPartitionOwned(groups[..|groups| - 1], owner);
    }
  }

  /** The table after `setArchived(flag)` and `save` on the first group
      with this id; unchanged when there is none. */
  function WithArchived(groups: seq<Group>, id: Uuid, flag: bool): (r: seq<Group>)
    ensures |r| == |groups|
    ensures GroupIndex(groups, id) >= 0 ==> r[GroupIndex(groups, id)] == groups[GroupIndex(groups, id)].(archived := flag)
    ensures forall j :: 0 <= j < |groups| && j != GroupIndex(groups, id) ==> r[j] == groups[j]
  {
    var k := GroupIndex(groups, id);
    if k < 0 then groups else groups[k := groups[k].(archived := flag)]
  }

  /** Setting the flag leaves every group's id where it was, so the same
      group is found again. */
  lemma WithArchivedKeepsIndex(groups: seq<Group>, id: Uuid, flag: bool)
    ensures GroupIndex(WithArchived(groups, id, flag), id) == GroupIndex(groups, id)
  {
    var r := WithArchived(groups, id, flag);
    var k := GroupIndex(groups, id);
    assert forall j :: 0 <= j < |groups| ==> r[j].id == groups[j].id;
    if k >= 0 {
      GroupIndexIs(r, id, k);
    } else {
      assert r == groups;
    }
  }

  /** The first position holding the id is the one `GroupIndex` finds. */
  lemma GroupIndexIs(groups: seq<Group>, id: Uuid, k: int)
    requires 0 <= k < |groups| && groups[k].id == id
    requires forall j :: 0 <= j < k ==> groups[j].id != id
    ensures GroupIndex(groups, id) == k
  {
  }

  /** Archiving (or restoring) twice is archiving (or restoring) once. */
  lemma WithArchivedIdempotent(groups: seq<Group>, id: Uuid, flag: bool)
    ensures WithArchived(WithArchived(groups, id, flag), id, flag) == WithArchived(groups, id, flag)
  {
    WithArchivedKeepsIndex(groups, id, flag);
  }

  /** Archiving then restoring leaves the group not archived, and the rest
      of the table as it was. */
  lemma ArchiveThenRestore(groups: seq<Group>, id: Uuid)
    requires GroupIndex(groups, id) >= 0
    ensures var k := GroupIndex(groups, id);
      WithArchived(WithArchived(groups, id, true), id, false) == groups[k := groups[k].(archived := false)]
  {
    WithArchivedKeepsIndex(groups, id, true);
  }

  class GroupArchive {
    var groups: seq<Group>

    constructor (stored: seq<Group>)
      ensures groups == stored
    {
      groups := stored;
    }

    /** `getActiveGroups`: the owner's groups not archived, in storage order. The filter
        itself is `OwnedWithFlag`; `ListingsPartitionOwned` shows that the
        two listings split the owner's groups. */
    method GetActiveGroups(owner: string) returns (r: seq<Group>)
      ensures r == OwnedWithFlag(groups, owner, false)
      ensures forall g :: g in r <==> g in groups && g.owner == owner && !g.archived
    {
      r := OwnedWithFlag(groups, owner, false);
    }

    /** `getArchivedGroups`: the owner's archived groups, in storage order. The filter
        itself is `OwnedWithFlag`; `ListingsPartitionOwned` shows that the
        two listings split the owner's groups. */
    method GetArchivedGroups(owner: string) returns (r: seq<Group>)
      ensures r == OwnedWithFlag(groups, owner, true)
      ensures forall g :: g in r <==> g in groups && g.owner == owner && g.archived
    {
      r := OwnedWithFlag(groups, owner, true);
    }

    /** `archiveGroup`: true and the group archived when it exists, false
        and nothing saved otherwise. `owner` is not consulted. */
    method ArchiveGroup(id: Uuid, owner: string) returns (found: bool)
      modifies this
      ensures found <==> GroupIndex(old(groups), id) >= 0
      ensures groups == WithArchived(old(groups), id, true)
    {
      var k := GroupIndex(groups, id);
      if k < 0 {
        return false;
      }
      groups := groups[k := groups[k].(archived := true)];
      return true;
    }

    /** `restoreGroup`: true and the group no longer archived when it
        exists, false and nothing saved otherwise. `owner` is not
        consulted. */
    method RestoreGroup(id: Uuid, owner: string) returns (found: bool)
      modifies this
      ensures found <==> GroupIndex(old(groups), id) >= 0
      ensures groups == WithArchived(old(groups), id, false)
    {
      var k := GroupIndex(groups, id);
      if k < 0 {
        return false;
      }
      groups := groups[k := groups[k].(archived := false)];
      return true;
    }
  }
}
