/** The folder service: lazy root creation, create, rename/move with the
    descendant check, delete with its cascade, and the name-ordered views.
    Every mutation is atomic: a call that fails leaves the store as it was. */
module FolderService {
  import opened Common
  import opened Entities
  import opened Hierarchy
  import opened Traversal
  import opened FolderEdits
  import opened Store

  /** The body of a create or update request; a missing value is `None`. */
  datatype FolderRequest = FolderRequest(userId: Option<UserId>, name: Option<string>, parentFolderId: Option<FolderId>)

  /** `validateCreateRequest`: the owner must be given, and the name must
      hold a character that trim does not remove. */
  function ValidateCreateRequest(req: FolderRequest): (r: Option<Error>)
    ensures r == None || r == Some(BadRequest)
    ensures r == None <==>
      req.userId.Some? && req.name.Some? && exists i :: 0 <= i < |req.name.value| && !IsTrimmed(req.name.value[i])
  {
    if req.userId.None? then Some(BadRequest)
    else if req.name.None? then Some(BadRequest)
    else
      BlankIffAllTrimmed(req.name.value);
      if IsBlank(req.name.value) then Some(BadRequest) else None
  }

  // ---------------------------------------------------------------------
  // Issued ids
  // ---------------------------------------------------------------------

  /** Records kept from a table whose ids and owners were handed out were
      handed out too. */
  lemma KeptIssued(fs: Folders, fs2: Folders, nf: nat, nu: nat)
    requires FoldersIssued(fs, nf, nu) && fs2.Keys <= fs.Keys
    requires forall x :: x in fs2 ==> fs2[x].owner == fs[x].owner
    ensures FoldersIssued(fs2, nf, nu)
  {
  }

  lemma StoredIssued(fs: Folders, k: FolderId, f: Folder, nu: nat)
    requires FoldersIssued(fs, k, nu) && f.owner < nu
    requires f.parent.Some? ==> f.parent.value in fs
    ensures FoldersIssued(WithFolder(fs, k, f), k + 1, nu)
  {
    WithFolderShape(fs, k, f);
  }

  // ---------------------------------------------------------------------
  // The owner's root
  // ---------------------------------------------------------------------

  function NewRoot(u: UserId, now: int): Folder {
    Folder(u, "root", None, true, now, {})
  }

  /** The table after `getOrCreateRootFolder(u)`, `k` being the id a new
      root would get. */
  function WithRoot(fs: Folders, u: UserId, k: FolderId, now: int): (fs2: Folders)
  {
    if FindRoot(fs, u).Some? then fs else WithFolder(fs, k, NewRoot(u, now))
  }

  /** The folder `getOrCreateRootFolder(u)` returns. */
  function RootId(fs: Folders, u: UserId, k: FolderId): FolderId {
    var found := FindRoot(fs, u);
    if found.Some? then found.value else k
  }

  /** Ensuring the root keeps the table well formed, leaves a table that
      already has the owner's root alone, and otherwise adds exactly one
      parentless folder named "root"; afterwards that folder is the root
      the lookup finds. */
  lemma RootEnsured(fs: Folders, u: UserId, k: FolderId, now: int)
    requires FolderTree(fs) && k !in fs
    ensures FolderTree(WithRoot(fs, u, k, now))
    ensures FindRoot(WithRoot(fs, u, k, now), u) == Some(RootId(fs, u, k))
    ensures FindRoot(fs, u).Some? ==> WithRoot(fs, u, k, now) == fs
    ensures FindRoot(fs, u).None? ==>
      && WithRoot(fs, u, k, now).Keys == fs.Keys + {k}
      && WithRoot(fs, u, k, now)[k] == Folder(u, "root", None, true, now, {})
      && SameRecords(fs, WithRoot(fs, u, k, now), {})
  {
    if FindRoot(fs, u).None? {
      assert CanStore(fs, k, NewRoot(u, now));
      StoreKeepsTree(fs, k, NewRoot(u, now));
      WithFolderShape(fs, k, NewRoot(u, now));
      FindRootUnique(WithRoot(fs, u, k, now), u, k);
    }
  }

  /** A second `getOrCreateRootFolder` for the same owner changes nothing
      and returns the folder the first one returned. */
  lemma RootIdempotent(fs: Folders, u: UserId, k: FolderId, k2: FolderId, now: int, now2: int)
    requires FolderTree(fs) && k !in fs
    ensures WithRoot(WithRoot(fs, u, k, now), u, k2, now2) == WithRoot(fs, u, k, now)
    ensures RootId(WithRoot(fs, u, k, now), u, k2) == RootId(fs, u, k)
  {
    RootEnsured(fs, u, k, now);
  }

  /** `getOrCreateRootFolder`. */
  method GetOrCreateRootFolder(db: Db, u: UserId, now: int) returns (root: FolderId)
    requires db.Valid() && u in db.users
    modifies db
    ensures db.Valid() && db.OnlyFoldersChanged()
    ensures root == RootId(old(db.folders), u, old(db.nextFolderId))
    ensures db.folders == WithRoot(old(db.folders), u, old(db.nextFolderId), now)
    ensures FindRoot(db.folders, u) == Some(root)
    ensures old(FindRoot(db.folders, u)).Some? ==> unchanged(db)
    ensures old(FindRoot(db.folders, u)).None? ==> db.nextFolderId == old(db.nextFolderId) + 1
  {
    RootEnsured(db.folders, u, db.nextFolderId, now);
    var found := FindRoot(db.folders, u);
    if found.Some? {
      return found.value;
    }
    root := db.nextFolderId;
    FoldersGrown(db.users, db.folders, WithRoot(db.folders, u, root, now), db.notes, db.tags);
    StoredIssued(db.folders, root, NewRoot(u, now), db.nextUserId);
    db.SetFolders(WithRoot(db.folders, u, root, now), root + 1);
  }

  // ---------------------------------------------------------------------
  // The descendant check of a move
  // ---------------------------------------------------------------------

  /** `assertNotMovingIntoDescendant`: walks up from the new parent and
      fails when it meets the folder being moved. The walk ends because the
      table is acyclic. */
  method AssertNotMovingIntoDescendant(fs: Folders, f: FolderId, np: FolderId) returns (r: Option<Error>)
    requires ParentsStored(fs) && Acyclic(fs) && np in fs
    ensures r == None || r == Some(BadRequest)
    ensures r == Some(BadRequest) <==> AncestorOrSelf(fs, f, np)
  {
    assert Grounded(fs, np);
    ghost var n: nat :| Reaches(fs, Some(np), n);
    var p: Option<FolderId> := Some(np);
    while p.Some?
      invariant p.Some? ==> p.value in fs
      invariant Reaches(fs, p, n)
      invariant AncestorOrSelf(fs, f, np) <==> p.Some? && AncestorOrSelf(fs, f, p.value)
      decreases n
    {
      if p.value == f {
        SelfOnChain(fs, f);
        return Some(BadRequest);
      }
      AncestorStep(fs, f, p.value);
      p := fs[p.value].parent;
      n := n - 1;
    }
    return None;
  }

  // ---------------------------------------------------------------------
  // Create, update, delete
  // ---------------------------------------------------------------------

  /** A new root has no children yet, so no name is taken under it. */
  lemma FreshRootIsEmpty(fs: Folders, u: UserId, k: FolderId, now: int, name: string)
    requires FolderTree(fs) && k !in fs && FindRoot(fs, u).None?
    ensures !NameTaken(WithRoot(fs, u, k, now), u, name, Some(k))
  {
    RootEnsured(fs, u, k, now);
    var fs2 := WithRoot(fs, u, k, now);
    assert fs2[k].subFolders == {};
    assert forall c :: c in fs2 && fs2[c].parent == Some(k) ==> c in fs2[k].subFolders;
  }

  /** The parent a request resolves to: the folder it names, or else the
      owner's root, `k` being the id a new root would get. */
  function ResolvedParent(fs: Folders, u: UserId, pid: Option<FolderId>, k: FolderId): FolderId {
    if pid.Some? then pid.value else RootId(fs, u, k)
  }

  /** The table once the parent is resolved. */
  function ResolvedTable(fs: Folders, u: UserId, pid: Option<FolderId>, k: FolderId, now: int): Folders {
    if pid.Some? then fs else WithRoot(fs, u, k, now)
  }

  /** Saving a folder of a stored user keeps every folder's owner stored. */
  lemma WithFolderOwnersStored(users: Users, fs: Folders, k: FolderId, f: Folder)
    requires FolderOwnersStored(users, fs) && f.owner in users && k !in fs
    requires f.parent.Some? ==> f.parent.value in fs
    ensures FolderOwnersStored(users, WithFolder(fs, k, f))
  {
    var fs2 := WithFolder(fs, k, f);
    WithFolderShape(fs, k, f);
    forall x | x in fs2 ensures fs2[x].owner in users {
      if x != k {
        assert fs2[x].(subFolders := {}) == fs[x].(subFolders := {});
      }
    }
  }

  /** The second half of `createFolder`, once the parent is resolved: the
      sibling-name check, then the new folder joins its parent's subFolders
      and is saved. */
  method StoreUnder(db: Db, u: UserId, name: string, parent: FolderId, now: int) returns (r: Result<FolderId>)
    requires db.Valid() && parent in db.folders && db.folders[parent].owner == u
    modifies db
    ensures db.Valid() && db.OnlyFoldersChanged()
    ensures NameTaken(old(db.folders), u, name, Some(parent)) ==> r == Err(Conflict) && unchanged(db)
    ensures !NameTaken(old(db.folders), u, name, Some(parent)) ==>
      && r == Ok(old(db.nextFolderId)) && r.value !in old(db.folders)
      && db.folders == WithFolder(old(db.folders), r.value, Folder(u, name, Some(parent), false, now, {}))
  {
    if NameTaken(db.folders, u, name, Some(parent)) {
      return Err(Conflict);
    }
    var folder := Folder(u, name, Some(parent), false, now, {});
    var k := db.nextFolderId;
    var fs2 := WithFolder(db.folders, k, folder);
    StoreKeepsTree(db.folders, k, folder);
    WithFolderOwnersStored(db.users, db.folders, k, folder);
    FoldersGrown(db.users, db.folders, fs2, db.notes, db.tags);
    StoredIssued(db.folders, k, folder, db.nextUserId);
    db.SetFolders(fs2, k + 1);
    return Ok(k);
  }

  /** `createFolder`. */
  method CreateFolder(db: Db, req: FolderRequest, now: int) returns (r: Result<FolderId>)
    requires db.Valid()
    modifies db
    ensures db.Valid() && db.OnlyFoldersChanged()
    ensures r.Err? ==> unchanged(db)
    ensures ValidateCreateRequest(req).Some? ==> r == Err(BadRequest)
    ensures ValidateCreateRequest(req).None? ==>
      var u := req.userId.value;
      var name := req.name.value;
      var pid := req.parentFolderId;
      var fs := old(db.folders);
      && (u !in old(db.users) ==> r == Err(NotFound))
      && (u in old(db.users) && pid.Some? && pid.value !in fs ==> r == Err(NotFound))
      && (u in old(db.users) && pid.Some? && pid.value in fs && fs[pid.value].owner != u ==> r == Err(BadRequest))
      && (u in old(db.users) && (pid.Some? ==> pid.value in fs && fs[pid.value].owner == u) ==>
            var fs1 := ResolvedTable(fs, u, pid, old(db.nextFolderId), now);
            var p := ResolvedParent(fs, u, pid, old(db.nextFolderId));
            && (NameTaken(fs1, u, name, Some(p)) ==> r == Err(Conflict))
            && (!NameTaken(fs1, u, name, Some(p)) ==>
                  && r.Ok? && r.value !in fs1
                  && db.folders == WithFolder(fs1, r.value, Folder(u, name, Some(p), false, now, {}))))
  {
    var v := ValidateCreateRequest(req);
    if v.Some? {
      return Err(v.value);
    }
    var u := req.userId.value;
    var name := req.name.value;
    if u !in db.users {
      return Err(NotFound);
    }
    ghost var fs0, k0 := db.folders, db.nextFolderId;
    var parent: FolderId;
    if req.parentFolderId.None? {
      if FindRoot(fs0, u).None? {
        FreshRootIsEmpty(fs0, u, k0, now, name);
      }
      parent := GetOrCreateRootFolder(db, u, now);
    } else {
      parent := req.parentFolderId.value;
      if parent !in db.folders {
        return Err(NotFound);
      }
      if db.folders[parent].owner != u {
        return Err(BadRequest);
      }
    }
    r := StoreUnder(db, u, name, parent, now);
  }

  /** `findByParentFolder_Id(p)`. */
  function ChildrenOf(fs: Folders, p: FolderId): (r: set<FolderId>)
    ensures forall c :: c in r <==> c in fs && fs[c].parent == Some(p)
  {
    set c | c in fs && fs[c].parent == Some(p)
  }

  /** The clash test of `updateFolder`: the name is taken in the scope and
      a sibling other than the folder itself carries it. */
  predicate UpdateClash(fs: Folders, id: FolderId, u: UserId, name: string, np: FolderId) {
    && NameTaken(fs, u, name, Some(np))
    && exists s :: s in ChildrenOf(fs, np) && s != id && fs[s].name == name
  }

  /** The two-step clash test amounts to: another folder under the new
      parent has the name. */
  lemma UpdateClashIffOtherSibling(fs: Folders, id: FolderId, u: UserId, name: string, np: FolderId)
    requires ParentSameOwner(fs) && np in fs && fs[np].owner == u
    ensures UpdateClash(fs, id, u, name, np) <==> OtherSiblingNamed(fs, id, u, name, np)
  {
    if UpdateClash(fs, id, u, name, np) {
      var s :| s in ChildrenOf(fs, np) && s != id && fs[s].name == name;
      assert fs[s].owner == fs[np].owner;
    }
    if OtherSiblingNamed(fs, id, u, name, np) {
      var s :| s in fs && s != id && fs[s].owner == u && fs[s].parent == Some(np) && fs[s].name == name;
      assert s in ChildrenOf(fs, np);
    }
  }

  /** Saving a folder under its current parent with its current name never
      clashes: the check does not count the folder against itself. */
  lemma KeepingNameNeverClashes(fs: Folders, id: FolderId)
    requires FolderTree(fs) && id in fs && fs[id].parent.Some?
    ensures !UpdateClash(fs, id, fs[id].owner, fs[id].name, fs[id].parent.value)
  {
    var np := fs[id].parent.value;
    UpdateClashIffOtherSibling(fs, id, fs[id].owner, fs[id].name, np);
  }

  lemma RelocatedOwners(fs: Folders, id: FolderId, name: string, np: FolderId)
    requires id in fs && np in fs
    ensures forall x :: x in Relocated(fs, id, name, np) ==> Relocated(fs, id, name, np)[x].owner == fs[x].owner
  {
  }

  /** A move that may be made keeps the store consistent and the folder
      table's ids and owners issued. */
  lemma RelocationKeepsStore(users: Users, fs: Folders, notes: Notes, tags: Tags,
                             id: FolderId, name: string, np: FolderId, nf: nat, nu: nat)
    requires Consistent(users, fs, notes, tags) && FoldersIssued(fs, nf, nu)
    requires CanRelocate(fs, id, name, np)
    ensures Consistent(users, Relocated(fs, id, name, np), notes, tags)
    ensures FoldersIssued(Relocated(fs, id, name, np), nf, nu)
  {
    var fs2 := Relocated(fs, id, name, np);
    RelocateKeepsTree(fs, id, name, np);
    RelocatedOwners(fs, id, name, np);
    assert FolderOwnersStored(users, fs2);
    FoldersGrown(users, fs, fs2, notes, tags);
    KeptIssued(fs, fs2, nf, nu);
  }

  /** The second half of `updateFolder`, once the new parent is resolved
      and known to lie outside the folder's subtree: the clash check that
      skips the folder itself, then the move and the rename. */
  method MoveAndRename(db: Db, id: FolderId, u: UserId, name: string, np: FolderId) returns (r: Result<FolderId>)
    requires db.Valid() && id in db.folders && np in db.folders
    requires !db.folders[id].isRoot && db.folders[id].owner == u && db.folders[np].owner == u
    requires !AncestorOrSelf(db.folders, id, np)
    modifies db
    ensures db.Valid() && db.OnlyFoldersChanged()
    ensures OtherSiblingNamed(old(db.folders), id, u, name, np) ==> r == Err(Conflict) && unchanged(db)
    ensures !OtherSiblingNamed(old(db.folders), id, u, name, np) ==>
      r == Ok(id) && db.folders == Relocated(old(db.folders), id, name, np) && db.nextFolderId == old(db.nextFolderId)
  {
    UpdateClashIffOtherSibling(db.folders, id, u, name, np);
    if NameTaken(db.folders, u, name, Some(np)) {
      var siblings := ChildrenOf(db.folders, np);
      var conflict := exists s :: s in siblings && s != id && db.folders[s].name == name;
      if conflict {
        return Err(Conflict);
      }
    }
    var fs := Relocated(db.folders, id, name, np);
    RelocationKeepsStore(db.users, db.folders, db.notes, db.tags, id, name, np, db.nextFolderId, db.nextUserId);
    db.SetFolders(fs, db.nextFolderId);
    return Ok(id);
  }

  /** `updateFolder`. */
  method UpdateFolder(db: Db, id: FolderId, req: FolderRequest, now: int) returns (r: Result<FolderId>)
    requires db.Valid()
    modifies db
    ensures db.Valid() && db.OnlyFoldersChanged()
    ensures r.Err? ==> unchanged(db)
    ensures ValidateCreateRequest(req).Some? ==> r == Err(BadRequest)
    ensures ValidateCreateRequest(req).None? ==>
      var u := req.userId.value;
      var name := req.name.value;
      var pid := req.parentFolderId;
      var fs := old(db.folders);
      && (u !in old(db.users) ==> r == Err(NotFound))
      && (u in old(db.users) && id !in fs ==> r == Err(NotFound))
      && (u in old(db.users) && id in fs && fs[id].isRoot ==> r == Err(BadRequest))
      && (u in old(db.users) && id in fs && !fs[id].isRoot && fs[id].owner != u ==> r == Err(BadRequest))
      && (u in old(db.users) && id in fs && !fs[id].isRoot && fs[id].owner == u ==>
            && (pid.Some? && pid.value !in fs ==> r == Err(NotFound))
            && (pid.Some? && pid.value in fs && fs[pid.value].owner != u ==> r == Err(BadRequest))
            && ((pid.Some? ==> pid.value in fs && fs[pid.value].owner == u) ==>
                  var np := ResolvedParent(fs, u, pid, old(db.nextFolderId));
                  && np in fs
                  && (AncestorOrSelf(fs, id, np) ==> r == Err(BadRequest))
                  && (!AncestorOrSelf(fs, id, np) && OtherSiblingNamed(fs, id, u, name, np) ==> r == Err(Conflict))
                  && (!AncestorOrSelf(fs, id, np) && !OtherSiblingNamed(fs, id, u, name, np) ==>
                        r == Ok(id) && db.folders == Relocated(fs, id, name, np))))
  {
    var v := ValidateCreateRequest(req);
    if v.Some? {
      return Err(v.value);
    }
    var u := req.userId.value;
    var name := req.name.value;
    if u !in db.users {
      return Err(NotFound);
    }
    if id !in db.folders {
      return Err(NotFound);
    }
    var folder := db.folders[id];
    if folder.isRoot {
      return Err(BadRequest);
    }
    if folder.owner != u {
      return Err(BadRequest);
    }
    var np: FolderId;
    if req.parentFolderId.None? {
      // The folder's owner already has a root, so nothing is created here.
      ghost var root := OwnerRoot(db.folders, id);
      FindRootUnique(db.folders, u, root);
      np := GetOrCreateRootFolder(db, u, now);
    } else {
      np := req.parentFolderId.value;
      if np !in db.folders {
        return Err(NotFound);
      }
      if db.folders[np].owner != u {
        return Err(BadRequest);
      }
    }
    var cycle := AssertNotMovingIntoDescendant(db.folders, id, np);
    if cycle.Some? {
      return Err(cycle.value);
    }
    r := MoveAndRename(db, id, u, name, np);
  }

  /** Some note is stored in one of the folders of `d`. */
  predicate HoldsNotes(notes: Notes, d: set<FolderId>) {
    exists n :: n in notes && notes[n].folder in d
  }

  /** The delete cascade removes exactly the folder's subtree and keeps
      the table well formed. */
  lemma DeleteRemovesSubtree(fs: Folders, id: FolderId)
    requires FolderTree(fs) && id in fs
    ensures Without(fs, id, SubtreeIds(fs, id)).Keys == fs.Keys - set y | y in fs && AncestorOrSelf(fs, id, y)
    ensures FolderTree(Without(fs, id, SubtreeIds(fs, id)))
  {
    SubtreeIdsAreDescendants(fs, id);
    RemoveKeepsTree(fs, id);
  }

  /** `deleteFolder`. Notes are not cascaded from folders: a subtree that
      still holds notes violates the notes' folder foreign key, which the
      exception handler reports as 409. */
  method DeleteFolder(db: Db, id: FolderId) returns (r: Option<Error>)
    requires db.Valid()
    modifies db
    ensures db.Valid() && db.OnlyFoldersChanged()
    ensures r.Some? ==> unchanged(db)
    ensures id !in old(db.folders) ==> r == Some(NotFound)
    ensures id in old(db.folders) && old(db.folders)[id].isRoot ==> r == Some(BadRequest)
    ensures id in old(db.folders) && !old(db.folders)[id].isRoot ==>
      var d := SubtreeIds(old(db.folders), id);
      && (HoldsNotes(old(db.notes), d) ==> r == Some(Conflict))
      && (!HoldsNotes(old(db.notes), d) ==> r == None && db.folders == Without(old(db.folders), id, d))
  {
    if id !in db.folders {
      return Some(NotFound);
    }
    if db.folders[id].isRoot {
      return Some(BadRequest);
    }
    var d := SubtreeIds(db.folders, id);
    if HoldsNotes(db.notes, d) {
      return Some(Conflict);
    }
    DeleteRemovesSubtree(db.folders, id);
    var fs := Without(db.folders, id, d);
    WithoutShape(db.folders, id, d);
    KeptIssued(db.folders, fs, db.nextFolderId, db.nextUserId);
    db.SetFolders(fs, db.nextFolderId);
    return None;
  }
}
