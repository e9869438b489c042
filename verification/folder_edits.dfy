/** The three ways the folder service changes the folder table — storing a
    new folder under its parent, moving/renaming a folder, and deleting a
    folder with its subtree — as functions of the table, each proved to keep
    the table a well-formed forest with one root per user. */
module FolderEdits {
  import opened Common
  import opened Entities
  import opened Hierarchy
  import opened Traversal

  /** `existsByUser_IdAndNameAndParentFolder_Id`: the owner already has a
      folder with exactly this name under this parent. */
  predicate NameTaken(fs: Folders, u: UserId, name: string, parent: Option<FolderId>) {
    exists id :: id in fs && fs[id].owner == u && fs[id].name == name && fs[id].parent == parent
  }

  /** `findByUser_IdAndRootTrue`: the owner's root folder, if any. */
  function FindRoot(fs: Folders, u: UserId): (r: Option<FolderId>)
    ensures r.Some? ==> r.value in fs && fs[r.value].isRoot && fs[r.value].owner == u
    ensures r.None? <==> !exists id :: id in fs && fs[id].isRoot && fs[id].owner == u
  {
    FirstRoot(fs, u, Ascending(fs.Keys))
  }

  function FirstRoot(fs: Folders, u: UserId, ids: seq<FolderId>): (r: Option<FolderId>)
    requires forall id :: id in ids ==> id in fs
    ensures r.Some? ==> r.value in fs && fs[r.value].isRoot && fs[r.value].owner == u
    ensures r.None? <==> !exists i :: 0 <= i < |ids| && fs[ids[i]].isRoot && fs[ids[i]].owner == u
  {
    if ids == [] then None
    else if fs[ids[0]].isRoot && fs[ids[0]].owner == u then Some(ids[0])
    else
      var r := FirstRoot(fs, u, ids[1..]);
      assert forall i :: 1 <= i < |ids| ==> ids[i] == ids[1..][i - 1];
      r
  }

  /** In a well-formed table the root found is the owner's only root. */
  lemma FindRootUnique(fs: Folders, u: UserId, r: FolderId)
    requires FolderTree(fs) && r in fs && fs[r].isRoot && fs[r].owner == u
    ensures FindRoot(fs, u) == Some(r)
  {
  }

  // ---------------------------------------------------------------------
  // Storing a new folder
  // ---------------------------------------------------------------------

  /** `parent.getSubFolders().add(folder)` followed by `save(folder)`. */
  function WithFolder(fs: Folders, k: FolderId, f: Folder): (fs2: Folders)
    requires f.parent.Some? ==> f.parent.value in fs
    ensures fs2.Keys == fs.Keys + {k}
  {
    if f.parent.Some? then
      var p := f.parent.value;
      fs[p := fs[p].(subFolders := fs[p].subFolders + {k})][k := f]
    else
      fs[k := f]
  }

  /** The new folder may be stored: a fresh id and no children, and either
      the owner's first root, or a non-root under a folder of the same owner
      whose other children carry different names. */
  ghost predicate CanStore(fs: Folders, k: FolderId, f: Folder) {
    && k !in fs && f.subFolders == {}
    && (if f.isRoot then
          f.parent.None? && f.name == "root" && !exists id :: id in fs && fs[id].isRoot && fs[id].owner == f.owner
        else
          f.parent.Some? && f.parent.value in fs && fs[f.parent.value].owner == f.owner
          && !NameTaken(fs, f.owner, f.name, f.parent))
  }

  /** Every folder of `fs` outside `except` is still stored in `fs2` and
      differs at most in its subFolders. */
  ghost predicate SameRecords(fs: Folders, fs2: Folders, except: set<FolderId>) {
    forall x :: x in fs && x !in except ==> x in fs2 && fs2[x].(subFolders := {}) == fs[x].(subFolders := {})
  }

  ghost predicate StoredShape(fs: Folders, fs2: Folders, k: FolderId, f: Folder) {
    && fs2.Keys == fs.Keys + {k} && fs2[k] == f
    && SameRecords(fs, fs2, {})
    && forall x :: x in fs ==> fs2[x].subFolders == fs[x].subFolders + (if Some(x) == f.parent then {k} else {})
  }

  lemma WithFolderShape(fs: Folders, k: FolderId, f: Folder)
    requires f.parent.Some? ==> f.parent.value in fs
    requires k !in fs
    ensures StoredShape(fs, WithFolder(fs, k, f), k, f)
  {
  }

  lemma StoredStructure(fs: Folders, fs2: Folders, k: FolderId, f: Folder)
    requires FolderTree(fs) && CanStore(fs, k, f) && StoredShape(fs, fs2, k, f)
    ensures ParentsStored(fs2) && ParentSameOwner(fs2) && RootsWellFormed(fs2) && OneRootPerUser(fs2)
    ensures ParentsKept(fs, fs2)
  {
    assert forall x :: x in fs ==>
      (fs2[x].parent == fs[x].parent && fs2[x].owner == fs[x].owner
       && fs2[x].isRoot == fs[x].isRoot && fs2[x].name == fs[x].name);
  }

  lemma StoredSiblings(fs: Folders, fs2: Folders, k: FolderId, f: Folder)
    requires FolderTree(fs) && CanStore(fs, k, f) && StoredShape(fs, fs2, k, f)
    ensures UniqueSiblingNames(fs2)
  {
    assert forall x :: x in fs ==>
      (fs2[x].parent == fs[x].parent && fs2[x].owner == fs[x].owner && fs2[x].name == fs[x].name);
    forall a, b | a in fs2 && b in fs2 && a != b && fs2[a].owner == fs2[b].owner && fs2[a].parent == fs2[b].parent
      ensures fs2[a].name != fs2[b].name
    {
      if a == k {
        if !f.isRoot {
          assert fs[b].parent == f.parent && fs[b].owner == f.owner;
        }
      } else if b == k {
        if !f.isRoot {
          assert fs[a].parent == f.parent && fs[a].owner == f.owner;
        }
      }
    }
  }

  lemma StoredMirror(fs: Folders, fs2: Folders, k: FolderId, f: Folder)
    requires FolderTree(fs) && CanStore(fs, k, f) && StoredShape(fs, fs2, k, f)
    ensures SubFoldersMirrorParents(fs2)
  {
    StoredChildrenHaveParent(fs, fs2, k, f);
    StoredParentsHaveChild(fs, fs2, k, f);
  }

  lemma StoredChildrenHaveParent(fs: Folders, fs2: Folders, k: FolderId, f: Folder)
    requires FolderTree(fs) && CanStore(fs, k, f) && StoredShape(fs, fs2, k, f)
    ensures forall p, c :: p in fs2 && c in fs2[p].subFolders ==> c in fs2 && fs2[c].parent == Some(p)
  {
    forall p, c | p in fs2 && c in fs2[p].subFolders ensures c in fs2 && fs2[c].parent == Some(p) {
      if p != k && c != k {
        assert c in fs[p].subFolders;
        assert fs2[c].(subFolders := {}) == fs[c].(subFolders := {});
      }
    }
  }

  lemma StoredParentsHaveChild(fs: Folders, fs2: Folders, k: FolderId, f: Folder)
    requires FolderTree(fs) && CanStore(fs, k, f) && StoredShape(fs, fs2, k, f)
    ensures forall c :: c in fs2 && fs2[c].parent.Some? && fs2[c].parent.value in fs2 ==>
      c in fs2[fs2[c].parent.value].subFolders
  {
    forall c | c in fs2 && fs2[c].parent.Some? && fs2[c].parent.value in fs2
      ensures c in fs2[fs2[c].parent.value].subFolders
    {
      if c != k {
        assert fs2[c].(subFolders := {}) == fs[c].(subFolders := {});
        var q := fs[c].parent.value;
        assert q in fs && c in fs[q].subFolders;
      }
    }
  }

  lemma StoreKeepsTree(fs: Folders, k: FolderId, f: Folder)
    requires FolderTree(fs) && CanStore(fs, k, f)
    ensures FolderTree(WithFolder(fs, k, f))
  {
    var fs2 := WithFolder(fs, k, f);
    WithFolderShape(fs, k, f);
    StoredStructure(fs, fs2, k, f);
    StoredSiblings(fs, fs2, k, f);
    StoredMirror(fs, fs2, k, f);
    ExtensionPreservesAcyclic(fs, fs2, k);
  }

  // ---------------------------------------------------------------------
  // Moving and renaming a folder
  // ---------------------------------------------------------------------

  /** The effect of a successful `updateFolder`: when the parent changes,
      the folder leaves its old parent's subFolders and joins the new
      parent's; then it takes the new name. */
  function Relocated(fs: Folders, id: FolderId, name: string, np: FolderId): (fs2: Folders)
    requires id in fs && np in fs
    ensures fs2.Keys == fs.Keys
  {
    var f := fs[id];
    if f.parent == Some(np) then
      fs[id := f.(name := name)]
    else
      var fs1 := if f.parent.Some? && f.parent.value in fs
        then fs[f.parent.value := fs[f.parent.value].(subFolders := fs[f.parent.value].subFolders - {id})]
        else fs;
      var fs2 := fs1[np := fs1[np].(subFolders := fs1[np].subFolders + {id})];
      fs2[id := fs2[id].(parent := Some(np), name := name)]
  }

  /** Another folder than `id` under `np`, of owner `u`, has the name. */
  ghost predicate OtherSiblingNamed(fs: Folders, id: FolderId, u: UserId, name: string, np: FolderId) {
    exists s :: s in fs && s != id && fs[s].owner == u && fs[s].parent == Some(np) && fs[s].name == name
  }

  /** A move that may be made: a non-root folder goes under a folder of the
      same owner outside its own subtree, where no other folder has the new
      name. */
  ghost predicate CanRelocate(fs: Folders, id: FolderId, name: string, np: FolderId) {
    && id in fs && np in fs && !fs[id].isRoot
    && fs[np].owner == fs[id].owner
    && !AncestorOrSelf(fs, id, np)
    && !OtherSiblingNamed(fs, id, fs[id].owner, name, np)
  }

  /** The table after a move of `id` under `np` with the new name: only
      that folder's record and the two parents' subFolders differ. */
  ghost predicate MovedShape(fs: Folders, fs2: Folders, id: FolderId, name: string, np: FolderId)
    requires id in fs
  {
    && fs2.Keys == fs.Keys
    && fs2[id] == fs[id].(parent := Some(np), name := name)
    && SameRecords(fs, fs2, {id})
    && forall x :: x in fs && x != id ==>
         fs2[x].subFolders ==
           if x == np then fs[x].subFolders + {id}
           else if Some(x) == fs[id].parent then fs[x].subFolders - {id}
           else fs[x].subFolders
  }

  lemma RelocatedShape(fs: Folders, id: FolderId, name: string, np: FolderId)
    requires id in fs && np in fs && id != np && fs[id].parent != Some(id)
    requires fs[id].parent == Some(np) ==> id in fs[np].subFolders
    ensures MovedShape(fs, Relocated(fs, id, name, np), id, name, np)
  {
  }

  lemma MovedStructure(fs: Folders, fs2: Folders, id: FolderId, name: string, np: FolderId)
    requires ParentsStored(fs) && ParentSameOwner(fs) && RootsWellFormed(fs) && OneRootPerUser(fs)
    requires id in fs && np in fs && !fs[id].isRoot && fs[np].owner == fs[id].owner
    requires MovedShape(fs, fs2, id, name, np)
    ensures ParentsStored(fs2) && ParentSameOwner(fs2) && RootsWellFormed(fs2) && OneRootPerUser(fs2)
    ensures MovedUnder(fs, fs2, id, np)
  {
    forall x | x in fs2
      ensures fs2[x].parent == (if x == id then Some(np) else fs[x].parent)
      ensures fs2[x].owner == fs[x].owner && fs2[x].isRoot == fs[x].isRoot
      ensures x != id ==> fs2[x].name == fs[x].name
    {
      if x != id {
        assert fs2[x].(subFolders := {}) == fs[x].(subFolders := {});
      }
    }
    forall a, b | a in fs2 && b in fs2 && fs2[a].parent == Some(b) ensures fs2[b].owner == fs2[a].owner {
      assert fs[b] == fs[b];
      if a != id {
        assert fs[a].parent == Some(b);
      }
    }
    assert ParentSameOwner(fs2);
  }

  lemma MovedSiblings(fs: Folders, fs2: Folders, id: FolderId, name: string, np: FolderId)
    requires UniqueSiblingNames(fs) && id in fs && !OtherSiblingNamed(fs, id, fs[id].owner, name, np)
    requires MovedShape(fs, fs2, id, name, np)
    ensures UniqueSiblingNames(fs2)
  {
    assert forall x :: x in fs && x != id ==>
      (fs2[x].parent == fs[x].parent && fs2[x].owner == fs[x].owner && fs2[x].name == fs[x].name);
    forall a, b | a in fs2 && b in fs2 && a != b && fs2[a].owner == fs2[b].owner && fs2[a].parent == fs2[b].parent
      ensures fs2[a].name != fs2[b].name
    {
      if a == id {
        assert fs[b].parent == Some(np) && fs[b].owner == fs[id].owner;
      } else if b == id {
        assert fs[a].parent == Some(np) && fs[a].owner == fs[id].owner;
      } else {
        assert fs[a].parent == fs[b].parent && fs[a].owner == fs[b].owner;
      }
    }
  }

  lemma MovedMirror(fs: Folders, fs2: Folders, id: FolderId, name: string, np: FolderId)
    requires SubFoldersMirrorParents(fs) && id in fs && np in fs && np != id && fs[id].parent != Some(id)
    requires MovedShape(fs, fs2, id, name, np)
    ensures SubFoldersMirrorParents(fs2)
  {
    MovedChildrenPointBack(fs, fs2, id, name, np);
    MovedParentsListChildren(fs, fs2, id, name, np);
  }

  lemma MovedChildrenPointBack(fs: Folders, fs2: Folders, id: FolderId, name: string, np: FolderId)
    requires SubFoldersMirrorParents(fs) && id in fs && np in fs && np != id && fs[id].parent != Some(id)
    requires MovedShape(fs, fs2, id, name, np)
    ensures forall p, c {:trigger c in fs2[p].subFolders} :: p in fs2 && c in fs2[p].subFolders ==> c in fs2 && fs2[c].parent == Some(p)
  {
    forall p, c | p in fs2 && c in fs2[p].subFolders ensures c in fs2 && fs2[c].parent == Some(p) {
      MovedChildPointsBack(fs, fs2, id, name, np, p, c);
    }
  }

  lemma MovedChildPointsBack(fs: Folders, fs2: Folders, id: FolderId, name: string, np: FolderId, p: FolderId, c: FolderId)
    requires SubFoldersMirrorParents(fs) && id in fs && np in fs && np != id && fs[id].parent != Some(id)
    requires MovedShape(fs, fs2, id, name, np)
    requires p in fs2 && c in fs2[p].subFolders
    ensures c in fs2 && fs2[c].parent == Some(p)
  {
    if p == id {
      assert c in fs[id].subFolders;
      assert c != id;
      assert fs2[c].(subFolders := {}) == fs[c].(subFolders := {});
    } else if c != id {
      assert c in fs[p].subFolders;
      assert fs2[c].(subFolders := {}) == fs[c].(subFolders := {});
    }
  }

  lemma MovedParentsListChildren(fs: Folders, fs2: Folders, id: FolderId, name: string, np: FolderId)
    requires SubFoldersMirrorParents(fs) && id in fs && np in fs && np != id && fs[id].parent != Some(id)
    requires MovedShape(fs, fs2, id, name, np)
    ensures forall c, p {:trigger fs2[c], fs2[p]} :: c in fs2 && p in fs2 && fs2[c].parent == Some(p) ==> c in fs2[p].subFolders
  {
    forall c, p | c in fs2 && p in fs2 && fs2[c].parent == Some(p) ensures c in fs2[p].subFolders {
      if c != id {
        assert fs2[c].(subFolders := {}) == fs[c].(subFolders := {});
        assert fs[c] == fs[c] && fs[p] == fs[p];
        assert c in fs[p].subFolders;
      }
    }
  }

  lemma RelocateKeepsTree(fs: Folders, id: FolderId, name: string, np: FolderId)
    requires FolderTree(fs) && CanRelocate(fs, id, name, np)
    ensures FolderTree(Relocated(fs, id, name, np))
  {
    var fs2 := Relocated(fs, id, name, np);
    SelfOnChain(fs, id);
    ParentNotDescendant(fs, id);
    assert fs[id].parent.Some? && fs[fs[id].parent.value] == fs[fs[id].parent.value];
    RelocatedShape(fs, id, name, np);
    MovedStructure(fs, fs2, id, name, np);
    MovedSiblings(fs, fs2, id, name, np);
    MovedMirror(fs, fs2, id, name, np);
    MovePreservesAcyclic(fs, fs2, id, np);
  }

  // ---------------------------------------------------------------------
  // Deleting a folder with its subtree
  // ---------------------------------------------------------------------

  /** The ids the delete cascade removes: the walk down `subFolders` from
      `id`. */
  function SubtreeIds(fs: Folders, id: FolderId): (d: set<FolderId>)
    requires id in fs
    ensures id in d && d <= fs.Keys
  {
    WholeTableUnvisited(fs, id);
    SubtreeMembersStored(fs, id, fs.Keys);
    Members(Subtree(fs, id, fs.Keys))
  }

  lemma {:induction false} SubtreeMembersStored(fs: Folders, x: FolderId, budget: set<FolderId>)
    requires x in fs && x in budget
    ensures x in Members(Subtree(fs, x, budget)) && Members(Subtree(fs, x, budget)) <= fs.Keys
    decreases |budget|, 0, 0
  {
    var rest := budget - {x};
    var cs := ChildrenByName(fs, x, rest);
    assert forall c :: c in cs ==> c in fs && c in rest;
    ForestStored(fs, cs, rest);
    var t := Subtree(fs, x, budget);
    MembersSplit(t);
    assert t.children == Forest(fs, cs, rest);
  }

  lemma {:induction false} ForestStored(fs: Folders, cs: seq<FolderId>, budget: set<FolderId>)
    requires forall c :: c in cs ==> c in fs && c in budget
    ensures ForestMembers(Forest(fs, cs, budget)) <= fs.Keys
    decreases |budget|, 1, |cs|
  {
    if cs != [] {
      var ts := Forest(fs, cs, budget);
      ForestSplit(ts);
      assert ts[1..] == Forest(fs, cs[1..], budget);
      SubtreeMembersStored(fs, cs[0], budget);
      ForestStored(fs, cs[1..], budget);
    }
  }

  /** The cascade removes exactly the folder and its descendants. */
  lemma SubtreeIdsAreDescendants(fs: Folders, id: FolderId)
    requires FolderTree(fs) && id in fs
    ensures SubtreeIds(fs, id) == set y | y in fs && AncestorOrSelf(fs, id, y)
  {
    WholeTableUnvisited(fs, id);
    SubtreeExact(fs, id, fs.Keys);
  }

  /** `folderRepository.delete(folder)`: the folders in `d` disappear and the
      folder leaves its parent's subFolders. */
  function Without(fs: Folders, id: FolderId, d: set<FolderId>): (fs2: Folders)
    requires id in fs
    ensures fs2.Keys == fs.Keys - d
  {
    var p := fs[id].parent;
    var fs1 := if p.Some? && p.value in fs
      then fs[p.value := fs[p.value].(subFolders := fs[p.value].subFolders - {id})]
      else fs;
    map x | x in fs1 && x !in d :: fs1[x]
  }

  /** The table after the cascade removed `d` below `id`: the survivors keep
      their records, and only the parent of `id` loses a child. */
  ghost predicate RemovedShape(fs: Folders, fs2: Folders, id: FolderId, d: set<FolderId>)
    requires id in fs
  {
    && fs2.Keys == fs.Keys - d
    && SameRecords(fs2, fs, {})
    && forall x :: x in fs2 ==>
         fs2[x].subFolders == fs[x].subFolders - (if Some(x) == fs[id].parent then {id} else {})
  }

  lemma WithoutShape(fs: Folders, id: FolderId, d: set<FolderId>)
    requires id in fs
    ensures RemovedShape(fs, Without(fs, id, d), id, d)
  {
  }

  /** The removed set is closed downwards: a survivor's parent survives. */
  lemma RemovedParents(fs: Folders, fs2: Folders, id: FolderId, d: set<FolderId>)
    requires ParentsStored(fs) && id in fs
    requires d == set y | y in fs && AncestorOrSelf(fs, id, y)
    requires RemovedShape(fs, fs2, id, d)
    ensures ParentsStored(fs2)
    ensures forall x :: x in fs2 ==> fs2[x].parent == fs[x].parent && !AncestorOrSelf(fs, id, x)
  {
    forall x | x in fs2
      ensures fs2[x].parent == fs[x].parent && !AncestorOrSelf(fs, id, x)
      ensures fs2[x].parent.Some? ==> fs2[x].parent.value in fs2
    {
      assert fs[x].(subFolders := {}) == fs2[x].(subFolders := {});
      if fs[x].parent.Some? {
        assert x != id by { SelfOnChain(fs, id); }
        AncestorStep(fs, id, x);
      }
    }
  }

  lemma RemovedStructure(fs: Folders, fs2: Folders, id: FolderId, d: set<FolderId>)
    requires ParentSameOwner(fs) && RootsWellFormed(fs) && OneRootPerUser(fs) && UniqueSiblingNames(fs)
    requires id in fs && RemovedShape(fs, fs2, id, d)
    ensures ParentSameOwner(fs2) && RootsWellFormed(fs2) && OneRootPerUser(fs2) && UniqueSiblingNames(fs2)
  {
    assert forall x :: x in fs2 ==>
      (x in fs && fs2[x].parent == fs[x].parent && fs2[x].owner == fs[x].owner
       && fs2[x].isRoot == fs[x].isRoot && fs2[x].name == fs[x].name);
  }

  lemma RemovedMirror(fs: Folders, fs2: Folders, id: FolderId, d: set<FolderId>)
    requires SubFoldersMirrorParents(fs) && id in fs && id in d
    requires d == set y | y in fs && AncestorOrSelf(fs, id, y)
    requires RemovedShape(fs, fs2, id, d)
    requires forall x :: x in fs2 ==> fs2[x].parent == fs[x].parent
    ensures SubFoldersMirrorParents(fs2)
  {
    forall q, c | q in fs2 && c in fs2[q].subFolders ensures c in fs2 && fs2[c].parent == Some(q) {
      assert c in fs[q].subFolders && c in fs && fs[c].parent == Some(q);
      assert q !in d;
      if c != id {
        AncestorStep(fs, id, c);
      }
    }
    forall c, q | c in fs2 && q in fs2 && fs2[c].parent == Some(q) ensures c in fs2[q].subFolders {
      assert c in fs[q].subFolders;
    }
  }

  lemma RemoveKeepsTree(fs: Folders, id: FolderId)
    requires FolderTree(fs) && id in fs
    ensures FolderTree(Without(fs, id, SubtreeIds(fs, id)))
  {
    var d := SubtreeIds(fs, id);
    SubtreeIdsAreDescendants(fs, id);
    var fs2 := Without(fs, id, d);
    WithoutShape(fs, id, d);
    RemovedParents(fs, fs2, id, d);
    RemovedStructure(fs, fs2, id, d);
    RemovedMirror(fs, fs2, id, d);
    RemovalPreservesAcyclic(fs, fs2, id);
  }
}
