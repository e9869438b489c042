/** The folder hierarchy as a table of folders: parent chains, the shape
    invariants the folder service keeps, why a move that passes the
    descendant check keeps the hierarchy acyclic, and the recursive,
    name-ordered walk behind the folder views and the delete cascade. */
module Hierarchy {
  import opened Common
  import opened Entities
  import opened Sorting

  type Folders = map<FolderId, Folder>

  // ---------------------------------------------------------------------
  // Parent chains
  // ---------------------------------------------------------------------

  /** Following `getParentFolder()` from `p` reaches null within `n` steps,
      passing only through stored folders. */
  predicate Reaches(fs: Folders, p: Option<FolderId>, n: nat)
    decreases n
  {
    match p
    case None => true
    case Some(id) => n > 0 && id in fs && Reaches(fs, fs[id].parent, n - 1)
  }

  /** Folder `a` is met within `n` steps of the walk that starts at `p`
      (`p` itself included). */
  predicate OnChain(fs: Folders, p: Option<FolderId>, a: FolderId, n: nat)
    decreases n
  {
    match p
    case None => false
    case Some(id) => n > 0 && id in fs && (id == a || OnChain(fs, fs[id].parent, a, n - 1))
  }

  /** The walk up from `id` ends at a folder without parent. */
  ghost predicate Grounded(fs: Folders, id: FolderId) {
    exists n: nat :: Reaches(fs, Some(id), n)
  }

  /** `a` is `x` itself or one of its ancestors; equivalently, `x` lies in
      the subtree rooted at `a`. */
  ghost predicate AncestorOrSelf(fs: Folders, a: FolderId, x: FolderId) {
    exists n: nat :: OnChain(fs, Some(x), a, n)
  }

  // ---------------------------------------------------------------------
  // Shape of a well-formed folder table
  // ---------------------------------------------------------------------

  ghost predicate ParentsStored(fs: Folders) {
    forall id {:trigger fs[id]} :: id in fs && fs[id].parent.Some? ==> fs[id].parent.value in fs
  }

  ghost predicate ParentSameOwner(fs: Folders) {
    forall id, p {:trigger fs[id], fs[p]} :: id in fs && p in fs && fs[id].parent == Some(p) ==>
      fs[p].owner == fs[id].owner
  }

  /** Only roots lack a parent, and every root is called "root". */
  ghost predicate RootsWellFormed(fs: Folders) {
    forall id {:trigger fs[id]} :: id in fs ==>
      (fs[id].isRoot <==> fs[id].parent.None?) && (fs[id].isRoot ==> fs[id].name == "root")
  }

  ghost predicate OneRootPerUser(fs: Folders) {
    forall a, b {:trigger fs[a], fs[b]} :: a in fs && b in fs && fs[a].isRoot && fs[b].isRoot && fs[a].owner == fs[b].owner ==> a == b
  }

  /** Siblings of one owner carry different names. */
  ghost predicate UniqueSiblingNames(fs: Folders) {
    forall a, b {:trigger fs[a], fs[b]} :: a in fs && b in fs && a != b && fs[a].owner == fs[b].owner && fs[a].parent == fs[b].parent ==>
      fs[a].name != fs[b].name
  }

  /** `subFolders` is exactly the inverse of the parent link. */
  ghost predicate SubFoldersMirrorParents(fs: Folders) {
    && (forall p, c {:trigger c in fs[p].subFolders} :: p in fs && c in fs[p].subFolders ==> c in fs && fs[c].parent == Some(p))
    && (forall c, p {:trigger fs[c], fs[p]} :: c in fs && p in fs && fs[c].parent == Some(p) ==> c in fs[p].subFolders)
  }

  ghost predicate Acyclic(fs: Folders) {
    forall id {:trigger Grounded(fs, id)} :: id in fs ==> Grounded(fs, id)
  }

  ghost predicate FolderTree(fs: Folders) {
    && ParentsStored(fs)
    && ParentSameOwner(fs)
    && RootsWellFormed(fs)
    && OneRootPerUser(fs)
    && UniqueSiblingNames(fs)
    && SubFoldersMirrorParents(fs)
    && Acyclic(fs)
  }

  // ---------------------------------------------------------------------
  // Facts about chains
  // ---------------------------------------------------------------------

  lemma {:induction false} ReachesMono(fs: Folders, p: Option<FolderId>, n: nat, m: nat)
    requires Reaches(fs, p, n) && n <= m
    ensures Reaches(fs, p, m)
    decreases n
  {
    if p.Some? {
      ReachesMono(fs, fs[p.value].parent, n - 1, m - 1);
    }
  }

  /** Every folder is its own ancestor-or-self. */
  lemma SelfOnChain(fs: Folders, x: FolderId)
    requires x in fs
    ensures AncestorOrSelf(fs, x, x)
  {
    assert OnChain(fs, Some(x), x, 1);
  }

  /** For `x` other than `a`: `a` is an ancestor-or-self of `x` exactly when
      `x` has a parent of which `a` is an ancestor-or-self. This is the step
      of the walk in the descendant check. */
  lemma AncestorStep(fs: Folders, a: FolderId, x: FolderId)
    requires x in fs && x != a
    ensures AncestorOrSelf(fs, a, x) <==>
      fs[x].parent.Some? && AncestorOrSelf(fs, a, fs[x].parent.value)
  {
    if AncestorOrSelf(fs, a, x) {
      var n: nat :| OnChain(fs, Some(x), a, n);
      assert OnChain(fs, fs[x].parent, a, n - 1);
    }
    if fs[x].parent.Some? && AncestorOrSelf(fs, a, fs[x].parent.value) {
      var n: nat :| OnChain(fs, Some(fs[x].parent.value), a, n);
      assert OnChain(fs, Some(x), a, n + 1);
    }
  }

  /** A chain that starts at a grounded place and passes `c` shows that `c`
      is grounded as well. */
  lemma {:induction false} ReachesFromChain(fs: Folders, p: Option<FolderId>, c: FolderId, n: nat, m: nat)
    requires Reaches(fs, p, n) && OnChain(fs, p, c, m)
    ensures Reaches(fs, Some(c), n)
    decreases m
  {
    if p.value != c {
      ReachesFromChain(fs, fs[p.value].parent, c, n - 1, m - 1);
      ReachesMono(fs, Some(c), n - 1, n);
    }
  }

  /** The walk is a chain of the same owner. */
  lemma {:induction false} ChainSameOwner(fs: Folders, x: FolderId, a: FolderId, n: nat)
    requires ParentsStored(fs) && ParentSameOwner(fs)
    requires x in fs && OnChain(fs, Some(x), a, n)
    ensures a in fs && fs[a].owner == fs[x].owner
    decreases n
  {
    if x != a {
      ChainSameOwner(fs, fs[x].parent.value, a, n - 1);
    }
  }

  /** If `c`'s parent is `p` then every ancestor-or-self of `p` is one of `c`
      too; this is what lets a walk descend one level. */
  lemma {:induction false} ChainThroughParent(fs: Folders, y: FolderId, c: FolderId, p: FolderId, n: nat)
    requires p in fs && c in fs && fs[c].parent == Some(p)
    requires OnChain(fs, Some(y), c, n)
    ensures OnChain(fs, Some(y), p, n + 1)
    decreases n
  {
    if y != c {
      ChainThroughParent(fs, fs[y].parent.value, c, p, n - 1);
    } else {
      assert OnChain(fs, Some(p), p, n);
    }
  }

  /** Past a folder `c` met on a walk that ends within `n` steps, the walk
      from `c`'s parent ends within `n - 1` steps. */
  lemma {:induction false} ReachesPast(fs: Folders, p: Option<FolderId>, c: FolderId, n: nat, m: nat)
    requires Reaches(fs, p, n) && OnChain(fs, p, c, m)
    ensures n > 0 && c in fs && Reaches(fs, fs[c].parent, n - 1)
    decreases m
  {
    if p.value != c {
      ReachesPast(fs, fs[p.value].parent, c, n - 1, m - 1);
      ReachesMono(fs, fs[c].parent, n - 2, n - 1);
    }
  }

  lemma {:induction false} NoCycleThrough(fs: Folders, x: FolderId, c: FolderId, n: nat, m: nat)
    requires c in fs && fs[c].parent == Some(x)
    ensures Reaches(fs, Some(x), n) ==> !OnChain(fs, Some(x), c, m)
    decreases n
  {
    if n > 0 {
      NoCycleThrough(fs, x, c, n - 1, m);
      if Reaches(fs, Some(x), n) && OnChain(fs, Some(x), c, m) {
        ReachesPast(fs, Some(x), c, n, m);
      }
    }
  }

  /** In an acyclic table a folder is never an ancestor-or-self of its own
      parent: there are no cycles. */
  lemma ParentNotDescendant(fs: Folders, c: FolderId)
    requires Acyclic(fs) && c in fs && fs[c].parent.Some?
    ensures !AncestorOrSelf(fs, c, fs[c].parent.value)
  {
    var x := fs[c].parent.value;
    assert Grounded(fs, c);
    var n: nat :| Reaches(fs, Some(c), n);
    forall m: nat ensures !OnChain(fs, Some(x), c, m) {
      NoCycleThrough(fs, x, c, n - 1, m);
    }
  }

  /** The walk up from any folder ends at a root of the same owner. */
  lemma {:induction false} RootAbove(fs: Folders, x: FolderId, n: nat) returns (r: FolderId)
    requires ParentsStored(fs) && ParentSameOwner(fs) && RootsWellFormed(fs)
    requires x in fs && Reaches(fs, Some(x), n)
    ensures r in fs && fs[r].isRoot && fs[r].owner == fs[x].owner && OnChain(fs, Some(x), r, n)
    decreases n
  {
    if fs[x].parent.None? {
      r := x;
    } else {
      r := RootAbove(fs, fs[x].parent.value, n - 1);
    }
  }

  /** In a well-formed table every owner of a folder owns a root, and the
      folders in the subtree of that root are exactly the owner's folders. */
  lemma OwnerRoot(fs: Folders, x: FolderId) returns (r: FolderId)
    requires FolderTree(fs) && x in fs
    ensures r in fs && fs[r].isRoot && fs[r].owner == fs[x].owner && AncestorOrSelf(fs, r, x)
  {
    assert Grounded(fs, x);
    var n: nat :| Reaches(fs, Some(x), n);
    r := RootAbove(fs, x, n);
  }

  lemma RootSubtreeIsOwnerFolders(fs: Folders, r: FolderId, y: FolderId)
    requires FolderTree(fs) && r in fs && fs[r].isRoot && y in fs
    ensures AncestorOrSelf(fs, r, y) <==> fs[y].owner == fs[r].owner
  {
    if AncestorOrSelf(fs, r, y) {
      var n: nat :| OnChain(fs, Some(y), r, n);
      ChainSameOwner(fs, y, r, n);
    }
    if fs[y].owner == fs[r].owner {
      var r2 := OwnerRoot(fs, y);
    }
  }

  // ---------------------------------------------------------------------
  // Changes to the table that keep it acyclic
  // ---------------------------------------------------------------------

  /** Every folder of `fs` is still stored in `fs2` with the same parent. */
  ghost predicate ParentsKept(fs: Folders, fs2: Folders) {
    forall id :: id in fs ==> id in fs2 && fs2[id].parent == fs[id].parent
  }

  lemma {:induction false} ReachesKept(fs: Folders, fs2: Folders, p: Option<FolderId>, n: nat)
    requires ParentsKept(fs, fs2) && Reaches(fs, p, n)
    ensures Reaches(fs2, p, n)
    decreases n
  {
    if p.Some? {
      ReachesKept(fs, fs2, fs[p.value].parent, n - 1);
    }
  }

  /** `fs2` is `fs` with folder `f` re-parented under `np` and every other
      parent link untouched. */
  ghost predicate MovedUnder(fs: Folders, fs2: Folders, f: FolderId, np: FolderId) {
    && fs2.Keys == fs.Keys && f in fs
    && fs2[f].parent == Some(np)
    && forall id :: id in fs && id != f ==> fs2[id].parent == fs[id].parent
  }

  /** A walk that never meets the moved folder is not affected by the move. */
  lemma {:induction false} MoveAvoiding(fs: Folders, fs2: Folders, f: FolderId, np: FolderId, p: Option<FolderId>, n: nat)
    requires MovedUnder(fs, fs2, f, np)
    requires Reaches(fs, p, n) && !OnChain(fs, p, f, n)
    ensures Reaches(fs2, p, n)
    decreases n
  {
    if p.Some? {
      MoveAvoiding(fs, fs2, f, np, fs[p.value].parent, n - 1);
    }
  }

  /** Once the new parent is grounded after the move, every walk is: a walk
      that meets the moved folder continues from its new parent. */
  lemma {:induction false} MoveReaches(fs: Folders, fs2: Folders, f: FolderId, np: FolderId, p: Option<FolderId>, n: nat, m: nat)
    requires MovedUnder(fs, fs2, f, np)
    requires Reaches(fs, p, n) && Reaches(fs2, Some(np), m)
    ensures Reaches(fs2, p, n + m + 1)
    decreases n
  {
    if p.Some? {
      if p.value == f {
        ReachesMono(fs2, Some(np), m, n + m);
      } else {
        MoveReaches(fs, fs2, f, np, fs[p.value].parent, n - 1, m);
      }
    }
  }

  /** A move under a folder that is not in the moved folder's subtree keeps
      the table acyclic. */
  lemma MovePreservesAcyclic(fs: Folders, fs2: Folders, f: FolderId, np: FolderId)
    requires MovedUnder(fs, fs2, f, np) && Acyclic(fs) && np in fs
    requires !AncestorOrSelf(fs, f, np)
    ensures Acyclic(fs2)
  {
    assert Grounded(fs, np);
    var m: nat :| Reaches(fs, Some(np), m);
    assert !OnChain(fs, Some(np), f, m);
    MoveAvoiding(fs, fs2, f, np, Some(np), m);
    forall id | id in fs2 ensures Grounded(fs2, id) {
      assert Grounded(fs, id);
      var n: nat :| Reaches(fs, Some(id), n);
      MoveReaches(fs, fs2, f, np, Some(id), n, m);
    }
  }

  /** Removing the subtree of `f` keeps the walks of the folders outside it. */
  lemma {:induction false} RemovalKeepsReaches(fs: Folders, fs2: Folders, f: FolderId, p: Option<FolderId>, n: nat)
    requires forall id :: id in fs && !AncestorOrSelf(fs, f, id) ==> id in fs2 && fs2[id].parent == fs[id].parent
    requires Reaches(fs, p, n) && (p.Some? ==> !AncestorOrSelf(fs, f, p.value))
    ensures Reaches(fs2, p, n)
    decreases n
  {
    if p.Some? {
      var y := p.value;
      SelfOnChain(fs, y);
      AncestorStep(fs, f, y);
      RemovalKeepsReaches(fs, fs2, f, fs[y].parent, n - 1);
    }
  }

  lemma RemovalPreservesAcyclic(fs: Folders, fs2: Folders, f: FolderId)
    requires Acyclic(fs)
    requires forall id :: id in fs2 ==> id in fs && !AncestorOrSelf(fs, f, id) && fs2[id].parent == fs[id].parent
    requires forall id :: id in fs && !AncestorOrSelf(fs, f, id) ==> id in fs2
    ensures Acyclic(fs2)
  {
    forall id | id in fs2 ensures Grounded(fs2, id) {
      assert Grounded(fs, id);
      var n: nat :| Reaches(fs, Some(id), n);
      RemovalKeepsReaches(fs, fs2, f, Some(id), n);
    }
  }

  lemma ExtensionPreservesAcyclic(fs: Folders, fs2: Folders, k: FolderId)
    requires Acyclic(fs) && ParentsKept(fs, fs2) && fs2.Keys == fs.Keys + {k}
    requires k !in fs && (fs2[k].parent.Some? ==> fs2[k].parent.value in fs)
    ensures Acyclic(fs2)
  {
    forall id | id in fs2 ensures Grounded(fs2, id) {
      if id in fs {
        assert Grounded(fs, id);
        var n: nat :| Reaches(fs, Some(id), n);
        ReachesKept(fs, fs2, Some(id), n);
      } else if fs2[k].parent.Some? {
        assert Grounded(fs, fs2[k].parent.value);
        var n: nat :| Reaches(fs, fs2[k].parent, n);
        ReachesKept(fs, fs2, fs2[k].parent, n);
        assert Reaches(fs2, Some(k), n + 1);
      } else {
        assert Reaches(fs2, Some(k), 1);
      }
    }
  }
}
