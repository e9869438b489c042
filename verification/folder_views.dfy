/** The read side of the folder service: one folder with its nested
    sub-folders (`getFolder`), the children of a folder (`listChildren`),
    the children of the owner's root (`getUserRootFolders`) and the owner's
    whole tree (`getFolderTree`). Each view is built from the walk of
    module Traversal; in a well-formed table it shows exactly the folders
    below its starting point, each once, in ascending name order per level. */
module FolderViews {
  import opened Common
  import opened Entities
  import opened Hierarchy
  import opened Traversal
  import opened FolderEdits
  import opened FolderService

  /** The folders in the subtree of `x`, `x` included. */
  ghost function Descendants(fs: Folders, x: FolderId): set<FolderId> {
    set y | y in fs && AncestorOrSelf(fs, x, y)
  }

  /** `toDto(folder)`: the folder's fields and, recursively, its
      sub-folders sorted by name. */
  function ToDto(fs: Folders, id: FolderId): (t: FolderNode)
    requires id in fs
    ensures t.id == id && t.folder == fs[id]
    ensures LevelsOrdered(t)
  {
    SubtreeLevelsOrdered(fs, id, fs.Keys);
    Subtree(fs, id, fs.Keys)
  }

  /** In a well-formed table the nested DTO of a folder holds exactly the
      folders of its subtree. */
  lemma ToDtoShowsSubtree(fs: Folders, id: FolderId)
    requires FolderTree(fs) && id in fs
    ensures Members(ToDto(fs, id)) == Descendants(fs, id)
  {
    WholeTableUnvisited(fs, id);
    SubtreeExact(fs, id, fs.Keys);
  }

  /** The ids of a list of DTOs, in order. */
  function Ids(ts: seq<FolderNode>): (ids: seq<FolderId>)
    ensures |ids| == |ts| && forall i :: 0 <= i < |ts| ==> ids[i] == ts[i].id
  {
    if ts == [] then [] else [ts[0].id] + Ids(ts[1..])
  }

  /** The DTOs of a list of folders, in the list's order. */
  function ToDtos(fs: Folders, cs: seq<FolderId>): (ts: seq<FolderNode>)
    requires forall c :: c in cs ==> c in fs
    ensures |ts| == |cs|
    ensures forall i :: 0 <= i < |cs| ==> ts[i] == ToDto(fs, cs[i])
  {
    if cs == [] then [] else [ToDto(fs, cs[0])] + ToDtos(fs, cs[1..])
  }

  /** The DTOs of a list of folders carry the list's ids. */
  lemma IdsOfDtos(fs: Folders, cs: seq<FolderId>)
    requires forall c :: c in cs ==> c in fs
    ensures Ids(ToDtos(fs, cs)) == cs
  {
    var ids := Ids(ToDtos(fs, cs));
    assert forall i :: 0 <= i < |cs| ==> ids[i] == cs[i];
  }

  /** `getFolder`. */
  function GetFolder(fs: Folders, id: FolderId): (r: Result<FolderNode>)
    ensures r.Err? <==> id !in fs
    ensures r.Err? ==> r.error == NotFound
    ensures r.Ok? ==> r.value.id == id && r.value.folder == fs[id] && LevelsOrdered(r.value)
    ensures r.Ok? ==> r.value == ToDto(fs, id)
  {
    if id !in fs then Err(NotFound) else Ok(ToDto(fs, id))
  }

  /** In a well-formed table the folder `getFolder` returns holds exactly
      the folders of its subtree, each level in name order. */
  lemma GetFolderShowsSubtree(fs: Folders, id: FolderId)
    requires FolderTree(fs) && id in fs
    ensures GetFolder(fs, id).Ok?
    ensures Members(GetFolder(fs, id).value) == Descendants(fs, id)
  {
    ToDtoShowsSubtree(fs, id);
  }

  /** `listChildren(p)`: NotFound for an unknown parent, otherwise the
      full DTO of every folder whose parent is `p`, each once, sorted by
      name. */
  function ListChildren(fs: Folders, p: FolderId): (r: Result<seq<FolderNode>>)
    ensures r.Err? <==> p !in fs
    ensures r.Err? ==> r.error == NotFound
    ensures r.Ok? ==>
      && (forall c :: c in Ids(r.value) <==> c in fs && fs[c].parent == Some(p))
      && Distinct(Ids(r.value))
      && NameOrdered(fs, Ids(r.value))
      && r.value == ToDtos(fs, Ids(r.value))
  {
    if p !in fs then Err(NotFound)
    else
      var cs := SortedByName(fs, ChildrenOf(fs, p));
      IdsOfDtos(fs, cs);
      Ok(ToDtos(fs, cs))
  }

  /** `getUserRootFolders(u)`: NotFound when the owner has no root,
      otherwise the full DTOs of the root's children, each once, in
      ascending id order (the query does not sort them). */
  function GetUserRootFolders(fs: Folders, u: UserId): (r: Result<seq<FolderNode>>)
    ensures r.Err? <==> FindRoot(fs, u).None?
    ensures r.Err? ==> r.error == NotFound
    ensures r.Ok? ==>
      && (forall c :: c in Ids(r.value) <==> c in fs && fs[c].parent == Some(FindRoot(fs, u).value))
      && (forall i, j :: 0 <= i < j < |r.value| ==> r.value[i].id < r.value[j].id)
      && r.value == ToDtos(fs, Ids(r.value))
  {
    var root := FindRoot(fs, u);
    if root.None? then Err(NotFound)
    else
      var cs := Ascending(ChildrenOf(fs, root.value));
      IdsOfDtos(fs, cs);
      Ok(ToDtos(fs, cs))
  }

  // ---------------------------------------------------------------------
  // The tree view
  // ---------------------------------------------------------------------

  /** `FolderTreeResponseDto`: id, name and the children. */
  datatype TreeView = TreeView(id: FolderId, name: string, children: seq<TreeView>)

  /** `toTreeDto`: the walk with only ids and names kept. */
  function TreeOf(t: FolderNode): (v: TreeView)
    ensures v.id == t.id && v.name == t.folder.name
    decreases t, 1
  {
    TreeView(t.id, t.folder.name, TreesOf(t.children))
  }

  function TreesOf(ts: seq<FolderNode>): (vs: seq<TreeView>)
    ensures |vs| == |ts|
    ensures forall i :: 0 <= i < |ts| ==> vs[i] == TreeOf(ts[i])
    decreases ts, 0
  {
    if ts == [] then [] else [TreeOf(ts[0])] + TreesOf(ts[1..])
  }

  /** The ids a tree view shows. */
  function TreeIds(v: TreeView): set<FolderId>
    decreases v, 1
  {
    {v.id} + ForestIds(v.children)
  }

  function ForestIds(vs: seq<TreeView>): set<FolderId>
    decreases vs, 0
  {
    if vs == [] then {} else TreeIds(vs[0]) + ForestIds(vs[1..])
  }

  /** At every level of a tree view the children are in ascending name order. */
  predicate TreeOrdered(v: TreeView) {
    && (forall i, j :: 0 <= i < j < |v.children| ==> StrLe(v.children[i].name, v.children[j].name))
    && (forall k :: 0 <= k < |v.children| ==> TreeOrdered(v.children[k]))
  }

  /** Dropping the other fields keeps the ids and the order of the walk. */
  lemma {:induction false} TreeOfKeepsWalk(t: FolderNode)
    ensures TreeIds(TreeOf(t)) == Members(t)
    ensures LevelsOrdered(t) ==> TreeOrdered(TreeOf(t))
    decreases t, 1
  {
    TreesOfKeepWalk(t.children);
    var v := TreeOf(t);
    if LevelsOrdered(t) {
      forall k | 0 <= k < |v.children| ensures TreeOrdered(v.children[k]) {
        TreeOfKeepsWalk(t.children[k]);
      }
    }
  }

  lemma {:induction false} TreesOfKeepWalk(ts: seq<FolderNode>)
    ensures ForestIds(TreesOf(ts)) == ForestMembers(ts)
    decreases ts, 0
  {
    if ts != [] {
      TreeOfKeepsWalk(ts[0]);
      TreesOfKeepWalk(ts[1..]);
      assert TreesOf(ts)[1..] == TreesOf(ts[1..]);
    }
  }

  /** `getFolderTree(u)`: NotFound when the owner has no root, otherwise
      the root, labelled "root", over the tree views of its children sorted
      by name. */
  function GetFolderTree(fs: Folders, u: UserId): (r: Result<TreeView>)
    ensures r.Err? <==> FindRoot(fs, u).None?
    ensures r.Err? ==> r.error == NotFound
    ensures r.Ok? ==> r.value.id == FindRoot(fs, u).value && r.value.name == "root" && TreeOrdered(r.value)
  {
    var root := FindRoot(fs, u);
    if root.None? then Err(NotFound)
    else
      var t := ToDto(fs, root.value);
      TreeOfKeepsWalk(t);
      Ok(TreeView(root.value, "root", TreesOf(t.children)))
  }

  /** The subtree of an owner's root holds exactly the owner's folders. */
  lemma RootDescendantsAreOwners(fs: Folders, root: FolderId)
    requires FolderTree(fs) && root in fs && fs[root].isRoot
    ensures Descendants(fs, root) == set y | y in fs && fs[y].owner == fs[root].owner
  {
    forall y | y in fs ensures AncestorOrSelf(fs, root, y) <==> fs[y].owner == fs[root].owner {
      RootSubtreeIsOwnerFolders(fs, root, y);
    }
  }

  /** In a well-formed table the tree of an owner shows exactly the
      owner's folders. */
  lemma FolderTreeIsOwnersFolders(fs: Folders, u: UserId)
    requires FolderTree(fs) && GetFolderTree(fs, u).Ok?
    ensures TreeIds(GetFolderTree(fs, u).value) == set y | y in fs && fs[y].owner == u
  {
    var root := FindRoot(fs, u).value;
    var t := ToDto(fs, root);
    var v := GetFolderTree(fs, u).value;
    assert v.children == TreesOf(t.children);
    TreesOfKeepWalk(t.children);
    MembersSplit(t);
    assert TreeIds(v) == Members(t);
    ToDtoShowsSubtree(fs, root);
    RootDescendantsAreOwners(fs, root);
  }
}
