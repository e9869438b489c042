/** The recursive walk down `getSubFolders()` that the folder views perform
    (children in ascending name order at every level) and that the delete
    cascade follows. The walk is proved to visit exactly the folders of the
    subtree, each once. */
module Traversal {
  import opened Common
  import opened Entities
  import opened Sorting
  import opened Hierarchy

  function NameOf(fs: Folders, id: FolderId): string {
    if id in fs then fs[id].name else ""
  }

  /** `Comparator.comparing(Folder::getName)` on the ids of stored folders. */
  function ByName(fs: Folders): (FolderId, FolderId) -> bool {
    (a: FolderId, b: FolderId) => StrLe(NameOf(fs, a), NameOf(fs, b))
  }

  lemma ByNameIsTotalPreorder(fs: Folders)
    ensures TotalPreorder(ByName(fs))
  {
    forall a, b ensures ByName(fs)(a, b) || ByName(fs)(b, a) {
      StrLeTotal(NameOf(fs, a), NameOf(fs, b));
    }
    forall a, b, c | ByName(fs)(a, b) && ByName(fs)(b, c) ensures ByName(fs)(a, c) {
      StrLeTransitive(NameOf(fs, a), NameOf(fs, b), NameOf(fs, c));
    }
  }

  /** A list of folder ids is in ascending name order. */
  predicate NameOrdered(fs: Folders, ids: seq<FolderId>) {
    forall i, j :: 0 <= i < j < |ids| ==> StrLe(NameOf(fs, ids[i]), NameOf(fs, ids[j]))
  }

  /** Sorts a set of folder ids by name; equal names keep ascending id order. */
  function SortedByName(fs: Folders, s: set<FolderId>): (r: seq<FolderId>)
    ensures multiset(r) == multiset(Ascending(s))
    ensures forall c :: c in r <==> c in s
    ensures |r| == |s|
    ensures NameOrdered(fs, r)
    ensures Distinct(r)
  {
    var ids := Ascending(s);
    ByNameIsTotalPreorder(fs);
    SortBySorted(ByName(fs), ids);
    var r := SortBy(ByName(fs), ids);
    assert forall c :: c in r <==> c in multiset(ids);
    PermutationKeepsDistinct(ids, r);
    r
  }

  /** `folder.getSubFolders().stream().sorted(Comparator.comparing(Folder::getName))`,
      restricted to the folders the walk has not yet visited. */
  function ChildrenByName(fs: Folders, x: FolderId, budget: set<FolderId>): (r: seq<FolderId>)
    requires x in fs
    ensures forall c :: c in r <==> c in fs[x].subFolders && c in budget && c in fs
    ensures NameOrdered(fs, r)
  {
    SortedByName(fs, set c | c in fs[x].subFolders && c in budget && c in fs)
  }

  /** One level of the walk: the folder and the walks of its children. */
  datatype FolderNode = FolderNode(id: FolderId, folder: Folder, children: seq<FolderNode>)

  /** The walk from `x`. `budget` holds the folders not yet visited; it
      makes the recursion well-founded and, in a well-formed table, never
      cuts a branch (see SubtreeExact). */
  function Subtree(fs: Folders, x: FolderId, budget: set<FolderId>): (t: FolderNode)
    requires x in fs && x in budget
    ensures t.id == x && t.folder == fs[x]
    decreases |budget|, 0, 0
  {
    var rest := budget - {x};
    FolderNode(x, fs[x], Forest(fs, ChildrenByName(fs, x, rest), rest))
  }

  function Forest(fs: Folders, cs: seq<FolderId>, budget: set<FolderId>): (ts: seq<FolderNode>)
    requires forall c :: c in cs ==> c in fs && c in budget
    ensures |ts| == |cs|
    ensures forall i :: 0 <= i < |cs| ==> ts[i].id == cs[i] && ts[i].folder == fs[cs[i]]
    decreases |budget|, 1, |cs|
  {
    if cs == [] then []
    else
      var rest := Forest(fs, cs[1..], budget);
      assert forall i :: 1 <= i < |cs| ==> rest[i - 1].id == cs[i] && rest[i - 1].folder == fs[cs[i]];
      [Subtree(fs, cs[0], budget)] + rest
  }

  /** The ids a walk visits. */
  function Members(t: FolderNode): set<FolderId>
    decreases t, 1
  {
    {t.id} + ForestMembers(t.children)
  }

  function ForestMembers(ts: seq<FolderNode>): set<FolderId>
    decreases ts, 0
  {
    if ts == [] then {} else Members(ts[0]) + ForestMembers(ts[1..])
  }

  /** At every level, the children are listed in ascending name order. */
  predicate LevelsOrdered(t: FolderNode) {
    && (forall i, j :: 0 <= i < j < |t.children| ==> StrLe(t.children[i].folder.name, t.children[j].folder.name))
    && (forall k :: 0 <= k < |t.children| ==> LevelsOrdered(t.children[k]))
  }

  // ---------------------------------------------------------------------
  // What the walk visits
  // ---------------------------------------------------------------------

  /** The walk from `x` visits only folders of `x`'s subtree. */
  lemma {:induction false} SubtreeSound(fs: Folders, x: FolderId, budget: set<FolderId>)
    requires SubFoldersMirrorParents(fs) && x in fs && x in budget
    ensures forall y :: y in Members(Subtree(fs, x, budget)) ==> y in fs && AncestorOrSelf(fs, x, y)
    decreases |budget|, 0, 0
  {
    var rest := budget - {x};
    var cs := ChildrenByName(fs, x, rest);
    ForestSound(fs, x, cs, rest);
    SelfOnChain(fs, x);
    var t := Subtree(fs, x, budget);
    MembersSplit(t);
    assert t.children == Forest(fs, cs, rest);
  }

  lemma ForestSplit(ts: seq<FolderNode>)
    requires ts != []
    ensures ForestMembers(ts) == Members(ts[0]) + ForestMembers(ts[1..])
  {
  }

  lemma MembersSplit(t: FolderNode)
    ensures Members(t) == {t.id} + ForestMembers(t.children)
  {
  }

  /** The subtree of a child lies inside the subtree of its parent. */
  lemma BelowChild(fs: Folders, x: FolderId, c: FolderId, y: FolderId)
    requires SubFoldersMirrorParents(fs) && x in fs && c in fs[x].subFolders
    requires AncestorOrSelf(fs, c, y)
    ensures AncestorOrSelf(fs, x, y)
  {
    var n: nat :| OnChain(fs, Some(y), c, n);
    ChainThroughParent(fs, y, c, x, n);
  }

  /** The walks from children of `x` visit only folders below `x`. */
  lemma {:induction false} ForestSound(fs: Folders, x: FolderId, cs: seq<FolderId>, budget: set<FolderId>)
    requires SubFoldersMirrorParents(fs) && x in fs
    requires forall c :: c in cs ==> c in fs[x].subFolders && c in fs && c in budget
    ensures forall y :: y in ForestMembers(Forest(fs, cs, budget)) ==> y in fs && AncestorOrSelf(fs, x, y)
    decreases |budget|, 1, |cs|
  {
    if cs != [] {
      SubtreeSound(fs, cs[0], budget);
      ForestSound(fs, x, cs[1..], budget);
      var ts := Forest(fs, cs, budget);
      assert ts[1..] == Forest(fs, cs[1..], budget);
      forall y | y in Members(ts[0]) ensures AncestorOrSelf(fs, x, y) {
        BelowChild(fs, x, cs[0], y);
      }
    }
  }

  /** Each walk in a forest contributes its members. */
  lemma {:induction false} ForestHasMembers(fs: Folders, cs: seq<FolderId>, budget: set<FolderId>, i: nat)
    requires forall c :: c in cs ==> c in fs && c in budget
    requires i < |cs|
    ensures Members(Subtree(fs, cs[i], budget)) <= ForestMembers(Forest(fs, cs, budget))
    decreases i
  {
    var ts := Forest(fs, cs, budget);
    assert ts[1..] == Forest(fs, cs[1..], budget);
    if i > 0 {
      ForestHasMembers(fs, cs[1..], budget, i - 1);
    }
  }

  /** The budget condition under which no branch of the walk from `x` is cut:
      every folder outside the strict ancestors of `x` is still unvisited. */
  ghost predicate Unvisited(fs: Folders, x: FolderId, budget: set<FolderId>)
    requires x in fs
  {
    x in budget &&
    forall z :: z in fs && !(fs[x].parent.Some? && AncestorOrSelf(fs, z, fs[x].parent.value)) ==> z in budget
  }

  /** A walk that starts below `x` passes a child of `x`. */
  lemma {:induction false} ChildOnChain(fs: Folders, y: FolderId, x: FolderId, n: nat) returns (c: FolderId)
    requires OnChain(fs, Some(y), x, n) && y != x
    ensures c in fs && fs[c].parent == Some(x) && OnChain(fs, Some(y), c, n - 1)
    decreases n
  {
    var p := fs[y].parent.value;
    if p == x {
      c := y;
    } else {
      c := ChildOnChain(fs, p, x, n - 1);
    }
  }

  /** The walk from `x` visits every folder of `x`'s subtree. */
  lemma {:induction false} SubtreeComplete(fs: Folders, x: FolderId, budget: set<FolderId>, y: FolderId, n: nat)
    requires FolderTree(fs) && x in fs && Unvisited(fs, x, budget)
    requires OnChain(fs, Some(y), x, n)
    ensures y in Members(Subtree(fs, x, budget))
    decreases n
  {
    if y != x {
      var c := ChildOnChain(fs, y, x, n);
      var rest := budget - {x};
      ParentNotDescendant(fs, c);
      assert c != x by {
        if c == x {
          SelfOnChain(fs, x);
        }
      }
      forall z | z in fs && !(fs[c].parent.Some? && AncestorOrSelf(fs, z, fs[c].parent.value))
        ensures z in rest
      {
        SelfOnChain(fs, x);
        if z != x {
          AncestorStep(fs, z, x);
        }
      }
      var cs := ChildrenByName(fs, x, rest);
      assert c in cs;
      var i :| 0 <= i < |cs| && cs[i] == c;
      SubtreeComplete(fs, c, rest, y, n - 1);
      ForestHasMembers(fs, cs, rest, i);
    }
  }

  /** The walk from `x` visits exactly the folders of `x`'s subtree. */
  lemma SubtreeExact(fs: Folders, x: FolderId, budget: set<FolderId>)
    requires FolderTree(fs) && x in fs && Unvisited(fs, x, budget)
    ensures Members(Subtree(fs, x, budget)) == set y | y in fs && AncestorOrSelf(fs, x, y)
  {
    SubtreeSound(fs, x, budget);
    forall y | y in fs && AncestorOrSelf(fs, x, y) ensures y in Members(Subtree(fs, x, budget)) {
      var n: nat :| OnChain(fs, Some(y), x, n);
      SubtreeComplete(fs, x, budget, y, n);
    }
  }

  /** The walk over the whole table is never cut. */
  lemma WholeTableUnvisited(fs: Folders, x: FolderId)
    requires x in fs
    ensures Unvisited(fs, x, fs.Keys)
  {
  }

  /** Every level of a walk is in ascending name order. */
  lemma {:induction false} SubtreeLevelsOrdered(fs: Folders, x: FolderId, budget: set<FolderId>)
    requires x in fs && x in budget
    ensures LevelsOrdered(Subtree(fs, x, budget))
    decreases |budget|, 0, 0
  {
    var rest := budget - {x};
    var cs := ChildrenByName(fs, x, rest);
    ForestNamesOrdered(fs, cs, rest);
    ForestLevelsOrdered(fs, cs, rest);
  }

  lemma {:induction false} ForestLevelsOrdered(fs: Folders, cs: seq<FolderId>, budget: set<FolderId>)
    requires forall c :: c in cs ==> c in fs && c in budget
    ensures forall k :: 0 <= k < |Forest(fs, cs, budget)| ==> LevelsOrdered(Forest(fs, cs, budget)[k])
    decreases |budget|, 1, |cs|
  {
    if cs != [] {
      SubtreeLevelsOrdered(fs, cs[0], budget);
      ForestLevelsOrdered(fs, cs[1..], budget);
      var ts := Forest(fs, cs, budget);
      assert ts == [Subtree(fs, cs[0], budget)] + Forest(fs, cs[1..], budget);
    }
  }

  /** A forest over a name-ordered list lists its walks in name order. */
  lemma ForestNamesOrdered(fs: Folders, cs: seq<FolderId>, budget: set<FolderId>)
    requires forall c :: c in cs ==> c in fs && c in budget
    requires NameOrdered(fs, cs)
    ensures forall i, j :: 0 <= i < j < |Forest(fs, cs, budget)| ==>
      StrLe(Forest(fs, cs, budget)[i].folder.name, Forest(fs, cs, budget)[j].folder.name)
  {
    var ts := Forest(fs, cs, budget);
    forall i, j | 0 <= i < j < |ts| ensures StrLe(ts[i].folder.name, ts[j].folder.name) {
      assert NameOf(fs, cs[i]) == ts[i].folder.name && NameOf(fs, cs[j]) == ts[j].folder.name;
    }
  }
}
