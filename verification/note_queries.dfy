/** The note queries of repository/NoteRepository.java as set
    comprehensions over the note and folder tables, and the newest-first
    order in which the note service lists their results. */
module NoteQueries {
  import opened Common
  import opened Entities
  import opened Hierarchy
  import opened Store
  import opened Sorting

  /** The ids of the tags a note carries, read off its links. */
  function TagsOf(note: Note): set<TagId> {
    set l | l in note.noteTags :: l.tag
  }

  /** The join `n.folder.user.id = :userId`: the note's folder is stored
      and owned by the user. */
  predicate OwnedBy(notes: Notes, fs: Folders, n: NoteId, u: UserId) {
    n in notes && notes[n].folder in fs && fs[notes[n].folder].owner == u
  }

  /** `findByFolder_Id`. */
  function ByFolder(notes: Notes, f: FolderId): (r: set<NoteId>)
    ensures forall n :: n in r <==> n in notes && notes[n].folder == f
  {
    set n | n in notes && notes[n].folder == f
  }

  /** `findByFolder_User_Id` (and `findFullByFolder_User_Id`, the same
      query). */
  function ByUser(notes: Notes, fs: Folders, u: UserId): (r: set<NoteId>)
    ensures forall n :: n in r <==> OwnedBy(notes, fs, n, u)
  {
    set n | n in notes && OwnedBy(notes, fs, n, u)
  }

  /** `findByNoteTags_Tag_IdAndFolder_User_Id`: the user's notes that
      carry the tag. */
  function ByTagAndUser(notes: Notes, fs: Folders, t: TagId, u: UserId): (r: set<NoteId>)
    ensures r <= ByUser(notes, fs, u)
    ensures forall n :: n in r <==> OwnedBy(notes, fs, n, u) && t in TagsOf(notes[n])
  {
    set n | n in notes && OwnedBy(notes, fs, n, u) && t in TagsOf(notes[n])
  }

  /** The distinct values of a list of ids (the SQL `IN` list). */
  function Listed(ids: seq<TagId>): set<TagId> {
    set i | i in ids
  }

  /** The distinct listed tags a note carries: what `COUNT(DISTINCT t.id)`
      counts for the note's group. */
  function Matched(note: Note, ids: seq<TagId>): set<TagId> {
    TagsOf(note) * Listed(ids)
  }

  /** `findNotesByAnyTag`: each of the user's notes with at least one
      listed tag, once (`DISTINCT`). */
  function AnyTag(notes: Notes, fs: Folders, u: UserId, ids: seq<TagId>): (r: set<NoteId>)
    ensures r <= ByUser(notes, fs, u)
  {
    set n | n in notes && OwnedBy(notes, fs, n, u) && Matched(notes[n], ids) != {}
  }

  /** `findNotesByAllTags(u, ids, ids.size())`: the inner joins keep only
      the notes with at least one listed tag, and `HAVING` keeps the groups
      whose number of distinct listed tags equals the length of the list. */
  function AllTags(notes: Notes, fs: Folders, u: UserId, ids: seq<TagId>): (r: set<NoteId>)
    ensures r <= AnyTag(notes, fs, u, ids)
  {
    set n | n in notes && OwnedBy(notes, fs, n, u) && Matched(notes[n], ids) != {} && |Matched(notes[n], ids)| == |ids|
  }

  // ---------------------------------------------------------------------
  // Counting distinct ids
  // ---------------------------------------------------------------------

  /** A list has at most as many distinct values as entries, and exactly
      as many when it has no repetition. */
  lemma {:induction false} ListedSize(ids: seq<TagId>)
    ensures |Listed(ids)| <= |ids|
    ensures |Listed(ids)| == |ids| <==> Distinct(ids)
  {
    if ids != [] {
      var tail := ids[1..];
      ListedSize(tail);
      assert Listed(ids) == {ids[0]} + Listed(tail) by {
        assert forall i :: i in ids <==> i == ids[0] || i in tail by {
          assert ids == [ids[0]] + tail;
        }
      }
      if ids[0] in tail {
        assert Listed(ids) == Listed(tail);
        var k :| 0 <= k < |tail| && tail[k] == ids[0];
        assert ids[k + 1] == ids[0];
        assert !Distinct(ids);
      } else {
        assert |Listed(ids)| == |Listed(tail)| + 1;
        assert Distinct(ids) <==> Distinct(tail) by {
          if Distinct(tail) {
            forall i, j | 0 <= i < j < |ids| ensures ids[i] != ids[j] {
              if i == 0 {
                assert ids[j] == tail[j - 1];
              } else {
                assert ids[i] == tail[i - 1] && ids[j] == tail[j - 1];
              }
            }
          }
          if Distinct(ids) {
            forall i, j | 0 <= i < j < |tail| ensures tail[i] != tail[j] {
              assert tail[i] == ids[i + 1] && tail[j] == ids[j + 1];
            }
          }
        }
      }
    }
  }

  /** A subset is no larger than its superset, and as large only when it
      is the superset. */
  lemma {:induction false} SubsetSize(a: set<TagId>, b: set<TagId>)
    requires a <= b
    ensures |a| <= |b|
    ensures |a| == |b| ==> a == b
    decreases |b|
  {
    if b != {} {
      var x :| x in b;
      SubsetSize(a - {x}, b - {x});
      if x in a {
        assert a == (a - {x}) + {x};
      } else {
        assert a - {x} == a;
      }
    }
  }

  // ---------------------------------------------------------------------
  // What the multi-tag queries select
  // ---------------------------------------------------------------------

  /** With a list free of repetitions, AND mode selects the user's notes
      that carry every listed tag; other tags on the note do not matter. */
  lemma AllTagsIffEvery(notes: Notes, fs: Folders, u: UserId, ids: seq<TagId>, n: NoteId)
    requires Distinct(ids)
    ensures n in AllTags(notes, fs, u, ids) <==>
      OwnedBy(notes, fs, n, u) && ids != [] && forall i :: 0 <= i < |ids| ==> ids[i] in TagsOf(notes[n])
  {
    ListedSize(ids);
    if OwnedBy(notes, fs, n, u) {
      var m := Matched(notes[n], ids);
      if n in AllTags(notes, fs, u, ids) {
        SubsetSize(m, Listed(ids));
        forall i | 0 <= i < |ids| ensures ids[i] in TagsOf(notes[n]) {
          assert ids[i] in Listed(ids);
        }
      }
      if ids != [] && forall i :: 0 <= i < |ids| ==> ids[i] in TagsOf(notes[n]) {
        assert m == Listed(ids);
        assert ids[0] in m;
      }
    }
  }

  /** A list that repeats an id asks for more distinct tags than it names,
      so AND mode selects nothing. */
  lemma DuplicateSelectsNothing(notes: Notes, fs: Folders, u: UserId, ids: seq<TagId>)
    requires !Distinct(ids)
    ensures AllTags(notes, fs, u, ids) == {}
  {
    ListedSize(ids);
    forall n | n in AllTags(notes, fs, u, ids) ensures false {
      SubsetSize(Matched(notes[n], ids), Listed(ids));
    }
  }

  /** OR mode is the union of the single-tag queries. */
  lemma AnyTagIsUnion(notes: Notes, fs: Folders, u: UserId, ids: seq<TagId>, n: NoteId)
    ensures n in AnyTag(notes, fs, u, ids) <==>
      exists i :: 0 <= i < |ids| && n in ByTagAndUser(notes, fs, ids[i], u)
  {
    if n in AnyTag(notes, fs, u, ids) {
      var t :| t in Matched(notes[n], ids);
      var i :| 0 <= i < |ids| && ids[i] == t;
      assert n in ByTagAndUser(notes, fs, ids[i], u);
    }
    if exists i :: 0 <= i < |ids| && n in ByTagAndUser(notes, fs, ids[i], u) {
      var i :| 0 <= i < |ids| && n in ByTagAndUser(notes, fs, ids[i], u);
      assert ids[i] in Matched(notes[n], ids);
    }
  }

  /** For a non-empty list free of repetitions, AND mode is the
      intersection of the single-tag queries. */
  lemma AllTagsIsIntersection(notes: Notes, fs: Folders, u: UserId, ids: seq<TagId>, n: NoteId)
    requires Distinct(ids) && ids != []
    ensures n in AllTags(notes, fs, u, ids) <==>
      forall i :: 0 <= i < |ids| ==> n in ByTagAndUser(notes, fs, ids[i], u)
  {
    AllTagsIffEvery(notes, fs, u, ids, n);
    if forall i :: 0 <= i < |ids| ==> n in ByTagAndUser(notes, fs, ids[i], u) {
      assert n in ByTagAndUser(notes, fs, ids[0], u);
    }
  }

  /** A note without links is selected by neither multi-tag query. */
  lemma UnlinkedNeverSelected(notes: Notes, fs: Folders, u: UserId, ids: seq<TagId>, n: NoteId)
    requires n in notes && notes[n].noteTags == {}
    ensures n !in AnyTag(notes, fs, u, ids) && n !in AllTags(notes, fs, u, ids)
  {
    assert TagsOf(notes[n]) == {};
  }

  // ---------------------------------------------------------------------
  // Newest first
  // ---------------------------------------------------------------------

  /** The `updatedAt` of a note; ids outside the table never occur in a
      listing and get a dummy stamp. */
  function Stamp(notes: Notes, n: NoteId): int {
    if n in notes then notes[n].updatedAt else 0
  }

  /** `Comparator.comparing(Note::getUpdatedAt).reversed()`. */
  function NewerFirst(notes: Notes): (NoteId, NoteId) -> bool {
    (a: NoteId, b: NoteId) => Stamp(notes, a) >= Stamp(notes, b)
  }

  lemma NewerFirstIsTotalPreorder(notes: Notes)
    ensures TotalPreorder(NewerFirst(notes))
  {
  }

  /** A query result as the service lists it: the rows in the order the
      query hands them out (ascending id in this model), stably sorted
      newest first. */
  function Newest(notes: Notes, s: set<NoteId>): (r: seq<NoteId>)
    requires s <= notes.Keys
    ensures multiset(r) == multiset(Ascending(s))
    ensures forall n :: n in r <==> n in s
    ensures Distinct(r)
    ensures forall i, j :: 0 <= i < j < |r| ==> notes[r[i]].updatedAt >= notes[r[j]].updatedAt
  {
    var ids := Ascending(s);
    var r := SortBy(NewerFirst(notes), ids);
    NewestSorted(notes, ids);
    assert forall n :: n in r <==> n in multiset(ids);
    PermutationKeepsDistinct(ids, r);
    r
  }

  lemma NewestSorted(notes: Notes, ids: seq<NoteId>)
    ensures forall i, j :: 0 <= i < j < |SortBy(NewerFirst(notes), ids)| ==>
      Stamp(notes, SortBy(NewerFirst(notes), ids)[i]) >= Stamp(notes, SortBy(NewerFirst(notes), ids)[j])
  {
    NewerFirstIsTotalPreorder(notes);
    SortBySorted(NewerFirst(notes), ids);
  }
}
