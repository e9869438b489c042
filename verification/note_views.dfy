/** The read side of the note service: the response and summary DTOs of a
    note, and the listings, each a query result of module NoteQueries
    sorted newest first. */
module NoteViews {
  import opened Common
  import opened Entities
  import opened Hierarchy
  import opened Store
  import opened Sorting
  import opened NoteQueries

  /** `TagBriefDto`. */
  datatype TagBrief = TagBrief(id: TagId, name: string)

  /** `NoteResponseDto`. */
  datatype NoteView = NoteView(
    id: NoteId,
    title: string,
    content: Option<string>,
    folderId: FolderId,
    createdAt: int,
    updatedAt: int,
    tags: seq<TagBrief>)

  /** `NoteSummaryDto`. */
  datatype NoteSummary = NoteSummary(id: NoteId, title: string, folderId: FolderId, updatedAt: int)

  // ---------------------------------------------------------------------
  // The tags of a note, by name
  // ---------------------------------------------------------------------

  function TagName(tags: Tags, t: TagId): string {
    if t in tags then tags[t].name else ""
  }

  /** `Comparator.comparing(TagBriefDto::getName)`; names are mandatory, so
      the `nullsLast` case never arises. */
  function ByTagName(tags: Tags): (TagId, TagId) -> bool {
    (a: TagId, b: TagId) => StrLe(TagName(tags, a), TagName(tags, b))
  }

  lemma ByTagNameIsTotalPreorder(tags: Tags)
    ensures TotalPreorder(ByTagName(tags))
  {
    forall a, b ensures ByTagName(tags)(a, b) || ByTagName(tags)(b, a) {
      StrLeTotal(TagName(tags, a), TagName(tags, b));
    }
    forall a, b, c | ByTagName(tags)(a, b) && ByTagName(tags)(b, c) ensures ByTagName(tags)(a, c) {
      StrLeTransitive(TagName(tags, a), TagName(tags, b), TagName(tags, c));
    }
  }

  lemma TagsByNameSorted(tags: Tags, ids: seq<TagId>)
    ensures forall i, j :: 0 <= i < j < |SortBy(ByTagName(tags), ids)| ==>
      StrLe(TagName(tags, SortBy(ByTagName(tags), ids)[i]), TagName(tags, SortBy(ByTagName(tags), ids)[j]))
  {
    ByTagNameIsTotalPreorder(tags);
    SortBySorted(ByTagName(tags), ids);
  }

  /** The ids of a set of tags, each once, in ascending name order. */
  function TagsByName(tags: Tags, s: set<TagId>): (r: seq<TagId>)
    ensures forall t :: t in r <==> t in s
    ensures Distinct(r)
    ensures forall i, j :: 0 <= i < j < |r| ==> StrLe(TagName(tags, r[i]), TagName(tags, r[j]))
  {
    var ids := Ascending(s);
    var r := SortBy(ByTagName(tags), ids);
    TagsByNameSorted(tags, ids);
    assert forall t :: t in r <==> t in multiset(ids);
    PermutationKeepsDistinct(ids, r);
    r
  }

  function Briefs(tags: Tags, ids: seq<TagId>): (bs: seq<TagBrief>)
    requires forall t :: t in ids ==> t in tags
    ensures |bs| == |ids|
    ensures forall i :: 0 <= i < |ids| ==> bs[i] == TagBrief(ids[i], tags[ids[i]].name)
  {
    if ids == [] then [] else [TagBrief(ids[0], tags[ids[0]].name)] + Briefs(tags, ids[1..])
  }

  function BriefIds(bs: seq<TagBrief>): (ids: seq<TagId>)
    ensures |ids| == |bs| && forall i :: 0 <= i < |bs| ==> ids[i] == bs[i].id
  {
    if bs == [] then [] else [bs[0].id] + BriefIds(bs[1..])
  }

  /** The tag list of `toDto`: a brief of each stored tag the note is
      linked to, each once, in ascending name order. */
  function NoteTagBriefs(tags: Tags, note: Note): (bs: seq<TagBrief>)
    ensures forall t :: t in BriefIds(bs) <==> t in TagsOf(note) && t in tags
    ensures Distinct(BriefIds(bs))
    ensures forall i :: 0 <= i < |bs| ==> bs[i].id in tags && bs[i].name == tags[bs[i].id].name
    ensures forall i, j :: 0 <= i < j < |bs| ==> StrLe(bs[i].name, bs[j].name)
  {
    var linked := TagsOf(note) * tags.Keys;
    var ids := TagsByName(tags, linked);
    assert forall t :: t in ids ==> t in tags;
    BriefsCarryIds(tags, ids);
    BriefsByName(tags, ids);
    Briefs(tags, ids)
  }

  lemma BriefsCarryIds(tags: Tags, ids: seq<TagId>)
    requires forall t :: t in ids ==> t in tags
    ensures BriefIds(Briefs(tags, ids)) == ids
  {
    var bs := Briefs(tags, ids);
    assert forall i :: 0 <= i < |ids| ==> BriefIds(bs)[i] == ids[i];
  }

  /** Briefs of ids in name order are in name order. */
  lemma BriefsByName(tags: Tags, ids: seq<TagId>)
    requires forall t :: t in ids ==> t in tags
    requires forall i, j :: 0 <= i < j < |ids| ==> StrLe(TagName(tags, ids[i]), TagName(tags, ids[j]))
    ensures forall i :: 0 <= i < |ids| ==> Briefs(tags, ids)[i].id in tags && Briefs(tags, ids)[i].name == tags[Briefs(tags, ids)[i].id].name
    ensures forall i, j :: 0 <= i < j < |ids| ==> StrLe(Briefs(tags, ids)[i].name, Briefs(tags, ids)[j].name)
  {
    var bs := Briefs(tags, ids);
    forall i, j | 0 <= i < j < |ids| ensures StrLe(bs[i].name, bs[j].name) {
      assert bs[i].name == TagName(tags, ids[i]) && bs[j].name == TagName(tags, ids[j]);
    }
  }

  /** `toDto(note)`: the note's fields and its tags by name. */
  function ToDto(tags: Tags, id: NoteId, note: Note): (v: NoteView)
    ensures v.id == id && v.title == note.title && v.content == note.content && v.folderId == note.folder
    ensures v.createdAt == note.createdAt && v.updatedAt == note.updatedAt
    ensures v.tags == NoteTagBriefs(tags, note)
  {
    NoteView(id, note.title, note.content, note.folder, note.createdAt, note.updatedAt, NoteTagBriefs(tags, note))
  }

  /** `toSummaryDto(note)`. */
  function ToSummary(id: NoteId, note: Note): (s: NoteSummary)
    ensures s.id == id && s.title == note.title && s.folderId == note.folder && s.updatedAt == note.updatedAt
  {
    NoteSummary(id, note.title, note.folder, note.updatedAt)
  }

  /** `getNote`: NotFound for an unknown id, otherwise the note's view with
      its tags by name. */
  function GetNote(tags: Tags, notes: Notes, id: NoteId): (r: Result<NoteView>)
    ensures r.Err? <==> id !in notes
    ensures r.Err? ==> r.error == NotFound
    ensures r.Ok? ==> r.value.id == id && r.value.title == notes[id].title && r.value.content == notes[id].content
    ensures r.Ok? ==> forall t :: t in BriefIds(r.value.tags) <==> t in TagsOf(notes[id]) && t in tags
    ensures r.Ok? ==> r.value == ToDto(tags, id, notes[id])
    ensures r.Ok? ==> r.value.folderId == notes[id].folder
    ensures r.Ok? ==> r.value.createdAt == notes[id].createdAt && r.value.updatedAt == notes[id].updatedAt
    ensures r.Ok? ==> forall i, j :: 0 <= i < j < |r.value.tags| ==> StrLe(r.value.tags[i].name, r.value.tags[j].name)
  {
    if id in notes then Ok(ToDto(tags, id, notes[id])) else Err(NotFound)
  }

  // ---------------------------------------------------------------------
  // Listings
  // ---------------------------------------------------------------------

  function SummaryIds(ss: seq<NoteSummary>): (ids: seq<NoteId>)
    ensures |ids| == |ss| && forall i :: 0 <= i < |ss| ==> ids[i] == ss[i].id
  {
    if ss == [] then [] else [ss[0].id] + SummaryIds(ss[1..])
  }

  function Summaries(notes: Notes, ids: seq<NoteId>): (ss: seq<NoteSummary>)
    requires forall n :: n in ids ==> n in notes
    ensures |ss| == |ids| && forall i :: 0 <= i < |ids| ==> ss[i] == ToSummary(ids[i], notes[ids[i]])
  {
    if ids == [] then [] else [ToSummary(ids[0], notes[ids[0]])] + Summaries(notes, ids[1..])
  }

  /** A listing of the query result `q`: a reordering of the rows the
      query hands out, each note once, the summary of each stored note,
      newest first. */
  ghost predicate ListsNewestFirst(notes: Notes, q: set<NoteId>, ss: seq<NoteSummary>) {
    && q <= notes.Keys
    && multiset(SummaryIds(ss)) == multiset(Ascending(q))
    && (forall n :: n in SummaryIds(ss) <==> n in q)
    && Distinct(SummaryIds(ss))
    && (forall i :: 0 <= i < |ss| ==> ss[i].id in notes && ss[i] == ToSummary(ss[i].id, notes[ss[i].id]))
    && (forall i, j :: 0 <= i < j < |ss| ==> ss[i].updatedAt >= ss[j].updatedAt)
  }

  /** `query.stream().sorted(newest first).map(this::toSummaryDto)`. */
  function Listing(notes: Notes, q: set<NoteId>): (ss: seq<NoteSummary>)
    requires q <= notes.Keys
    ensures ListsNewestFirst(notes, q, ss)
  {
    SummariesOfNewest(notes, q);
    Summaries(notes, Newest(notes, q))
  }

  lemma SummariesOfNewest(notes: Notes, q: set<NoteId>)
    requires q <= notes.Keys
    ensures ListsNewestFirst(notes, q, Summaries(notes, Newest(notes, q)))
  {
    var ids := Newest(notes, q);
    var ss := Summaries(notes, ids);
    SummariesCarryIds(notes, ids);
    assert multiset(SummaryIds(ss)) == multiset(Ascending(q));
    assert forall n :: n in SummaryIds(ss) <==> n in q;
    assert Distinct(SummaryIds(ss));
    forall i | 0 <= i < |ss| ensures ss[i].id in notes && ss[i] == ToSummary(ss[i].id, notes[ss[i].id]) {
      assert ss[i].id == ids[i] && ids[i] in q;
    }
    forall i, j | 0 <= i < j < |ss| ensures ss[i].updatedAt >= ss[j].updatedAt {
      assert ss[i].updatedAt == notes[ids[i]].updatedAt && ss[j].updatedAt == notes[ids[j]].updatedAt;
    }
  }

  lemma SummariesCarryIds(notes: Notes, ids: seq<NoteId>)
    requires forall n :: n in ids ==> n in notes
    ensures SummaryIds(Summaries(notes, ids)) == ids
  {
    var ss := Summaries(notes, ids);
    assert forall i :: 0 <= i < |ids| ==> SummaryIds(ss)[i] == ids[i];
  }

  /** `listNotesByFolder`. */
  function ListNotesByFolder(fs: Folders, notes: Notes, f: FolderId): (r: Result<seq<NoteSummary>>)
    ensures r.Err? <==> f !in fs
    ensures r.Err? ==> r.error == NotFound
    ensures r.Ok? ==> ListsNewestFirst(notes, ByFolder(notes, f), r.value)
  {
    if f !in fs then Err(NotFound) else Ok(Listing(notes, ByFolder(notes, f)))
  }

  /** `listNotesByUser`. */
  function ListNotesByUser(users: Users, fs: Folders, notes: Notes, u: UserId): (r: Result<seq<NoteSummary>>)
    ensures r.Err? <==> u !in users
    ensures r.Err? ==> r.error == NotFound
    ensures r.Ok? ==> ListsNewestFirst(notes, ByUser(notes, fs, u), r.value)
  {
    if u !in users then Err(NotFound) else Ok(Listing(notes, ByUser(notes, fs, u)))
  }

  function Views(tags: Tags, notes: Notes, ids: seq<NoteId>): (vs: seq<NoteView>)
    requires forall n :: n in ids ==> n in notes
    ensures |vs| == |ids| && forall i :: 0 <= i < |ids| ==> vs[i] == ToDto(tags, ids[i], notes[ids[i]])
  {
    seq(|ids|, i requires 0 <= i < |ids| => ToDto(tags, ids[i], notes[ids[i]]))
  }

  /** `listFullNotesByUser`: the same notes as `listNotesByUser`, in the
      same order, as full DTOs. */
  function ListFullNotesByUser(users: Users, fs: Folders, notes: Notes, tags: Tags, u: UserId): (r: Result<seq<NoteView>>)
    ensures r.Err? <==> u !in users
    ensures r.Err? ==> r.error == NotFound
    ensures r.Ok? ==>
      && |r.value| == |ListNotesByUser(users, fs, notes, u).value|
      && forall i :: 0 <= i < |r.value| ==>
           var s := ListNotesByUser(users, fs, notes, u).value[i];
           s.id in notes && r.value[i] == ToDto(tags, s.id, notes[s.id])
  {
    if u !in users then Err(NotFound)
    else
      var ids := Newest(notes, ByUser(notes, fs, u));
      SummariesCarryIds(notes, ids);
      Ok(Views(tags, notes, ids))
  }

  /** `listNotesByTagAndUser`: the user, then the tag, then the tag's owner
      are checked. */
  function ListNotesByTagAndUser(users: Users, fs: Folders, notes: Notes, tags: Tags, t: TagId, u: UserId): (r: Result<seq<NoteSummary>>)
    ensures u !in users ==> r == Err(NotFound)
    ensures u in users && t !in tags ==> r == Err(NotFound)
    ensures u in users && t in tags && tags[t].owner != u ==> r == Err(BadRequest)
    ensures u in users && t in tags && tags[t].owner == u ==> r.Ok? && ListsNewestFirst(notes, ByTagAndUser(notes, fs, t, u), r.value)
  {
    if u !in users then Err(NotFound)
    else if t !in tags then Err(NotFound)
    else if tags[t].owner != u then Err(BadRequest)
    else Ok(Listing(notes, ByTagAndUser(notes, fs, t, u)))
  }

  // ---------------------------------------------------------------------
  // filterNotesByTags
  // ---------------------------------------------------------------------

  /** `"OR".equalsIgnoreCase(mode)`; a null mode is not OR. */
  predicate IsOrMode(mode: Option<string>) {
    mode.Some? && EqualsIgnoreCase("OR", mode.value)
  }

  /** Exactly the two-letter spellings of "or", in any case, select OR mode. */
  lemma OrModeIff(mode: Option<string>)
    ensures IsOrMode(mode) <==>
      mode.Some? && |mode.value| == 2 && AsciiUpper(mode.value[0]) == 'O' && AsciiUpper(mode.value[1]) == 'R'
  {
    assert AsciiUpper('O') == 'O' && AsciiUpper('R') == 'R';
    if mode.Some? && |mode.value| == 2 {
      assert "OR"[0] == 'O' && "OR"[1] == 'R';
    }
  }

  /** Some spellings: "OR" in any case selects OR mode; the controller's
      default, "AND", does not. */
  lemma OrModeSpellings()
    ensures IsOrMode(Some("OR")) && IsOrMode(Some("or")) && IsOrMode(Some("Or"))
    ensures !IsOrMode(None) && !IsOrMode(Some("AND")) && !IsOrMode(Some("OR "))
  {
    assert AsciiUpper('o') == 'O' && AsciiUpper('r') == 'R';
  }

  /** `filterNotesByTags(u, ids, mode)`: NotFound for an unknown user; all
      of the user's notes when no id is given; otherwise the OR or the AND
      query. */
  function FilterNotesByTags(users: Users, fs: Folders, notes: Notes, u: UserId, ids: Option<seq<TagId>>, mode: Option<string>): (r: Result<seq<NoteSummary>>)
    ensures r.Err? <==> u !in users
    ensures r.Err? ==> r.error == NotFound
    ensures r.Ok? && (ids.None? || ids.value == []) ==> ListsNewestFirst(notes, ByUser(notes, fs, u), r.value)
    ensures r.Ok? && ids.Some? && ids.value != [] && IsOrMode(mode) ==> ListsNewestFirst(notes, AnyTag(notes, fs, u, ids.value), r.value)
    ensures r.Ok? && ids.Some? && ids.value != [] && !IsOrMode(mode) ==> ListsNewestFirst(notes, AllTags(notes, fs, u, ids.value), r.value)
  {
    if u !in users then Err(NotFound)
    else if ids.None? || ids.value == [] then Ok(Listing(notes, ByUser(notes, fs, u)))
    else if IsOrMode(mode) then Ok(Listing(notes, AnyTag(notes, fs, u, ids.value)))
    else Ok(Listing(notes, AllTags(notes, fs, u, ids.value)))
  }

  /** What the filter lists, for a known user and a non-empty list without
      repetitions: in OR mode the user's notes carrying some listed tag, in
      any other mode those carrying every listed tag. */
  lemma FilterSelects(users: Users, fs: Folders, notes: Notes, u: UserId, ids: seq<TagId>, mode: Option<string>, n: NoteId)
    requires u in users && ids != [] && Distinct(ids)
    ensures n in SummaryIds(FilterNotesByTags(users, fs, notes, u, Some(ids), mode).value) <==>
      && OwnedBy(notes, fs, n, u)
      && (if IsOrMode(mode) then exists i :: 0 <= i < |ids| && ids[i] in TagsOf(notes[n])
          else forall i :: 0 <= i < |ids| ==> ids[i] in TagsOf(notes[n]))
  {
    if IsOrMode(mode) {
      AnyTagIsUnion(notes, fs, u, ids, n);
    } else {
      AllTagsIffEvery(notes, fs, u, ids, n);
    }
  }

  /** A repeated id empties the AND-mode result. */
  lemma FilterWithDuplicateIsEmpty(users: Users, fs: Folders, notes: Notes, u: UserId, ids: seq<TagId>, mode: Option<string>)
    requires u in users && !Distinct(ids) && !IsOrMode(mode)
    ensures FilterNotesByTags(users, fs, notes, u, Some(ids), mode) == Ok([])
  {
    DuplicateSelectsNothing(notes, fs, u, ids);
    var r := FilterNotesByTags(users, fs, notes, u, Some(ids), mode);
    assert ids != [];
    assert |SummaryIds(r.value)| == |Ascending({})|;
  }
}
