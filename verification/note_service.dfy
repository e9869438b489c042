/** The note service (service/impl/NoteServiceImpl.java): creating,
    updating and deleting notes together with their tag links, and the
    read side, which lists the results of the note queries newest first. */
module NoteService {
  import opened Common
  import opened Entities
  import opened Hierarchy
  import opened Store
  import opened Sorting
  import opened NoteLinks
  import opened NoteQueries

  /** `NoteRequestDto`; every field may be null. */
  datatype NoteRequest = NoteRequest(
    folderId: Option<FolderId>,
    title: Option<string>,
    content: Option<string>,
    tagIds: Option<seq<TagId>>)

  /** `validateRequest`: a folder must be given, and the title must hold a
      character that trim does not remove. */
  function ValidateRequest(req: NoteRequest): (r: Option<Error>)
    ensures r == None || r == Some(BadRequest)
    ensures r == None <==>
      req.folderId.Some? && req.title.Some? && exists i :: 0 <= i < |req.title.value| && !IsTrimmed(req.title.value[i])
  {
    if req.folderId.None? then Some(BadRequest)
    else if req.title.None? then Some(BadRequest)
    else
      BlankIffAllTrimmed(req.title.value);
      if IsBlank(req.title.value) then Some(BadRequest) else None
  }

  /** The tag ids to resolve: none when the list is null (an empty list
      resolves nothing either). */
  function Requested(req: NoteRequest): seq<TagId> {
    if req.tagIds.None? then [] else req.tagIds.value
  }

  // ---------------------------------------------------------------------
  // Resolving the requested tags
  // ---------------------------------------------------------------------

  /** Every id names a stored tag of user `u`. */
  predicate TagsUsable(tags: Tags, u: UserId, ids: seq<TagId>) {
    forall i :: 0 <= i < |ids| ==> ids[i] in tags && tags[ids[i]].owner == u
  }

  /** The error the tag loop stops with: the first id in list order that
      names no tag gives NotFound, one that names a tag of another user
      gives BadRequest. */
  function TagCheck(tags: Tags, u: UserId, ids: seq<TagId>): (r: Option<Error>)
    ensures r.None? <==> TagsUsable(tags, u, ids)
    ensures r.Some? ==> exists i :: (0 <= i < |ids| && TagsUsable(tags, u, ids[..i]) &&
      (if ids[i] !in tags then r == Some(NotFound) else tags[ids[i]].owner != u && r == Some(BadRequest)))
  {
    if ids == [] then None
    else if ids[0] !in tags then
      assert TagsUsable(tags, u, ids[..0]);
      Some(NotFound)
    else if tags[ids[0]].owner != u then
      assert TagsUsable(tags, u, ids[..0]);
      Some(BadRequest)
    else
      var r := TagCheck(tags, u, ids[1..]);
      if r.Some? then
        var i :| 0 <= i < |ids[1..]| && TagsUsable(tags, u, ids[1..][..i]) &&
          (if ids[1..][i] !in tags then r == Some(NotFound) else tags[ids[1..][i]].owner != u && r == Some(BadRequest));
        assert ids[..i + 1] == [ids[0]] + ids[1..][..i];
        assert TagsUsable(tags, u, ids[..i + 1]);
        r
      else
        r
  }

  /** The tag loop of `createNote` and `updateNote`: looks each id up in
      list order, stops at the first that is missing or foreign, and
      otherwise collects the tags into a set, so a repeated id counts once. */
  method ResolveTags(tags: Tags, u: UserId, ids: seq<TagId>) returns (r: Result<set<TagId>>)
    ensures r.Err? <==> TagCheck(tags, u, ids).Some?
    ensures r.Err? ==> r.error == TagCheck(tags, u, ids).value
    ensures r.Ok? ==> r.value == Listed(ids) && r.value <= tags.Keys
  {
    var resolved: set<TagId> := {};
    var i := 0;
    while i < |ids|
      invariant 0 <= i <= |ids|
      invariant resolved == Listed(ids[..i])
      invariant TagCheck(tags, u, ids) == TagCheck(tags, u, ids[i..])
    {
      assert ids[i..][0] == ids[i];
      if ids[i] !in tags {
        return Err(NotFound);
      }
      if tags[ids[i]].owner != u {
        return Err(BadRequest);
      }
      assert ids[i..][1..] == ids[i + 1..];
      assert ids[..i + 1] == ids[..i] + [ids[i]];
      resolved := resolved + {ids[i]};
      i := i + 1;
    }
    assert ids[..i] == ids;
    return Ok(resolved);
  }

  /** The attach loop: for each resolved tag a new link joins the note's
      set and the tag's set. */
  method AttachLinks(tags: Tags, n: NoteId, ts: set<TagId>) returns (links: set<Link>, tags2: Tags)
    requires ts <= tags.Keys
    ensures links == LinksOf(n, ts)
    ensures tags2 == Tagged(tags, n, ts)
  {
    var done: set<TagId> := {};
    links, tags2 := {}, tags;
    EmptyEditsChangeNothing(tags, n);
    while done != ts
      invariant done <= ts
      invariant links == LinksOf(n, done)
      invariant tags2 == Tagged(tags, n, done)
      decreases |ts - done|
    {
      var t :| t in ts - done;
      var nt := Link(n, t);
      TaggedStep(tags, n, done, t);
      LinksOfStep(n, done, t);
      DiffShrinks(ts, done, t);
      links := links + {nt};
      tags2 := tags2[t := tags2[t].(noteTags := tags2[t].noteTags + {nt})];
      done := done + {t};
    }
  }

  /** The clear loop of `updateNote`: walks the note's links with an
      iterator, takes each out of its tag's set and then out of the note's
      set, which ends empty. */
  method ClearLinks(links: set<Link>, tags: Tags) returns (rest: set<Link>, tags2: Tags)
    ensures rest == {}
    ensures tags2 == Detached(tags, links)
  {
    var done: set<Link> := {};
    rest, tags2 := links, tags;
    EmptyEditsChangeNothing(tags, 0);
    while done != links
      invariant done <= links && rest == links - done
      invariant tags2 == Detached(tags, done)
      decreases |links - done|
    {
      var nt :| nt in links - done;
      DetachedStep(tags, done, nt);
      DiffShrinks(links, done, nt);
      if nt.tag in tags2 {
        tags2 := tags2[nt.tag := tags2[nt.tag].(noteTags := tags2[nt.tag].noteTags - {nt})];
      }
      rest, done := rest - {nt}, done + {nt};
    }
  }

  // ---------------------------------------------------------------------
  // createNote
  // ---------------------------------------------------------------------

  /** The outcome of `createNote` before anything is stored, checks in the
      order the code makes them: the request, the folder, the folder's
      user, then the tags against that user. */
  function CreateError(users: Users, fs: Folders, tags: Tags, req: NoteRequest): (r: Option<Error>)
    ensures r.None? <==>
      && ValidateRequest(req).None?
      && req.folderId.value in fs
      && fs[req.folderId.value].owner in users
      && TagsUsable(tags, fs[req.folderId.value].owner, Requested(req))
  {
    if ValidateRequest(req).Some? then Some(BadRequest)
    else if req.folderId.value !in fs then Some(NotFound)
    else if fs[req.folderId.value].owner !in users then Some(NotFound)
    else TagCheck(tags, fs[req.folderId.value].owner, Requested(req))
  }

  /** `createNote`: the error of CreateError with nothing changed, or a new
      note under a fresh id, linked on both sides to exactly the requested
      tags (a repeated id once). */
  method CreateNote(db: Db, req: NoteRequest, now: int) returns (r: Result<NoteId>)
    requires db.Valid()
    modifies db
    ensures db.Valid() && db.OnlyNotesAndTagsChanged() && db.nextTagId == old(db.nextTagId)
    ensures r.Err? <==> CreateError(old(db.users), old(db.folders), old(db.tags), req).Some?
    ensures r.Err? ==> r.error == CreateError(old(db.users), old(db.folders), old(db.tags), req).value && unchanged(db)
    ensures r.Ok? ==>
      var ts := Listed(Requested(req));
      && r.value == old(db.nextNoteId) && r.value !in old(db.notes)
      && db.notes == old(db.notes)[r.value := Note(req.title.value, req.content, req.folderId.value, now, now, LinksOf(r.value, ts))]
      && db.tags == Tagged(old(db.tags), r.value, ts)
  {
    if ValidateRequest(req).Some? {
      return Err(BadRequest);
    }
    var f := req.folderId.value;
    if f !in db.folders {
      return Err(NotFound);
    }
    var u := db.folders[f].owner;
    if u !in db.users {
      return Err(NotFound);
    }
    var resolved := ResolveTags(db.tags, u, Requested(req));
    if resolved.Err? {
      return Err(resolved.error);
    }
    var k := db.nextNoteId;
    var ts := resolved.value;
    var links, tags2 := AttachLinks(db.tags, k, ts);
    var note := Note(req.title.value, req.content, f, now, now, links);
    FreshNoteUnlinked(db.notes, db.tags, k);
    RelinkMirrored(db.notes, db.tags, k, note, ts);
    LinkEditsKeepTagRecords(db.tags, k, ts, {});
    SameTagsKeepNamesUnique(db.tags, tags2);
    db.SetNotesAndTags(db.notes[k := note], tags2, k + 1, db.nextTagId);
    return Ok(k);
  }

  // ---------------------------------------------------------------------
  // updateNote
  // ---------------------------------------------------------------------

  /** The outcome of `updateNote` before anything changes: the request, the
      note, the target folder, a target folder of another user than the
      note's current folder, then the tags against the target folder's user. */
  function UpdateError(fs: Folders, notes: Notes, tags: Tags, id: NoteId, req: NoteRequest): (r: Option<Error>)
    ensures r.None? <==>
      && ValidateRequest(req).None?
      && id in notes
      && req.folderId.value in fs
      && (notes[id].folder in fs ==> fs[notes[id].folder].owner == fs[req.folderId.value].owner)
      && TagsUsable(tags, fs[req.folderId.value].owner, Requested(req))
  {
    if ValidateRequest(req).Some? then Some(BadRequest)
    else if id !in notes then Some(NotFound)
    else if req.folderId.value !in fs then Some(NotFound)
    else if notes[id].folder in fs && fs[notes[id].folder].owner != fs[req.folderId.value].owner then Some(BadRequest)
    else TagCheck(tags, fs[req.folderId.value].owner, Requested(req))
  }

  /** `updateNote`: the error of UpdateError with nothing changed, or the
      note gets the new title, content, folder and time stamp, keeps its
      creation time, loses all its old links on both sides and is linked to
      exactly the requested tags. */
  method UpdateNote(db: Db, id: NoteId, req: NoteRequest, now: int) returns (r: Result<NoteId>)
    requires db.Valid()
    modifies db
    ensures db.Valid() && db.OnlyNotesAndTagsChanged()
    ensures db.nextNoteId == old(db.nextNoteId) && db.nextTagId == old(db.nextTagId)
    ensures r.Err? <==> UpdateError(old(db.folders), old(db.notes), old(db.tags), id, req).Some?
    ensures r.Err? ==> r.error == UpdateError(old(db.folders), old(db.notes), old(db.tags), id, req).value && unchanged(db)
    ensures r.Ok? ==>
      var ts := Listed(Requested(req));
      var before := old(db.notes)[id];
      && r.value == id
      && db.notes == old(db.notes)[id := Note(req.title.value, req.content, req.folderId.value, before.createdAt, now, LinksOf(id, ts))]
      && db.tags == Tagged(Detached(old(db.tags), before.noteTags), id, ts)
  {
    if ValidateRequest(req).Some? {
      return Err(BadRequest);
    }
    if id !in db.notes {
      return Err(NotFound);
    }
    var f := req.folderId.value;
    if f !in db.folders {
      return Err(NotFound);
    }
    var cur := db.notes[id];
    var u := db.folders[f].owner;
    if cur.folder in db.folders && db.folders[cur.folder].owner != u {
      return Err(BadRequest);
    }
    var resolved := ResolveTags(db.tags, u, Requested(req));
    if resolved.Err? {
      return Err(resolved.error);
    }
    var ts := resolved.value;
    var rest, cleared := ClearLinks(cur.noteTags, db.tags);
    var links, tags2 := AttachLinks(cleared, id, ts);
    var note := Note(req.title.value, req.content, f, cur.createdAt, now, rest + links);
    DetachMirrored(db.notes, db.tags, id);
    RelinkMirrored(db.notes, cleared, id, note, ts);
    LinkEditsKeepTagRecords(db.tags, id, ts, cur.noteTags);
    LinkEditsKeepTagRecords(cleared, id, ts, cur.noteTags);
    SameTagsKeepNamesUnique(db.tags, cleared);
    SameTagsKeepNamesUnique(cleared, tags2);
    db.SetNotesAndTags(db.notes[id := note], tags2, db.nextNoteId, db.nextTagId);
    return Ok(id);
  }

  /** `updateNote` as it runs against the schema. The kept link's old row
      leaves only by orphan removal at flush, while `save` inserts the new
      link for the same (note, tag) pair at once (its id is an IDENTITY
      column). So `ux_note_tags_note_tag` refuses a request that keeps a
      tag the note already has: a Conflict, and the transaction rolls back. */
  function UpdateErrorAsWritten(fs: Folders, notes: Notes, tags: Tags, id: NoteId, req: NoteRequest): (r: Option<Error>)
    ensures r.None? <==> UpdateError(fs, notes, tags, id, req).None? && Listed(Requested(req)) * TagsOf(notes[id]) == {}
    ensures UpdateError(fs, notes, tags, id, req).Some? ==> r == UpdateError(fs, notes, tags, id, req)
    ensures r.Some? && UpdateError(fs, notes, tags, id, req).None? ==> r == Some(Conflict)
  {
    if UpdateError(fs, notes, tags, id, req).Some? then UpdateError(fs, notes, tags, id, req)
    else if Listed(Requested(req)) * TagsOf(notes[id]) != {} then Some(Conflict)
    else None
  }

  /** The most common edit, saving a note with the tag it already has, passes
      every check of UpdateError, yet as written it ends in a Conflict. */
  lemma KeptTagRefused()
    ensures var fs := map[1 := Folder(1, "root", None, true, 0, {})];
      var notes := map[1 := Note("t", None, 1, 0, 0, {Link(1, 1)})];
      var tags := map[1 := Tag(1, "x", 0, {Link(1, 1)})];
      var req := NoteRequest(Some(1), Some("t"), None, Some([1]));
      && UpdateError(fs, notes, tags, 1, req) == None
      && UpdateErrorAsWritten(fs, notes, tags, 1, req) == Some(Conflict)
  {
    var notes := map[1 := Note("t", None, 1, 0, 0, {Link(1, 1)})];
    var req := NoteRequest(Some(1), Some("t"), None, Some([1]));
    assert !IsTrimmed(req.title.value[0]);
    assert 1 in Listed(Requested(req)) * TagsOf(notes[1]);
  }

  /** The intended outcome, which UpdateNote models: on the tag side the
      note ends up linked to exactly the requested tags, whether or not it
      was linked to them before. */
  lemma RelinkReplacesTags(notes: Notes, tags: Tags, id: NoteId, ts: set<TagId>)
    requires LinksMirrored(notes, tags) && id in notes
    ensures forall t :: t in tags ==>
      (Link(id, t) in Tagged(Detached(tags, notes[id].noteTags), id, ts)[t].noteTags <==> t in ts)
  {
    var cleared := Detached(tags, notes[id].noteTags);
    DetachMirrored(notes, tags, id);
    forall t | t in tags
      ensures Link(id, t) in Tagged(cleared, id, ts)[t].noteTags <==> t in ts
    {
      assert Link(id, t) !in cleared[t].noteTags;
    }
  }

  // ---------------------------------------------------------------------
  // deleteNote
  // ---------------------------------------------------------------------

  /** `deleteNote`: NotFound for an unknown note; otherwise the note goes
      and, by the cascade on its link set, so do its links on the tag side. */
  method DeleteNote(db: Db, id: NoteId) returns (r: Option<Error>)
    requires db.Valid()
    modifies db
    ensures db.Valid() && db.OnlyNotesAndTagsChanged()
    ensures db.nextNoteId == old(db.nextNoteId) && db.nextTagId == old(db.nextTagId)
    ensures id !in old(db.notes) ==> r == Some(NotFound) && unchanged(db)
    ensures id in old(db.notes) ==>
      && r == None
      && db.notes == old(db.notes) - {id}
      && db.tags == Detached(old(db.tags), old(db.notes)[id].noteTags)
  {
    if id !in db.notes {
      return Some(NotFound);
    }
    var tags2 := Detached(db.tags, db.notes[id].noteTags);
    DetachMirrored(db.notes, db.tags, id);
    LinkEditsKeepTagRecords(db.tags, id, {}, db.notes[id].noteTags);
    SameTagsKeepNamesUnique(db.tags, tags2);
    db.SetNotesAndTags(db.notes - {id}, tags2, db.nextNoteId, db.nextTagId);
    return None;
  }

  /** Once a note is deleted no tag holds a link to it. */
  lemma DeletedNoteLeavesNoLinks(notes: Notes, tags: Tags, id: NoteId)
    requires LinksMirrored(notes, tags) && id in notes
    ensures NoLinksOf(Detached(tags, notes[id].noteTags), id)
  {
    DetachMirrored(notes, tags, id);
  }
}
