/** The tag service (service/impl/TagServiceImpl.java) over the tag table:
    tags are per user, and a user's tags have distinct names
    (`ux_tag_user_name`). */
module TagService {
  import opened Common
  import opened Entities
  import opened Store

  /** `TagRequestDto`; both fields may be null. */
  datatype TagRequest = TagRequest(userId: Option<UserId>, name: Option<string>)

  /** `validateRequest`: an owner must be given, and the name must hold a
      character that trim does not remove. */
  function ValidateRequest(req: TagRequest): (r: Option<Error>)
    ensures r == None || r == Some(BadRequest)
    ensures r == None <==>
      req.userId.Some? && req.name.Some? && exists i :: 0 <= i < |req.name.value| && !IsTrimmed(req.name.value[i])
  {
    if req.userId.None? then Some(BadRequest)
    else if req.name.None? then Some(BadRequest)
    else
      BlankIffAllTrimmed(req.name.value);
      if IsBlank(req.name.value) then Some(BadRequest) else None
  }

  /** `existsByUser_IdAndName`. */
  predicate NameInUse(tags: Tags, u: UserId, name: string) {
    exists k :: k in tags && tags[k].owner == u && tags[k].name == name
  }

  /** A tag whose name is new for its owner keeps names unique. */
  lemma StoreKeepsNamesUnique(tags: Tags, k: TagId, tag: Tag)
    requires TagNamesUnique(tags) && !NameInUse(tags - {k}, tag.owner, tag.name)
    ensures TagNamesUnique(tags[k := tag])
  {
    var ts := tags[k := tag];
    forall a, b | a in ts && b in ts && a != b && ts[a].owner == ts[b].owner
      ensures ts[a].name != ts[b].name
    {
      if a == k {
        assert b in tags - {k} && ts[b] == tags[b];
      } else if b == k {
        assert a in tags - {k} && ts[a] == tags[a];
      } else {
        assert ts[a] == tags[a] && ts[b] == tags[b];
      }
    }
  }

  /** A tag without links can be added or dropped without breaking the
      mirror between the note side and the tag side. */
  lemma UnlinkedTagMirrored(notes: Notes, tags: Tags, k: TagId, tag: Tag)
    requires LinksMirrored(notes, tags) && tag.noteTags == {} && (k in tags ==> tags[k].noteTags == {})
    ensures LinksMirrored(notes, tags[k := tag])
    ensures LinksMirrored(notes, tags - {k})
  {
    forall n, l | n in notes && l in notes[n].noteTags ensures l.tag != k {
      assert l in tags[l.tag].noteTags;
    }
  }

  /** Storing a tag of a stored user keeps every tag's owner stored. */
  lemma StoreKeepsOwnersStored(users: Users, tags: Tags, k: TagId, tag: Tag)
    requires TagOwnersStored(users, tags) && tag.owner in users
    ensures TagOwnersStored(users, tags[k := tag])
  {
  }

  /** `createTag`: BadRequest for an invalid request, NotFound for an
      unknown user, Conflict when the user already has a tag of that name,
      and otherwise exactly one new tag, without links, under a fresh id. */
  method CreateTag(db: Db, req: TagRequest, now: int) returns (r: Result<TagId>)
    requires db.Valid()
    modifies db
    ensures db.Valid() && db.OnlyNotesAndTagsChanged()
    ensures db.notes == old(db.notes) && db.nextNoteId == old(db.nextNoteId)
    ensures r.Err? ==> unchanged(db)
    ensures ValidateRequest(req).Some? ==> r == Err(BadRequest)
    ensures ValidateRequest(req).None? ==>
      var u := req.userId.value;
      var name := req.name.value;
      && (u !in old(db.users) ==> r == Err(NotFound))
      && (u in old(db.users) && NameInUse(old(db.tags), u, name) ==> r == Err(Conflict))
      && (u in old(db.users) && !NameInUse(old(db.tags), u, name) ==>
            && r == Ok(old(db.nextTagId)) && r.value !in old(db.tags)
            && db.tags == old(db.tags)[r.value := Tag(u, name, now, {})])
  {
    if ValidateRequest(req).Some? {
      return Err(BadRequest);
    }
    var u := req.userId.value;
    var name := req.name.value;
    if u !in db.users {
      return Err(NotFound);
    }
    if NameInUse(db.tags, u, name) {
      return Err(Conflict);
    }
    var k := db.nextTagId;
    var tag := Tag(u, name, now, {});
    var tags2 := db.tags[k := tag];
    assert k !in db.tags && forall j :: j in tags2 ==> j < k + 1;
    assert db.tags - {k} == db.tags;
    StoreKeepsOwnersStored(db.users, db.tags, k, tag);
    StoreKeepsNamesUnique(db.tags, k, tag);
    UnlinkedTagMirrored(db.notes, db.tags, k, tag);
    db.SetNotesAndTags(db.notes, tags2, db.nextNoteId, k + 1);
    return Ok(k);
  }

  /** `getTag`. */
  function GetTag(tags: Tags, id: TagId): (r: Result<Tag>)
    ensures r.Err? <==> id !in tags
    ensures r.Err? ==> r.error == NotFound
    ensures r.Ok? ==> id in tags && r.value == tags[id]
  {
    if id in tags then Ok(tags[id]) else Err(NotFound)
  }

  /** `listTagsByUser`: NotFound for an unknown user, otherwise the user's
      tags in ascending id order (the order the model gives to
      `findByUser_Id`). */
  function ListTagsByUser(users: Users, tags: Tags, u: UserId): (r: Result<seq<(TagId, Tag)>>)
    ensures r.Err? <==> u !in users
    ensures r.Err? ==> r.error == NotFound
    ensures r.Ok? ==>
      && (forall i :: 0 <= i < |r.value| ==> r.value[i].0 in tags && r.value[i].1 == tags[r.value[i].0] && r.value[i].1.owner == u)
      && (forall i, j :: 0 <= i < j < |r.value| ==> r.value[i].0 < r.value[j].0)
  {
    if u !in users then Err(NotFound) else Ok(Entries(tags, OwnedIds(tags, u)))
  }

  /** The ids of the user's tags, ascending. */
  function OwnedIds(tags: Tags, u: UserId): (r: seq<TagId>)
    ensures forall k :: k in r <==> k in tags && tags[k].owner == u
    ensures forall i, j :: 0 <= i < j < |r| ==> r[i] < r[j]
  {
    Ascending(set k | k in tags && tags[k].owner == u)
  }

  /** Every tag of the user is listed. */
  lemma ListTagsByUserComplete(users: Users, tags: Tags, u: UserId, k: TagId)
    requires u in users && k in tags && tags[k].owner == u
    ensures exists i :: 0 <= i < |ListTagsByUser(users, tags, u).value| && ListTagsByUser(users, tags, u).value[i].0 == k
  {
    var ids := OwnedIds(tags, u);
    assert ListTagsByUser(users, tags, u).value[IndexOf(ids, k)].0 == k;
  }

  /** The rename check of `updateTag`: the name is in use for the owner and
      is not the tag's current name. */
  predicate RenameClash(tags: Tags, id: TagId, u: UserId, name: string)
    requires id in tags
  {
    NameInUse(tags, u, name) && tags[id].name != name
  }

  /** With unique names, the rename check fires exactly when another tag of
      the owner has the name; renaming a tag to its own name never clashes. */
  lemma RenameClashIffOtherTag(tags: Tags, id: TagId, name: string)
    requires TagNamesUnique(tags) && id in tags
    ensures RenameClash(tags, id, tags[id].owner, name) <==>
      exists k :: k in tags && k != id && tags[k].owner == tags[id].owner && tags[k].name == name
    ensures !RenameClash(tags, id, tags[id].owner, tags[id].name)
  {
    var u := tags[id].owner;
    if RenameClash(tags, id, u, name) {
      var k :| k in tags && tags[k].owner == u && tags[k].name == name;
      assert k != id;
    }
    if exists k :: k in tags && k != id && tags[k].owner == u && tags[k].name == name {
      var k :| k in tags && k != id && tags[k].owner == u && tags[k].name == name;
      assert tags[id].name != tags[k].name;
    }
  }

  /** `updateTag`: the request, the user, the tag and its owner are
      checked in that order, then the rename check; on success only the
      tag's name changes (its owner, creation time and links stay). */
  method UpdateTag(db: Db, id: TagId, req: TagRequest) returns (r: Result<TagId>)
    requires db.Valid()
    modifies db
    ensures db.Valid() && db.OnlyNotesAndTagsChanged()
    ensures db.notes == old(db.notes) && db.nextNoteId == old(db.nextNoteId) && db.nextTagId == old(db.nextTagId)
    ensures r.Err? ==> unchanged(db)
    ensures ValidateRequest(req).Some? ==> r == Err(BadRequest)
    ensures ValidateRequest(req).None? ==>
      var u := req.userId.value;
      var name := req.name.value;
      var tags := old(db.tags);
      && (u !in old(db.users) ==> r == Err(NotFound))
      && (u in old(db.users) && id !in tags ==> r == Err(NotFound))
      && (u in old(db.users) && id in tags && tags[id].owner != u ==> r == Err(BadRequest))
      && (u in old(db.users) && id in tags && tags[id].owner == u ==>
            && (RenameClash(tags, id, u, name) ==> r == Err(Conflict))
            && (!RenameClash(tags, id, u, name) ==> r == Ok(id) && db.tags == tags[id := tags[id].(name := name)]))
  {
    if ValidateRequest(req).Some? {
      return Err(BadRequest);
    }
    var u := req.userId.value;
    var name := req.name.value;
    if u !in db.users {
      return Err(NotFound);
    }
    if id !in db.tags {
      return Err(NotFound);
    }
    var tag := db.tags[id];
    if tag.owner != u {
      return Err(BadRequest);
    }
    if RenameClash(db.tags, id, u, name) {
      return Err(Conflict);
    }
    var renamed := tag.(name := name);
    RenameKeepsNamesUnique(db.tags, id, name);
    assert renamed.noteTags == tag.noteTags;
    RenameKeepsMirror(db.notes, db.tags, id, name);
    db.SetNotesAndTags(db.notes, db.tags[id := renamed], db.nextNoteId, db.nextTagId);
    return Ok(id);
  }

  /** A rename that passes the check keeps the owner's names distinct. */
  lemma RenameKeepsNamesUnique(tags: Tags, id: TagId, name: string)
    requires TagNamesUnique(tags) && id in tags && !RenameClash(tags, id, tags[id].owner, name)
    ensures TagNamesUnique(tags[id := tags[id].(name := name)])
  {
    var tag := tags[id].(name := name);
    if tags[id].name != name {
      forall k | k in tags - {id} ensures !(tags[k].owner == tag.owner && tags[k].name == name) {
      }
      StoreKeepsNamesUnique(tags, id, tag);
    } else {
      assert tags[id := tag] == tags;
    }
  }

  /** A rename keeps the tag's links, so the mirror stays. */
  lemma RenameKeepsMirror(notes: Notes, tags: Tags, id: TagId, name: string)
    requires LinksMirrored(notes, tags) && id in tags
    ensures LinksMirrored(notes, tags[id := tags[id].(name := name)])
  {
    var ts := tags[id := tags[id].(name := name)];
    forall t | t in ts ensures ts[t].noteTags == tags[t].noteTags {
    }
  }

  /** `deleteTag`: NotFound for an unknown tag. A tag that notes are still
      linked to is referenced by `note_tags` rows, so the delete violates
      the foreign key and is refused with Conflict; otherwise exactly that
      tag goes. */
  method DeleteTag(db: Db, id: TagId) returns (r: Option<Error>)
    requires db.Valid()
    modifies db
    ensures db.Valid() && db.OnlyNotesAndTagsChanged()
    ensures db.notes == old(db.notes) && db.nextNoteId == old(db.nextNoteId) && db.nextTagId == old(db.nextTagId)
    ensures id !in old(db.tags) ==> r == Some(NotFound) && unchanged(db)
    ensures id in old(db.tags) && old(db.tags)[id].noteTags != {} ==> r == Some(Conflict) && unchanged(db)
    ensures id in old(db.tags) && old(db.tags)[id].noteTags == {} ==> r == None && db.tags == old(db.tags) - {id}
  {
    if id !in db.tags {
      return Some(NotFound);
    }
    if db.tags[id].noteTags != {} {
      return Some(Conflict);
    }
    UnlinkedTagMirrored(db.notes, db.tags, id, db.tags[id]);
    RemovalKeepsNamesUnique(db.tags, id);
    db.SetNotesAndTags(db.notes, db.tags - {id}, db.nextNoteId, db.nextTagId);
    return None;
  }

  lemma RemovalKeepsNamesUnique(tags: Tags, id: TagId)
    requires TagNamesUnique(tags)
    ensures TagNamesUnique(tags - {id})
  {
    var ts := tags - {id};
    forall a, b | a in ts && b in ts && a != b && ts[a].owner == ts[b].owner ensures ts[a].name != ts[b].name {
      assert ts[a] == tags[a] && ts[b] == tags[b];
    }
  }

  /** A tag no note is linked to has no links in a mirrored store. */
  lemma UnlinkedIffNoNoteLinks(notes: Notes, tags: Tags, id: TagId)
    requires LinksMirrored(notes, tags) && id in tags
    ensures tags[id].noteTags == {} <==> forall n, l :: n in notes && l in notes[n].noteTags ==> l.tag != id
  {
    if tags[id].noteTags != {} {
      var l :| l in tags[id].noteTags;
      assert l in notes[l.note].noteTags;
    }
  }
}
