/** The two sides of the note-tag association and the edits the note
    service and entity/Note.java make to them: linking a note to a set of
    tags, dropping links, `Note.addTag` and `Note.removeTag`. Each edit is a
    function of the note and tag tables, proved to keep the two sides
    mirrored. */
module NoteLinks {
  import opened Common
  import opened Entities
  import opened Hierarchy
  import opened Store

  /** The links of note `n` to each tag of `ts`. */
  function LinksOf(n: NoteId, ts: set<TagId>): (ls: set<Link>)
    ensures forall l :: l in ls <==> l.note == n && l.tag in ts
  {
    set t | t in ts :: Link(n, t)
  }

  /** The tag side after every tag of `ts` gained its link to note `n`. */
  function Tagged(tags: Tags, n: NoteId, ts: set<TagId>): (tags2: Tags)
    ensures tags2.Keys == tags.Keys
    ensures forall t :: t in tags ==>
      tags2[t] == tags[t].(noteTags := tags[t].noteTags + (if t in ts then {Link(n, t)} else {}))
  {
    map t | t in tags :: tags[t].(noteTags := tags[t].noteTags + (if t in ts then {Link(n, t)} else {}))
  }

  /** The tag side after each link of `ls` was taken out of the set of
      the tag it names. */
  function Detached(tags: Tags, ls: set<Link>): (tags2: Tags)
    ensures tags2.Keys == tags.Keys
    ensures forall t :: t in tags ==> tags2[t] == tags[t].(noteTags := tags[t].noteTags - LinksTo(ls, t))
  {
    map t | t in tags :: tags[t].(noteTags := tags[t].noteTags - LinksTo(ls, t))
  }

  /** Linking to no tag and detaching no link change nothing. */
  lemma EmptyEditsChangeNothing(tags: Tags, n: NoteId)
    ensures Tagged(tags, n, {}) == tags
    ensures Detached(tags, {}) == tags
  {
    var a := Tagged(tags, n, {});
    forall t | t in tags ensures a[t] == tags[t] {
      assert a[t].noteTags == tags[t].noteTags;
    }
    var b := Detached(tags, {});
    forall t | t in tags ensures b[t] == tags[t] {
      assert LinksTo({}, t) == {};
      assert b[t].noteTags == tags[t].noteTags;
    }
  }

  /** One more tag gives one more link. */
  lemma LinksOfStep(n: NoteId, ts: set<TagId>, t: TagId)
    ensures LinksOf(n, ts + {t}) == LinksOf(n, ts) + {Link(n, t)}
  {
  }

  /** One more tag gains its link. */
  lemma TaggedStep(tags: Tags, n: NoteId, ts: set<TagId>, t: TagId)
    requires t in tags && t !in ts
    ensures Tagged(tags, n, ts + {t}) ==
      Tagged(tags, n, ts)[t := Tagged(tags, n, ts)[t].(noteTags := Tagged(tags, n, ts)[t].noteTags + {Link(n, t)})]
  {
    var a := Tagged(tags, n, ts + {t});
    var b := Tagged(tags, n, ts);
    var c := b[t := b[t].(noteTags := b[t].noteTags + {Link(n, t)})];
    forall u | u in a ensures a[u] == c[u] {
      if u == t {
        assert a[u].noteTags == c[u].noteTags;
      }
    }
    assert a == c;
  }

  /** One more link leaves its tag. */
  lemma DetachedStep(tags: Tags, ls: set<Link>, l: Link)
    requires l !in ls
    ensures l.tag in tags ==> (Detached(tags, ls + {l}) ==
      Detached(tags, ls)[l.tag := Detached(tags, ls)[l.tag].(noteTags := Detached(tags, ls)[l.tag].noteTags - {l})])
    ensures l.tag !in tags ==> Detached(tags, ls + {l}) == Detached(tags, ls)
  {
    var a := Detached(tags, ls + {l});
    var b := Detached(tags, ls);
    forall t | t in tags ensures LinksTo(ls + {l}, t) == LinksTo(ls, t) + (if l.tag == t then {l} else {}) {
    }
    if l.tag in tags {
      var c := b[l.tag := b[l.tag].(noteTags := b[l.tag].noteTags - {l})];
      forall t | t in a ensures a[t] == c[t] {
        if t == l.tag {
          assert a[t].noteTags == c[t].noteTags;
        }
      }
      assert a == c;
    } else {
      forall t | t in a ensures a[t] == b[t] {
        assert a[t].noteTags == b[t].noteTags;
      }
      assert a == b;
    }
  }

  /** Tag records other than their links are never touched by link edits. */
  ghost predicate SameTagsButLinks(tags: Tags, tags2: Tags) {
    && tags2.Keys == tags.Keys
    && forall t :: t in tags ==> tags2[t].(noteTags := {}) == tags[t].(noteTags := {})
  }

  lemma SameTagsKeepOwners(users: Users, tags: Tags, tags2: Tags)
    requires SameTagsButLinks(tags, tags2) && TagOwnersStored(users, tags)
    ensures TagOwnersStored(users, tags2)
  {
    forall t | t in tags2 ensures tags2[t].owner in users {
      assert tags2[t].(noteTags := {}) == tags[t].(noteTags := {});
    }
  }

  lemma LinkEditsKeepTagRecords(tags: Tags, n: NoteId, ts: set<TagId>, ls: set<Link>)
    ensures SameTagsButLinks(tags, Tagged(tags, n, ts))
    ensures SameTagsButLinks(tags, Detached(tags, ls))
  {
  }

  /** Editing only links keeps tag names unique. */
  lemma SameTagsKeepNamesUnique(tags: Tags, tags2: Tags)
    requires SameTagsButLinks(tags, tags2) && TagNamesUnique(tags)
    ensures TagNamesUnique(tags2)
  {
    forall a, b | a in tags2 && b in tags2 && a != b && tags2[a].owner == tags2[b].owner
      ensures tags2[a].name != tags2[b].name
    {
      assert tags2[a].(noteTags := {}) == tags[a].(noteTags := {});
      assert tags2[b].(noteTags := {}) == tags[b].(noteTags := {});
    }
  }

  // ---------------------------------------------------------------------
  // A note gets a fresh set of links
  // ---------------------------------------------------------------------

  /** No tag holds a link of note `n`. */
  ghost predicate NoLinksOf(tags: Tags, n: NoteId) {
    forall t, l {:trigger l in tags[t].noteTags} :: t in tags && l in tags[t].noteTags ==> l.note != n
  }

  /** Once note `n` has no links left, storing it with the links to `ts`
      on both sides keeps the sides mirrored. */
  lemma RelinkMirrored(notes: Notes, tags: Tags, n: NoteId, note: Note, ts: set<TagId>)
    requires LinksMirrored(notes - {n}, tags) && NoLinksOf(tags, n)
    requires ts <= tags.Keys && note.noteTags == LinksOf(n, ts)
    ensures LinksMirrored(notes[n := note], Tagged(tags, n, ts))
  {
    var ns := notes[n := note];
    var tg := Tagged(tags, n, ts);
    forall m, l | m in ns && l in ns[m].noteTags
      ensures l.note == m && l.tag in tg && l in tg[l.tag].noteTags
    {
      if m != n {
        assert ns[m] == (notes - {n})[m];
      }
    }
    forall t, l | t in tg && l in tg[t].noteTags
      ensures l.tag == t && l.note in ns && l in ns[l.note].noteTags
    {
      if l !in tags[t].noteTags {
        assert l == Link(n, t);
      } else {
        assert l.note != n;
        assert ns[l.note] == (notes - {n})[l.note];
      }
    }
  }

  /** Dropping a note's links from the tag side leaves the other notes
      mirrored and no tag holding a link of that note. */
  lemma DetachMirrored(notes: Notes, tags: Tags, n: NoteId)
    requires LinksMirrored(notes, tags) && n in notes
    ensures LinksMirrored(notes - {n}, Detached(tags, notes[n].noteTags))
    ensures NoLinksOf(Detached(tags, notes[n].noteTags), n)
  {
    var ns := notes - {n};
    var tg := Detached(tags, notes[n].noteTags);
    forall m, l | m in ns && l in ns[m].noteTags
      ensures l.note == m && l.tag in tg && l in tg[l.tag].noteTags
    {
      assert l in notes[m].noteTags;
    }
    forall t, l | t in tg && l in tg[t].noteTags ensures l.note != n {
      assert l in tags[t].noteTags && l !in LinksTo(notes[n].noteTags, t);
    }
  }

  /** A note that no link mentions: it can be stored with new links. */
  lemma FreshNoteUnlinked(notes: Notes, tags: Tags, n: NoteId)
    requires LinksMirrored(notes, tags) && n !in notes
    ensures NoLinksOf(tags, n) && notes - {n} == notes
  {
  }

  // ---------------------------------------------------------------------
  // Note.addTag and Note.removeTag
  // ---------------------------------------------------------------------

  /** `note.addTag(tag)`: the link goes into the note's and the tag's set. */
  function TagAdded(notes: Notes, tags: Tags, n: NoteId, t: TagId): (r: (Notes, Tags))
    requires n in notes && t in tags
    ensures r.0.Keys == notes.Keys && r.1.Keys == tags.Keys
    ensures r.0[n].noteTags == notes[n].noteTags + {Link(n, t)}
    ensures r.1[t].noteTags == tags[t].noteTags + {Link(n, t)}
  {
    var l := Link(n, t);
    (notes[n := notes[n].(noteTags := notes[n].noteTags + {l})],
     tags[t := tags[t].(noteTags := tags[t].noteTags + {l})])
  }

  /** The links of `links` to tag `t`. */
  function LinksTo(links: set<Link>, t: TagId): set<Link> {
    set l | l in links && l.tag == t
  }

  /** `note.removeTag(tag)`: every link of the note to that tag leaves both
      sets; the note's links to other tags stay. */
  function TagRemoved(notes: Notes, tags: Tags, n: NoteId, t: TagId): (r: (Notes, Tags))
    requires n in notes && t in tags
    ensures r.0.Keys == notes.Keys && r.1.Keys == tags.Keys
    ensures forall l :: l in r.0[n].noteTags <==> l in notes[n].noteTags && l.tag != t
    ensures r.1[t].noteTags == tags[t].noteTags - LinksTo(notes[n].noteTags, t)
  {
    var gone := LinksTo(notes[n].noteTags, t);
    (notes[n := notes[n].(noteTags := notes[n].noteTags - gone)],
     tags[t := tags[t].(noteTags := tags[t].noteTags - gone)])
  }

  /** Only the note and the tag named change. */
  lemma AddRemoveTouchOnlyTheirPair(notes: Notes, tags: Tags, n: NoteId, t: TagId)
    requires n in notes && t in tags
    ensures forall m :: m in notes && m != n ==> TagAdded(notes, tags, n, t).0[m] == notes[m] && TagRemoved(notes, tags, n, t).0[m] == notes[m]
    ensures forall u :: u in tags && u != t ==> TagAdded(notes, tags, n, t).1[u] == tags[u] && TagRemoved(notes, tags, n, t).1[u] == tags[u]
  {
  }

  /** Adding a tag the note did not have and removing it again restores
      both tables. */
  lemma AddThenRemoveRestores(notes: Notes, tags: Tags, n: NoteId, t: TagId)
    requires LinksMirrored(notes, tags) && n in notes && t in tags
    requires Link(n, t) !in notes[n].noteTags
    ensures var (ns, ts) := TagAdded(notes, tags, n, t); TagRemoved(ns, ts, n, t) == (notes, tags)
  {
    var (ns, ts) := TagAdded(notes, tags, n, t);
    var l := Link(n, t);
    assert LinksTo(ns[n].noteTags, t) == {l} by {
      forall k | k in ns[n].noteTags && k.tag == t ensures k == l {
        assert k.note == n;
      }
    }
    assert l !in tags[t].noteTags;
    assert notes[n].noteTags == ns[n].noteTags - {l};
    assert tags[t].noteTags == ts[t].noteTags - {l};
    var (ns2, ts2) := TagRemoved(ns, ts, n, t);
    assert ns2 == notes;
    assert ts2 == tags;
  }

  /** Both entity methods keep the two sides mirrored. */
  lemma TagAddedMirrored(notes: Notes, tags: Tags, n: NoteId, t: TagId)
    requires LinksMirrored(notes, tags) && n in notes && t in tags
    ensures LinksMirrored(TagAdded(notes, tags, n, t).0, TagAdded(notes, tags, n, t).1)
  {
    var (ns, ts) := TagAdded(notes, tags, n, t);
    forall m, l | m in ns && l in ns[m].noteTags ensures l.note == m && l.tag in ts && l in ts[l.tag].noteTags {
      if l != Link(n, t) {
        assert l in notes[m].noteTags;
      }
    }
    forall u, l | u in ts && l in ts[u].noteTags ensures l.tag == u && l.note in ns && l in ns[l.note].noteTags {
      if l != Link(n, t) {
        assert l in tags[u].noteTags;
      }
    }
  }

  lemma TagRemovedMirrored(notes: Notes, tags: Tags, n: NoteId, t: TagId)
    requires LinksMirrored(notes, tags) && n in notes && t in tags
    ensures LinksMirrored(TagRemoved(notes, tags, n, t).0, TagRemoved(notes, tags, n, t).1)
  {
    var (ns, ts) := TagRemoved(notes, tags, n, t);
    forall m, l | m in ns && l in ns[m].noteTags ensures l.note == m && l.tag in ts && l in ts[l.tag].noteTags {
      assert l in notes[m].noteTags;
    }
    forall u, l | u in ts && l in ts[u].noteTags ensures l.tag == u && l.note in ns && l in ns[l.note].noteTags {
      assert l in tags[u].noteTags;
    }
  }

  /** The entity methods change links only: every note keeps its folder and
      every tag its owner and name. */
  lemma EntityEditsKeepRecords(users: Users, notes: Notes, tags: Tags, fs: Folders, n: NoteId, t: TagId)
    requires n in notes && t in tags && NotesInFolders(notes, fs) && TagNamesUnique(tags) && TagOwnersStored(users, tags)
    ensures NotesInFolders(TagAdded(notes, tags, n, t).0, fs) && TagNamesUnique(TagAdded(notes, tags, n, t).1)
    ensures TagOwnersStored(users, TagAdded(notes, tags, n, t).1)
    ensures NotesInFolders(TagRemoved(notes, tags, n, t).0, fs) && TagNamesUnique(TagRemoved(notes, tags, n, t).1)
    ensures TagOwnersStored(users, TagRemoved(notes, tags, n, t).1)
  {
    var (ns, ts) := TagAdded(notes, tags, n, t);
    assert ts[t].(noteTags := {}) == tags[t].(noteTags := {});
    SameTagsKeepNamesUnique(tags, ts);
    SameTagsKeepOwners(users, tags, ts);
    var (ns2, ts2) := TagRemoved(notes, tags, n, t);
    assert ts2[t].(noteTags := {}) == tags[t].(noteTags := {});
    SameTagsKeepNamesUnique(tags, ts2);
    SameTagsKeepOwners(users, tags, ts2);
  }

  /** `note.addTag(tag)` on the store: one link joins the note's set and
      the tag's set. */
  method AddTag(db: Db, n: NoteId, t: TagId)
    requires db.Valid() && n in db.notes && t in db.tags
    modifies db
    ensures db.Valid() && db.OnlyNotesAndTagsChanged()
    ensures db.nextNoteId == old(db.nextNoteId) && db.nextTagId == old(db.nextTagId)
    ensures (db.notes, db.tags) == TagAdded(old(db.notes), old(db.tags), n, t)
  {
    var nt := Link(n, t);
    var note := db.notes[n];
    var tag := db.tags[t];
    var notes2 := db.notes[n := note.(noteTags := note.noteTags + {nt})];
    var tags2 := db.tags[t := tag.(noteTags := tag.noteTags + {nt})];
    assert (notes2, tags2) == TagAdded(db.notes, db.tags, n, t);
    TagAddedMirrored(db.notes, db.tags, n, t);
    EntityEditsKeepRecords(db.users, db.notes, db.tags, db.folders, n, t);
    db.SetNotesAndTags(notes2, tags2, db.nextNoteId, db.nextTagId);
  }

  /** The `removeIf` pass of `note.removeTag(tag)`: each of the note's
      links to the tag is dropped from the note's set and from the tag's
      set; the links to other tags are kept. */
  method RemoveIf(links: set<Link>, tagLinks: set<Link>, t: TagId) returns (kept: set<Link>, tagSide: set<Link>)
    ensures kept == links - LinksTo(links, t)
    ensures tagSide == tagLinks - LinksTo(links, t)
  {
    var pending := links;
    kept, tagSide := {}, tagLinks;
    while pending != {}
      invariant pending <= links
      invariant kept == links - pending - LinksTo(links, t)
      invariant tagSide == tagLinks - LinksTo(links - pending, t)
      decreases |pending|
    {
      var nt :| nt in pending;
      if nt.tag == t {
        tagSide := tagSide - {nt};
      } else {
        kept := kept + {nt};
      }
      pending := pending - {nt};
    }
  }

  /** `note.removeTag(tag)` on the store. */
  method RemoveTag(db: Db, n: NoteId, t: TagId)
    requires db.Valid() && n in db.notes && t in db.tags
    modifies db
    ensures db.Valid() && db.OnlyNotesAndTagsChanged()
    ensures db.nextNoteId == old(db.nextNoteId) && db.nextTagId == old(db.nextTagId)
    ensures (db.notes, db.tags) == TagRemoved(old(db.notes), old(db.tags), n, t)
  {
    var kept, tagSide := RemoveIf(db.notes[n].noteTags, db.tags[t].noteTags, t);
    var notes2 := db.notes[n := db.notes[n].(noteTags := kept)];
    var tags2 := db.tags[t := db.tags[t].(noteTags := tagSide)];
    assert (notes2, tags2) == TagRemoved(db.notes, db.tags, n, t);
    TagRemovedMirrored(db.notes, db.tags, n, t);
    EntityEditsKeepRecords(db.users, db.notes, db.tags, db.folders, n, t);
    db.SetNotesAndTags(notes2, tags2, db.nextNoteId, db.nextTagId);
  }
}
