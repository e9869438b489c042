/** The persistent store the services work on: one table per entity, each a
    map from id to record, and the next id each table's IDENTITY column hands
    out. `Consistent` is what every service operation keeps. */
module Store {
  import opened Common
  import opened Entities
  import opened Hierarchy

  type Users = map<UserId, User>
  type Notes = map<NoteId, Note>
  type Tags = map<TagId, Tag>

  /** The `folder_id` foreign key of a note: its folder is stored. */
  ghost predicate NotesInFolders(notes: Notes, fs: Folders) {
    forall n {:trigger notes[n]} :: n in notes ==> notes[n].folder in fs
  }

  /** A link is on the note side exactly when it is on the tag side, and it
      names the note and the tag that hold it. */
  ghost predicate LinksMirrored(notes: Notes, tags: Tags) {
    && (forall n, l {:trigger l in notes[n].noteTags} ::
          n in notes && l in notes[n].noteTags ==> l.note == n && l.tag in tags && l in tags[l.tag].noteTags)
    && (forall t, l {:trigger l in tags[t].noteTags} ::
          t in tags && l in tags[t].noteTags ==> l.tag == t && l.note in notes && l in notes[l.note].noteTags)
  }

  /** The `ux_tag_user_name` constraint. */
  ghost predicate TagNamesUnique(tags: Tags) {
    forall a, b {:trigger tags[a], tags[b]} ::
      a in tags && b in tags && a != b && tags[a].owner == tags[b].owner ==> tags[a].name != tags[b].name
  }

  /** Usernames identify users. */
  ghost predicate UsernamesUnique(users: Users) {
    forall a, b {:trigger users[a], users[b]} ::
      a in users && b in users && a != b ==> users[a].username != users[b].username
  }

  /** The non-null `fk_folder_user` foreign key: every folder's owner is
      stored. */
  ghost predicate FolderOwnersStored(users: Users, fs: Folders) {
    forall f {:trigger fs[f].owner} :: f in fs ==> fs[f].owner in users
  }

  /** The non-null `fk_tags_user` foreign key: every tag's owner is stored. */
  ghost predicate TagOwnersStored(users: Users, tags: Tags) {
    forall t {:trigger tags[t].owner} :: t in tags ==> tags[t].owner in users
  }

  ghost predicate Consistent(users: Users, fs: Folders, notes: Notes, tags: Tags) {
    && FolderTree(fs)
    && NotesInFolders(notes, fs)
    && LinksMirrored(notes, tags)
    && TagNamesUnique(tags)
    && UsernamesUnique(users)
    && FolderOwnersStored(users, fs)
    && TagOwnersStored(users, tags)
  }

  /** A new folder table that is still a well-formed forest, keeps every
      folder and has only stored owners keeps the whole store consistent. */
  lemma FoldersGrown(users: Users, fs: Folders, fs2: Folders, notes: Notes, tags: Tags)
    requires Consistent(users, fs, notes, tags) && FolderTree(fs2) && fs.Keys <= fs2.Keys
    requires FolderOwnersStored(users, fs2)
    ensures Consistent(users, fs2, notes, tags)
  {
  }

  /** Every folder id and every owner id in the table was handed out
      before the given counters. */
  ghost predicate FoldersIssued(fs: Folders, nextFolder: nat, nextUser: nat) {
    forall k :: k in fs ==> k < nextFolder && fs[k].owner < nextUser
  }

  class Db {
    var users: Users
    var folders: Folders
    var notes: Notes
    var tags: Tags
    var nextUserId: nat
    var nextFolderId: nat
    var nextNoteId: nat
    var nextTagId: nat

    ghost predicate Valid()
      reads this
    {
      && Consistent(users, folders, notes, tags)
      && (forall k :: k in users ==> k < nextUserId)
      && FoldersIssued(folders, nextFolderId, nextUserId)
      && (forall k :: k in notes ==> k < nextNoteId)
      && (forall k :: k in tags ==> k < nextTagId)
    }

    /** Only the folder table and its id counter may have changed. */
    twostate predicate OnlyFoldersChanged()
      reads this
    {
      && users == old(users) && notes == old(notes) && tags == old(tags)
      && nextUserId == old(nextUserId) && nextNoteId == old(nextNoteId) && nextTagId == old(nextTagId)
    }

    /** Replaces the folder table and its counter by ones that keep the
        store consistent. */
    method SetFolders(fs: Folders, next: nat)
      requires Valid()
      requires Consistent(users, fs, notes, tags)
      requires FoldersIssued(fs, next, nextUserId)
      requires nextFolderId <= next
      modifies this
      ensures Valid() && OnlyFoldersChanged()
      ensures folders == fs && nextFolderId == next
    {
      folders, nextFolderId := fs, next;
    }

    /** Only the user table and its id counter may have changed. */
    twostate predicate OnlyUsersChanged()
      reads this
    {
      && folders == old(folders) && notes == old(notes) && tags == old(tags)
      && nextFolderId == old(nextFolderId) && nextNoteId == old(nextNoteId) && nextTagId == old(nextTagId)
    }

    /** Only the note and tag tables and their id counters may have changed. */
    twostate predicate OnlyNotesAndTagsChanged()
      reads this
    {
      && users == old(users) && folders == old(folders)
      && nextUserId == old(nextUserId) && nextFolderId == old(nextFolderId)
    }

    /** Replaces the user table and its counter by ones that keep the
        store consistent. */
    method SetUsers(us: Users, next: nat)
      requires Valid()
      requires UsernamesUnique(us) && FolderOwnersStored(us, folders) && TagOwnersStored(us, tags)
      requires forall k :: k in us ==> k < next
      requires nextUserId <= next
      modifies this
      ensures Valid() && OnlyUsersChanged()
      ensures users == us && nextUserId == next
    {
      users, nextUserId := us, next;
    }

    /** Replaces the note and tag tables and their counters by ones that
        keep the store consistent. */
    method SetNotesAndTags(ns: Notes, ts: Tags, nextNote: nat, nextTag: nat)
      requires Valid()
      requires NotesInFolders(ns, folders) && LinksMirrored(ns, ts) && TagNamesUnique(ts) && TagOwnersStored(users, ts)
      requires forall k :: k in ns ==> k < nextNote
      requires forall k :: k in ts ==> k < nextTag
      requires nextNoteId <= nextNote && nextTagId <= nextTag
      modifies this
      ensures Valid() && OnlyNotesAndTagsChanged()
      ensures notes == ns && tags == ts && nextNoteId == nextNote && nextTagId == nextTag
    {
      notes, tags, nextNoteId, nextTagId := ns, ts, nextNote, nextTag;
    }

    /** An empty store. */
    constructor()
      ensures Valid()
      ensures users == map[] && folders == map[] && notes == map[] && tags == map[]
    {
      users, folders, notes, tags := map[], map[], map[], map[];
      nextUserId, nextFolderId, nextNoteId, nextTagId := 0, 0, 0, 0;
    }
  }
}
