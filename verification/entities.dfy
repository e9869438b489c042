/** The persisted records. Each entity is a value stored in a table keyed by
    its id (see module Store); the id is the entity's identity, which is what
    the id-based `equals` of Folder, Note and Tag compares. */
module Entities {
  import opened Common

  /** A user account; only the username matters to the services modelled. */
  datatype User = User(username: string)

  /** A folder (entity/Folder.java). Owner and name are mandatory, the parent
      may be null. `isRoot` marks the single per-user root. `subFolders` is the
      inverse side of the parent link (`mappedBy = "parentFolder"`): the ids of
      the folders whose parent this folder is. */
  datatype Folder = Folder(
    owner: UserId,
    name: string,
    parent: Option<FolderId>,
    isRoot: bool,
    createdAt: int,
    subFolders: set<FolderId>)

  /** A note-tag association (entity/NoteTag.java) once it is stored: both
      references are mandatory, and the pair is its natural key, which the
      table's unique constraint makes its identity. */
  datatype Link = Link(note: NoteId, tag: TagId)

  /** A note (entity/Note.java); `noteTags` is its side of the links. */
  datatype Note = Note(
    title: string,
    content: Option<string>,
    folder: FolderId,
    createdAt: int,
    updatedAt: int,
    noteTags: set<Link>)

  /** A tag (entity/Tag.java) with the tag side of the links. */
  datatype Tag = Tag(
    owner: UserId,
    name: string,
    createdAt: int,
    noteTags: set<Link>)
}
