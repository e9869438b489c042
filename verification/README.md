# Notes service core in Dafny

A model of the service layer of a notes application (Spring Boot, Java): users
own a tree of folders with one root per user, notes live in folders, and notes
and tags are joined by a many-to-many link table. The model covers the folder
hierarchy service, the note service with its tag links and tag filters, the
note repository queries, the tag service, the user service, and the
`equals`/`hashCode` of the link entity.

The database is one object, `Store.Db`, that holds the four tables as maps from
ids to entity records plus the counters that issue fresh ids. `Db.Valid()` is
the store invariant:
- the folders form a forest with exactly one root, named "root", per user that
  has folders;
- sibling names are unique and `subFolders` mirrors the parent links;
- every note is in a stored folder;
- each link is held on both the note side and the tag side;
- tag names are unique per owner;
- usernames are unique;
- every folder and every tag belongs to a stored user (the non-null
  `fk_folder_user` and `fk_tags_user` foreign keys).

Service operations that change the database are methods that `modifies db`.
Their contracts give every error outcome in the order the code checks, leave
the store unchanged on error, and state the new tables through pure functions
of the old ones (`WithFolder`, `Relocated`, `Without`, `Tagged`, `Detached`,
`TagAdded`, `TagRemoved`). Lemmas about those functions show that the
invariant is kept. Read-only operations and repository queries are functions
over the tables.

Modules, in dependency order:
- `Common`: errors, `Option`/`Result`, `String.trim`, string order, ascending
  id order.
- `Sorting`: a stable insertion sort, which stands for `stream().sorted`.
- `Entities`: the entity records.
- `Hierarchy`: the folder-tree invariant and acyclicity.
- `Traversal`: the name-sorted recursive walk.
- `FolderEdits`: the folder table edits and the lemmas that they keep the tree.
- `Store`: the `Db` class.
- `FolderService`, `FolderViews`, `UserService`, `NoteTagIdentity`,
  `NoteLinks`, `NoteQueries`, `NoteService`, `NoteViews`, `TagService`: the
  services, views and queries.

In these places the model follows the Java code as written:
- `FolderServiceImpl` calls `isRoot`/`setRoot`, which `Folder.java` does not
  declare. The folder record has an `isRoot` flag, as the service uses it.
- `Note.addTag` and `NoteServiceImpl` call `tag.getNoteTags()`, which
  `Tag.java` does not declare. The tag record carries the tag side of the
  links.
- No cascade from folders to notes is declared (`Note.folder` is a plain
  non-null foreign key). So deleting a folder whose subtree holds notes
  violates the foreign key, and the exception handler turns that into 409.
  The model answers Conflict and changes nothing, rather than removing the
  notes.
- Deleting a tag that notes still link to violates the `note_tags` foreign
  key in the same way. The model answers Conflict and changes nothing.

## Model

| member | source | states |
|---|---|---|
| Common.BlankIffAllTrimmed | notesapp/src/main/java/com/tarento/notesapp/service/impl/FolderServiceImpl.java:239 | a string is empty after `trim()` exactly when every character is one `trim()` strips (code point at most U+0020) |
| Hierarchy.AncestorStep | notesapp/src/main/java/com/tarento/notesapp/service/impl/FolderServiceImpl.java:247-258 | for x other than a, a is x or an ancestor of x exactly when x has a parent and a is that parent or one of its ancestors: one step of the upward walk |
| Hierarchy.ParentNotDescendant | notesapp/src/main/java/com/tarento/notesapp/service/impl/FolderServiceImpl.java:126-129 | in an acyclic table no folder is its own parent's ancestor-or-self |
| Hierarchy.OwnerRoot | notesapp/src/main/java/com/tarento/notesapp/service/AuthService.java:46-53 | in a well-formed table every folder lies below a root folder of its own owner |
| Hierarchy.RootSubtreeIsOwnerFolders | notesapp/src/main/java/com/tarento/notesapp/service/impl/FolderServiceImpl.java:170-182 | the folders below a user's root are exactly that user's folders |
| Hierarchy.MovePreservesAcyclic | notesapp/src/main/java/com/tarento/notesapp/service/impl/FolderServiceImpl.java:126-150 | re-parenting a folder under a folder outside its subtree keeps every upward walk finite |
| Hierarchy.RemovalPreservesAcyclic | notesapp/src/main/java/com/tarento/notesapp/entity/Folder.java:40-42 | removing a folder's subtree keeps the rest acyclic |
| Hierarchy.ExtensionPreservesAcyclic | notesapp/src/main/java/com/tarento/notesapp/service/impl/FolderServiceImpl.java:59-67 | adding a fresh folder whose parent is stored keeps the table acyclic |
| Traversal.SortedByName | notesapp/src/main/java/com/tarento/notesapp/service/impl/FolderServiceImpl.java:219-221 | the sub-folder set sorted by name: a permutation of the set in ascending id order, without repeats, names non-decreasing |
| Traversal.ChildrenByName | notesapp/src/main/java/com/tarento/notesapp/service/impl/FolderServiceImpl.java:229-231 | the children listed at one level are exactly the stored sub-folders, in name order |
| Traversal.SubtreeExact | notesapp/src/main/java/com/tarento/notesapp/service/impl/FolderServiceImpl.java:212-223 | the recursive walk from a folder visits exactly the folders of its subtree |
| Traversal.SubtreeLevelsOrdered | notesapp/src/main/java/com/tarento/notesapp/service/impl/FolderServiceImpl.java:219-221 | every level of the walk lists its children in ascending name order |
| FolderEdits.FindRoot | notesapp/src/main/java/com/tarento/notesapp/service/impl/FolderServiceImpl.java:199 | `findByUser_IdAndRootTrue`: Some root folder of the user exactly when one exists |
| FolderEdits.FindRootUnique | notesapp/src/main/java/com/tarento/notesapp/service/impl/FolderServiceImpl.java:199-208 | with one root per user, the lookup returns that root |
| FolderEdits.WithFolderShape | notesapp/src/main/java/com/tarento/notesapp/service/impl/FolderServiceImpl.java:59-67 | saving a new folder adds exactly its id, adds it to its parent's subFolders, and changes nothing else |
| FolderEdits.StoreKeepsTree | notesapp/src/main/java/com/tarento/notesapp/service/impl/FolderServiceImpl.java:53-69 | a folder that passes the create checks keeps the table a well-formed forest (one root per user, unique sibling names, mirrored subFolders, acyclic) |
| FolderEdits.RelocatedShape | notesapp/src/main/java/com/tarento/notesapp/service/impl/FolderServiceImpl.java:142-152 | a move changes the folder's name and parent, takes it out of the old parent's subFolders and into the new parent's, and changes nothing else |
| FolderEdits.RelocateKeepsTree | notesapp/src/main/java/com/tarento/notesapp/service/impl/FolderServiceImpl.java:126-152 | a move that passes the descendant and sibling-name checks keeps the table a well-formed forest |
| FolderEdits.SubtreeIdsAreDescendants | notesapp/src/main/java/com/tarento/notesapp/entity/Folder.java:40-42 | the cascade removes exactly the folder and its descendants |
| FolderEdits.WithoutShape | notesapp/src/main/java/com/tarento/notesapp/entity/Folder.java:40-42 | after the cascade the removed ids are gone, the parent no longer lists the folder, and other records are unchanged |
| FolderEdits.RemoveKeepsTree | notesapp/src/main/java/com/tarento/notesapp/service/impl/FolderServiceImpl.java:157-167 | removing a non-root folder's subtree keeps the table a well-formed forest |
| FolderService.ValidateCreateRequest | notesapp/src/main/java/com/tarento/notesapp/service/impl/FolderServiceImpl.java:235-242 | BadRequest exactly when the user id is null or the name is null or blank after trim |
| FolderService.RootEnsured | notesapp/src/main/java/com/tarento/notesapp/service/impl/FolderServiceImpl.java:198-209 | an existing root is returned and nothing changes; otherwise exactly one parentless folder named "root" with isRoot is added, and it is the root found afterwards |
| FolderService.RootIdempotent | notesapp/src/main/java/com/tarento/notesapp/service/impl/FolderServiceImpl.java:198-209 | ensuring the root twice gives the same table and the same root as ensuring it once |
| FolderService.GetOrCreateRootFolder | notesapp/src/main/java/com/tarento/notesapp/service/impl/FolderServiceImpl.java:198-209 | the returned id is the user's root afterwards; a second fresh id is used only when the user had no root |
| FolderService.AssertNotMovingIntoDescendant | notesapp/src/main/java/com/tarento/notesapp/service/impl/FolderServiceImpl.java:247-258 | the loop up the parent chain fails with BadRequest exactly when the folder is the new parent or one of its ancestors |
| FolderService.FreshRootIsEmpty | notesapp/src/main/java/com/tarento/notesapp/service/impl/FolderServiceImpl.java:53-57 | a root just created has no child of any name, so the sibling check cannot fail under it |
| FolderService.StoreUnder | notesapp/src/main/java/com/tarento/notesapp/service/impl/FolderServiceImpl.java:53-69 | Conflict with no change when the user has that name under the parent, otherwise the new non-root folder under the parent with a fresh id |
| FolderService.CreateFolder | notesapp/src/main/java/com/tarento/notesapp/service/impl/FolderServiceImpl.java:30-71 | BadRequest for an invalid request, NotFound for an unknown user or parent, BadRequest for another user's parent, Conflict for a taken name, otherwise exactly one new non-root folder under the resolved parent; no change on error |
| FolderService.UpdateClashIffOtherSibling | notesapp/src/main/java/com/tarento/notesapp/service/impl/FolderServiceImpl.java:131-140 | the two-step clash test fails exactly when a different folder under the new parent has the name |
| FolderService.KeepingNameNeverClashes | notesapp/src/main/java/com/tarento/notesapp/service/impl/FolderServiceImpl.java:131-140 | keeping a folder's own name under its own parent never clashes |
| FolderService.RelocationKeepsStore | notesapp/src/main/java/com/tarento/notesapp/service/impl/FolderServiceImpl.java:142-153 | a checked move keeps the whole store consistent |
| FolderService.MoveAndRename | notesapp/src/main/java/com/tarento/notesapp/service/impl/FolderServiceImpl.java:131-153 | Conflict with no change when another sibling has the name, otherwise the folder renamed and re-parented |
| FolderService.UpdateFolder | notesapp/src/main/java/com/tarento/notesapp/service/impl/FolderServiceImpl.java:91-155 | errors in the order request, user, folder, root, owner, new parent missing or foreign, descendant, sibling name; on success only the move and rename; no change on error |
| FolderService.DeleteRemovesSubtree | notesapp/src/main/java/com/tarento/notesapp/entity/Folder.java:40-42 | the cascade removes exactly the folder's descendants and keeps the forest well formed |
| FolderService.DeleteFolder | notesapp/src/main/java/com/tarento/notesapp/service/impl/FolderServiceImpl.java:157-167 | NotFound for an unknown id, BadRequest for a root, Conflict when a note is in the subtree, otherwise exactly the subtree goes |
| FolderViews.ToDto | notesapp/src/main/java/com/tarento/notesapp/service/impl/FolderServiceImpl.java:212-223 | the DTO carries the folder's fields and every level lists sub-folders by name |
| FolderViews.ToDtoShowsSubtree | notesapp/src/main/java/com/tarento/notesapp/service/impl/FolderServiceImpl.java:212-223 | the nested DTO holds exactly the folder's descendants |
| FolderViews.GetFolder | notesapp/src/main/java/com/tarento/notesapp/service/impl/FolderServiceImpl.java:73-78 | NotFound exactly for an unknown id, otherwise the folder's nested DTO (`ToDto`): its own record on top, every level in name order |
| FolderViews.GetFolderShowsSubtree | notesapp/src/main/java/com/tarento/notesapp/service/impl/FolderServiceImpl.java:73-78 | in a well-formed table the folder `getFolder` returns holds exactly the folder's subtree |
| FolderViews.ListChildren | notesapp/src/main/java/com/tarento/notesapp/service/impl/FolderServiceImpl.java:184-195 | NotFound exactly for an unknown parent, otherwise the DTOs of exactly its children, each once, in name order |
| FolderViews.GetUserRootFolders | notesapp/src/main/java/com/tarento/notesapp/service/impl/FolderServiceImpl.java:80-88 | NotFound exactly when the user has no root, otherwise the DTOs of exactly the root's children |
| FolderViews.TreeOfKeepsWalk | notesapp/src/main/java/com/tarento/notesapp/service/impl/FolderServiceImpl.java:225-233 | the tree view keeps the ids and the name order of the walk |
| FolderViews.GetFolderTree | notesapp/src/main/java/com/tarento/notesapp/service/impl/FolderServiceImpl.java:169-182 | NotFound exactly when the user has no root, otherwise a tree labelled "root" at the root's id, name-ordered at every level |
| FolderViews.FolderTreeIsOwnersFolders | notesapp/src/main/java/com/tarento/notesapp/service/impl/FolderServiceImpl.java:169-182 | the tree holds exactly the user's folders |
| UserService.GetUser | notesapp/src/main/java/com/tarento/notesapp/service/impl/UserServiceImpl.java:25-30 | NotFound exactly for an unknown id |
| UserService.ListUsers | notesapp/src/main/java/com/tarento/notesapp/service/impl/UserServiceImpl.java:32-38 | stored users only, in ascending id order |
| UserService.ListUsersComplete | notesapp/src/main/java/com/tarento/notesapp/service/impl/UserServiceImpl.java:32-38 | every stored user is listed |
| UserService.FindByUsername | notesapp/src/main/java/com/tarento/notesapp/service/impl/UserServiceImpl.java:73-78 | NotFound exactly when no user has the name, otherwise a user with that name |
| UserService.FindByUsernameUnique | notesapp/src/main/java/com/tarento/notesapp/service/impl/UserServiceImpl.java:73-78 | with unique usernames the lookup finds the user that has the name |
| UserService.RenameKeepsUnique | notesapp/src/main/java/com/tarento/notesapp/service/impl/UserServiceImpl.java:45-51 | a rename that passes the clash check keeps usernames unique |
| UserService.RemovalKeepsUnique | notesapp/src/main/java/com/tarento/notesapp/service/impl/UserServiceImpl.java:65-71 | removing a user keeps usernames unique |
| UserService.UpdateUser | notesapp/src/main/java/com/tarento/notesapp/service/impl/UserServiceImpl.java:40-63 | NotFound for an unknown id; the same username changes nothing; a new name held by any user is Conflict; otherwise only this user's name changes |
| UserService.DeleteUser | notesapp/src/main/java/com/tarento/notesapp/service/impl/UserServiceImpl.java:65-71 | NotFound with no change for an unknown id; Conflict with no change while a folder or tag of the user exists (the foreign keys refuse the delete, and the handler maps that to 409); otherwise exactly that user goes and the store stays consistent |
| UserService.RootOwnerBlocksDelete | notesapp/src/main/java/com/tarento/notesapp/service/impl/UserServiceImpl.java:65-71 | a user who has a root folder, as every registered user does, owns rows, so deleting that user is a Conflict |
| UserService.FreshUserHasNoRoot | notesapp/src/main/java/com/tarento/notesapp/service/AuthService.java:45-53 | a freshly issued user id owns no folder yet |
| UserService.Register | notesapp/src/main/java/com/tarento/notesapp/service/AuthService.java:32-53 | Conflict with no change for a taken username, otherwise one new user and exactly one root folder named "root" for it |
| NoteTagIdentity.EqualsReflexive | notesapp/src/main/java/com/tarento/notesapp/entity/NoteTag.java:33-46 | equals is reflexive |
| NoteTagIdentity.EqualsSymmetric | notesapp/src/main/java/com/tarento/notesapp/entity/NoteTag.java:37-45 | equals is symmetric |
| NoteTagIdentity.EqualsCases | notesapp/src/main/java/com/tarento/notesapp/entity/NoteTag.java:37-45 | two saved links are equal iff their ids are; otherwise iff their (noteId, tagId) pairs are, a missing side counting as null |
| NoteTagIdentity.EqualHashWhenSameState | notesapp/src/main/java/com/tarento/notesapp/entity/NoteTag.java:48-54 | two unsaved links with the same pair hash alike, so a hash set keeps one of them |
| NoteTagIdentity.LongHashSmall | notesapp/src/main/java/com/tarento/notesapp/entity/NoteTag.java:50 | `Long.hashCode` of an id below 2^32, the hash of a saved link, is the id itself |
| NoteTagIdentity.HashContractBroken | notesapp/src/main/java/com/tarento/notesapp/entity/NoteTag.java:33-54 | there is a saved and an unsaved link that are equal but hash differently |
| NoteTagIdentity.EqualsNotTransitive | notesapp/src/main/java/com/tarento/notesapp/entity/NoteTag.java:37-45 | there are three links with a equal to b, b equal to c, and a not equal to c |
| NoteTagIdentity.KeyIdentityLawful | notesapp/src/main/java/com/tarento/notesapp/entity/NoteTag.java:9-10 | equality and hash on the (noteId, tagId) key are an equivalence with equal hashes for equal links |
| NoteTagIdentity.StoredLinksAgree | notesapp/src/main/java/com/tarento/notesapp/entity/NoteTag.java:9-30 | for rows loaded from the table (ids set, pairs unique, references mandatory) id equality and key equality coincide |
| NoteLinks.LinksOf | notesapp/src/main/java/com/tarento/notesapp/service/impl/NoteServiceImpl.java:69-78 | the note's new links: one link (note, t) for each t of the set and nothing else |
| NoteLinks.Tagged | notesapp/src/main/java/com/tarento/notesapp/service/impl/NoteServiceImpl.java:181-189 | the tag side after linking: each tag of the set gains exactly the link to the note, other tags keep their links |
| NoteLinks.Detached | notesapp/src/main/java/com/tarento/notesapp/service/impl/NoteServiceImpl.java:169-179 | the tag side after clearing: each tag loses exactly the given links that point at it |
| NoteLinks.TagAdded | notesapp/src/main/java/com/tarento/notesapp/entity/Note.java:55-61 | addTag: the note and the tag each gain the link (note, tag) |
| NoteLinks.TagRemoved | notesapp/src/main/java/com/tarento/notesapp/entity/Note.java:63-73 | removeTag: the note keeps exactly its links to other tags, and the tag loses the note's links to it |
| NoteLinks.AddRemoveTouchOnlyTheirPair | notesapp/src/main/java/com/tarento/notesapp/entity/Note.java:55-73 | addTag and removeTag leave every other note and every other tag unchanged |
| NoteLinks.AddThenRemoveRestores | notesapp/src/main/java/com/tarento/notesapp/entity/Note.java:55-73 | for a tag not yet linked, addTag then removeTag restores both tables |
| NoteLinks.TagAddedMirrored | notesapp/src/main/java/com/tarento/notesapp/entity/Note.java:55-61 | addTag keeps each link on both the note side and the tag side |
| NoteLinks.TagRemovedMirrored | notesapp/src/main/java/com/tarento/notesapp/entity/Note.java:63-73 | removeTag keeps each link on both sides |
| NoteLinks.EntityEditsKeepRecords | notesapp/src/main/java/com/tarento/notesapp/entity/Note.java:55-73 | both edits keep notes in stored folders, tag names unique and tag owners stored |
| NoteLinks.AddTag | notesapp/src/main/java/com/tarento/notesapp/entity/Note.java:55-61 | the stored note and tag become those of addTag, and the store stays consistent |
| NoteLinks.RemoveIf | notesapp/src/main/java/com/tarento/notesapp/entity/Note.java:64-72 | the `removeIf` loop keeps exactly the links to other tags and takes the removed links out of the tag's set |
| NoteLinks.RemoveTag | notesapp/src/main/java/com/tarento/notesapp/entity/Note.java:63-73 | the stored note and tag become those of removeTag, and the store stays consistent |
| NoteLinks.RelinkMirrored | notesapp/src/main/java/com/tarento/notesapp/service/impl/NoteServiceImpl.java:181-189 | storing a note with links to a set of tags, and those tags with the links, keeps the two sides mirrored |
| NoteLinks.DetachMirrored | notesapp/src/main/java/com/tarento/notesapp/service/impl/NoteServiceImpl.java:169-179 | clearing a note's links from its tags leaves no link of the note on the tag side |
| NoteLinks.FreshNoteUnlinked | notesapp/src/main/java/com/tarento/notesapp/entity/Note.java:46-47 | in a consistent store no tag holds a link of a fresh note id |
| NoteQueries.ByFolder | notesapp/src/main/java/com/tarento/notesapp/repository/NoteRepository.java:14 | exactly the notes whose folder has the id |
| NoteQueries.ByUser | notesapp/src/main/java/com/tarento/notesapp/repository/NoteRepository.java:16-19 | exactly the notes in a stored folder of the user |
| NoteQueries.ByTagAndUser | notesapp/src/main/java/com/tarento/notesapp/repository/NoteRepository.java:21 | exactly the user's notes that carry the tag |
| NoteQueries.AnyTag | notesapp/src/main/java/com/tarento/notesapp/repository/NoteRepository.java:25-37 | only notes of the user |
| NoteQueries.AllTags | notesapp/src/main/java/com/tarento/notesapp/repository/NoteRepository.java:39-54 | only notes the OR query also returns |
| NoteQueries.ListedSize | notesapp/src/main/java/com/tarento/notesapp/repository/NoteRepository.java:48 | a list has at most as many distinct ids as entries, and exactly as many iff it has no repeats |
| NoteQueries.AllTagsIffEvery | notesapp/src/main/java/com/tarento/notesapp/repository/NoteRepository.java:39-54 | for a list without repeats, AND selects exactly the user's notes that carry every listed tag (and the list is non-empty) |
| NoteQueries.DuplicateSelectsNothing | notesapp/src/main/java/com/tarento/notesapp/repository/NoteRepository.java:48 | a list with a repeated id makes the AND query select nothing |
| NoteQueries.AnyTagIsUnion | notesapp/src/main/java/com/tarento/notesapp/repository/NoteRepository.java:25-37 | OR selects exactly the notes the single-tag query selects for some listed id |
| NoteQueries.AllTagsIsIntersection | notesapp/src/main/java/com/tarento/notesapp/repository/NoteRepository.java:39-54 | for a non-empty list without repeats, AND selects exactly the notes every single-tag query selects |
| NoteQueries.UnlinkedNeverSelected | notesapp/src/main/java/com/tarento/notesapp/repository/NoteRepository.java:29-30 | a note without links is selected by neither multi-tag query |
| NoteQueries.Newest | notesapp/src/main/java/com/tarento/notesapp/service/impl/NoteServiceImpl.java:96-98 | a listing is a permutation of the query result, each note once, updatedAt non-increasing |
| NoteService.ValidateRequest | notesapp/src/main/java/com/tarento/notesapp/service/impl/NoteServiceImpl.java:295-302 | BadRequest exactly when folderId is null or the title is null or blank after trim |
| NoteService.TagCheck | notesapp/src/main/java/com/tarento/notesapp/service/impl/NoteServiceImpl.java:51-58 | none exactly when every id names a tag of the user; otherwise the first failing id in list order gives NotFound if missing and BadRequest if foreign |
| NoteService.ResolveTags | notesapp/src/main/java/com/tarento/notesapp/service/impl/NoteServiceImpl.java:49-59 | the loop fails exactly as the tag check says, otherwise resolves the set of listed ids, duplicates collapsed, all stored |
| NoteService.AttachLinks | notesapp/src/main/java/com/tarento/notesapp/service/impl/NoteServiceImpl.java:69-78 | the loop produces the note's links to exactly the resolved tags and adds each to its tag |
| NoteService.ClearLinks | notesapp/src/main/java/com/tarento/notesapp/service/impl/NoteServiceImpl.java:169-179 | the iterator loop empties the note's set and removes each link from its own tag |
| NoteService.CreateError | notesapp/src/main/java/com/tarento/notesapp/service/impl/NoteServiceImpl.java:35-59 | createNote fails exactly when the request is invalid, the folder or its user is missing, or a tag is missing or foreign |
| NoteService.CreateNote | notesapp/src/main/java/com/tarento/notesapp/service/impl/NoteServiceImpl.java:35-82 | the error of the checks with no change, or one new note in the folder whose links are exactly the requested tags, each link on both sides |
| NoteService.UpdateError | notesapp/src/main/java/com/tarento/notesapp/service/impl/NoteServiceImpl.java:128-160 | the checks of lines 129-160 fail exactly when the request is invalid, the note or folder is missing, the move crosses users, or a tag is missing or foreign; the 409 of a kept tag is in `UpdateErrorAsWritten` |
| NoteService.UpdateNote | notesapp/src/main/java/com/tarento/notesapp/service/impl/NoteServiceImpl.java:128-193 | the error with no change, or the note with new fields, createdAt kept, and links exactly the requested tags; old links removed from both sides |
| NoteService.UpdateErrorAsWritten | notesapp/src/main/java/com/tarento/notesapp/service/impl/NoteServiceImpl.java:168-191 | as the code runs against the unique constraint: the errors of UpdateError, otherwise Conflict exactly when a requested tag is already linked to the note |
| NoteService.KeptTagRefused | notesapp/src/main/java/com/tarento/notesapp/service/impl/NoteServiceImpl.java:168-191 | a note saved again with its one tag passes every check of UpdateError, yet as written ends in Conflict |
| NoteService.RelinkReplacesTags | notesapp/src/main/java/com/tarento/notesapp/service/impl/NoteServiceImpl.java:168-188 | after the clear and attach loops a tag holds the note's link exactly when it was requested, whether it was linked before or not |
| NoteService.DeleteNote | notesapp/src/main/java/com/tarento/notesapp/service/impl/NoteServiceImpl.java:251-256 | NotFound with no change for an unknown id, otherwise the note and all its links go (orphan removal) |
| NoteService.DeletedNoteLeavesNoLinks | notesapp/src/main/java/com/tarento/notesapp/entity/Note.java:46-47 | after the delete no tag holds a link of the note |
| NoteViews.TagsByName | notesapp/src/main/java/com/tarento/notesapp/service/impl/NoteServiceImpl.java:279 | the tag ids, each once, ordered by name |
| NoteViews.NoteTagBriefs | notesapp/src/main/java/com/tarento/notesapp/service/impl/NoteServiceImpl.java:269-282 | a brief of exactly each stored tag the note carries, once each, with its name, sorted by name |
| NoteViews.GetNote | notesapp/src/main/java/com/tarento/notesapp/service/impl/NoteServiceImpl.java:84-89 | NotFound exactly for an unknown id, otherwise the note's DTO (`ToDto`): its id, title, content, folder and both timestamps, and briefs of exactly its stored tags in name order |
| NoteViews.SummariesOfNewest | notesapp/src/main/java/com/tarento/notesapp/service/impl/NoteServiceImpl.java:96-100 | the summaries of the sorted query are a newest-first listing of it |
| NoteViews.ListNotesByFolder | notesapp/src/main/java/com/tarento/notesapp/service/impl/NoteServiceImpl.java:91-101 | NotFound exactly for an unknown folder, otherwise the folder's notes newest first |
| NoteViews.ListNotesByUser | notesapp/src/main/java/com/tarento/notesapp/service/impl/NoteServiceImpl.java:103-113 | NotFound exactly for an unknown user, otherwise the user's notes newest first |
| NoteViews.ListFullNotesByUser | notesapp/src/main/java/com/tarento/notesapp/service/impl/NoteServiceImpl.java:115-125 | the full DTOs of the same notes in the same order as listNotesByUser |
| NoteViews.ListNotesByTagAndUser | notesapp/src/main/java/com/tarento/notesapp/service/impl/NoteServiceImpl.java:195-217 | NotFound for an unknown user, then for an unknown tag, BadRequest for another user's tag, otherwise the user's notes with the tag newest first |
| NoteViews.OrModeIff | notesapp/src/main/java/com/tarento/notesapp/service/impl/NoteServiceImpl.java:236 | `"OR".equalsIgnoreCase(mode)` holds exactly for a non-null two-letter mode whose letters are o and r in any case |
| NoteViews.OrModeSpellings | notesapp/src/main/java/com/tarento/notesapp/service/impl/NoteServiceImpl.java:236 | "OR", "or" and "Or" select OR mode; null, "AND" and "OR " do not |
| NoteViews.FilterNotesByTags | notesapp/src/main/java/com/tarento/notesapp/service/impl/NoteServiceImpl.java:219-247 | NotFound exactly for an unknown user; all the user's notes for null or empty ids; the OR query when the mode is "OR" ignoring case; the AND query otherwise; newest first |
| NoteViews.FilterSelects | notesapp/src/main/java/com/tarento/notesapp/service/impl/NoteServiceImpl.java:235-241 | for a non-empty list without repeats a note is listed iff it is the user's and carries some (OR) or every (AND) listed tag |
| NoteViews.FilterWithDuplicateIsEmpty | notesapp/src/main/java/com/tarento/notesapp/service/impl/NoteServiceImpl.java:238-241 | AND mode with a repeated id lists nothing |
| TagService.ValidateRequest | notesapp/src/main/java/com/tarento/notesapp/service/impl/TagServiceImpl.java:117-124 | BadRequest exactly when userId is null or the name is null or blank after trim |
| TagService.StoreKeepsNamesUnique | notesapp/src/main/java/com/tarento/notesapp/entity/Tag.java:9-11 | storing a tag whose name is new for its owner keeps (owner, name) unique |
| TagService.UnlinkedTagMirrored | notesapp/src/main/java/com/tarento/notesapp/service/impl/TagServiceImpl.java:43-49 | adding or removing a tag without links keeps the link sides mirrored |
| TagService.CreateTag | notesapp/src/main/java/com/tarento/notesapp/service/impl/TagServiceImpl.java:28-50 | BadRequest, then NotFound for an unknown user, then Conflict for a name the user has; otherwise exactly one new link-free tag of the user with that name; no change on error |
| TagService.GetTag | notesapp/src/main/java/com/tarento/notesapp/service/impl/TagServiceImpl.java:52-57 | NotFound exactly for an unknown id |
| TagService.ListTagsByUser | notesapp/src/main/java/com/tarento/notesapp/service/impl/TagServiceImpl.java:59-69 | NotFound exactly for an unknown user, otherwise only that user's tags, ascending by id |
| TagService.ListTagsByUserComplete | notesapp/src/main/java/com/tarento/notesapp/service/impl/TagServiceImpl.java:59-69 | every tag of the user is listed |
| TagService.RenameClashIffOtherTag | notesapp/src/main/java/com/tarento/notesapp/service/impl/TagServiceImpl.java:89-93 | with unique names the rename check fails exactly when another tag of the owner has the name; a tag's own name never clashes |
| TagService.UpdateTag | notesapp/src/main/java/com/tarento/notesapp/service/impl/TagServiceImpl.java:71-98 | BadRequest, NotFound for the user, then for the tag, BadRequest for another owner, Conflict on a clash; otherwise only the name changes and createdAt stays |
| TagService.RenameKeepsNamesUnique | notesapp/src/main/java/com/tarento/notesapp/service/impl/TagServiceImpl.java:89-96 | a rename that passes the check keeps (owner, name) unique |
| TagService.RenameKeepsMirror | notesapp/src/main/java/com/tarento/notesapp/service/impl/TagServiceImpl.java:95 | a rename keeps the link sides mirrored |
| TagService.DeleteTag | notesapp/src/main/java/com/tarento/notesapp/service/impl/TagServiceImpl.java:100-105 | NotFound for an unknown id, Conflict with no change while notes link to the tag, otherwise exactly that tag goes |
| TagService.RemovalKeepsNamesUnique | notesapp/src/main/java/com/tarento/notesapp/service/impl/TagServiceImpl.java:100-105 | removing a tag keeps (owner, name) unique |
| TagService.UnlinkedIffNoNoteLinks | notesapp/src/main/java/com/tarento/notesapp/service/impl/TagServiceImpl.java:100-105 | a tag has no links iff no note links to it |

## Left out

- Controllers, authentication (passwords, JWT, roles), CORS and security
  configuration are not modelled. Registration is modelled only as far as it
  adds a user and that user's root folder (`UserService.Register`).
- The controller's default mode "AND" is folded into the service: every mode
  other than "OR" ignoring case is AND mode.
- Error bodies and messages are not modelled: an error is NotFound,
  BadRequest or Conflict.
- Timestamps: `LocalDateTime.now()` is a caller-supplied integer `now`.
- Transactions and concurrency: every operation is atomic and sequential.
  The check-then-insert races on root creation and name uniqueness are not
  modelled.
- Persistence mechanics (lazy loading, flush order, orphan-removal timing)
  are not modelled. Ids are unbounded naturals issued by counters, not
  64-bit `Long`s.
- The iteration order of hash sets and the row order of queries without
  `ORDER BY` are modelled as ascending id.
- String comparison is by code point. `equalsIgnoreCase` folds ASCII letters
  only, which decides every spelling of "OR".
- The `nullsLast` comparator in the note DTO is not modelled, because tag
  names are mandatory.
- The "Cannot resolve user for tags" branch of `updateNote` is not modelled.
  A stored folder always has an owner, so that branch is unreachable.
- The note DTO's tag list is empty when the note has no tags. The default
  value of that DTO field is not modelled.
- `removeTag` also clears the removed link's note and tag references
  (`setNote(null)`). Links are values here, so there is nothing to clear.
- The `this == o` shortcut of `NoteTag.equals` is not modelled separately.
  Values have no identity beyond their fields, and reflexivity is proved
  instead.
- Folder, Note and Tag equality compares ids. Entities are values stored
  under their ids, so a map key is their identity.
- `deleteUser` of a user who still owns folders or tags is modelled as a
  Conflict, as the foreign keys on folders and tags refuse it. `User.java` is
  not part of this model. A cascade declared there would instead remove the
  user's folders, notes and tags, and that is not modelled.
- `updateUser` with a null username is not modelled: the username is a
  string, not an optional one.
- Response DTOs of users, tags and folders other than the fields listed in
  the table are not modelled.
- Sorting.SortBy: inserts each element ahead of the equal ones that follow
  it, as Java's stable sort keeps ties in order. The contract proves that the
  result is sorted and a permutation, but no lemma proves the order of ties.
- TagAdded: adding a tag the note already links to changes nothing, because a
  link is the value (note, tag). In `Note.addTag` a fresh `NoteTag` object
  hashes differently from the saved one (the first finding below), so both stay in
  the hash sets. Flushing them would then violate the `ux_note_tags_note_tag`
  unique constraint. That outcome is not modelled.
- AddTag: inherits the gap of `TagAdded` for a tag that is already linked.
- UpdateNote: succeeds for a request that keeps a tag the note already has,
  the intended behaviour. As written, that request ends in a 409 with nothing
  changed: the new link row is inserted before the old one is deleted, and
  `ux_note_tags_note_tag` refuses it (the second finding below,
  `UpdateErrorAsWritten`).
- UpdateFolder: keeps the moved folder and only changes its parent and name.
  In the code the move takes the folder out of the old parent's `subFolders`,
  a collection with `orphanRemoval = true` (`Folder.java` line 40), and adds it
  to the new parent's. Jakarta Persistence leaves such a reassigned orphan
  undefined. Depending on flush order it may be deleted with its subtree at
  commit, refused with a 409 when notes are in it, or kept. Only the last
  outcome is modelled.
- NoteTagIdentity.HashCode models `Objects.hash` and `Long.hashCode` over
  non-negative ids only.

## Findings

| source | as written | input that shows it | evidently intended | confidence | as-written member | corrected member |
|---|---|---|---|---|---|---|
| notesapp/src/main/java/com/tarento/notesapp/entity/NoteTag.java:33-54 | `equals` compares ids when both links have one and the (note, tag) pair otherwise, while `hashCode` hashes the id whenever this link has one | a saved link (id 1, note 1, tag 1) and an unsaved link (no id, note 1, tag 1): equal, yet their hash codes are 1 and 993; with a saved link (id 2, note 1, tag 1) added, `equals` is not transitive | identity on the (noteId, tagId) key, which the table's unique constraint makes a key: an equivalence with equal hashes for equal links; the rest of the model identifies a link by this pair (`Entities.Link`) | not executed | NoteTagIdentity.HashContractBroken, NoteTagIdentity.EqualsNotTransitive | NoteTagIdentity.KeyIdentityLawful |
| notesapp/src/main/java/com/tarento/notesapp/service/impl/NoteServiceImpl.java:168-191 | the clear loop only drops the old links from the note's set, so orphan removal deletes their rows at flush, while `save` inserts the new link at once; for a tag that stays, the insert meets the old row under `ux_note_tags_note_tag` | note 1 linked to tag 1, `updateNote(1, {folderId: its folder, title: "t", tagIds: [1]})`: 409 and no change | the note is re-linked to exactly the requested tags, kept ones included | not executed; assumes the schema carries the unique constraint | NoteService.UpdateErrorAsWritten, NoteService.KeptTagRefused | NoteService.RelinkReplacesTags, NoteService.UpdateNote |
