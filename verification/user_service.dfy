/** The user table: lookups by id and by username, renaming with the
    username uniqueness check, deletion, and registration, which also
    creates the new user's root folder. */
module UserService {
  import opened Common
  import opened Entities
  import opened Hierarchy
  import opened FolderEdits
  import opened Store
  import opened FolderService

  /** `existsByUsername`. */
  predicate UsernameTaken(users: Users, name: string) {
    exists k :: k in users && users[k].username == name
  }

  /** `getUser`. */
  function GetUser(users: Users, id: UserId): (r: Result<User>)
    ensures r.Err? <==> id !in users
    ensures r.Err? ==> r.error == NotFound
    ensures r.Ok? ==> id in users && r.value == users[id]
  {
    if id in users then Ok(users[id]) else Err(NotFound)
  }

  /** `listUsers`: the users in ascending id order (the order the model
      gives to `findAll`). */
  function ListUsers(users: Users): (r: seq<(UserId, User)>)
    ensures forall i :: 0 <= i < |r| ==> r[i].0 in users && r[i].1 == users[r[i].0]
    ensures forall i, j :: 0 <= i < j < |r| ==> r[i].0 < r[j].0
  {
    Entries(users, Ascending(users.Keys))
  }

  /** Every user is listed. */
  lemma ListUsersComplete(users: Users, k: UserId)
    requires k in users
    ensures exists i :: 0 <= i < |ListUsers(users)| && ListUsers(users)[i].0 == k
  {
    var ids := Ascending(users.Keys);
    assert ListUsers(users)[IndexOf(ids, k)].0 == k;
  }

  /** The first of `ids` whose user has the username. */
  function FirstNamed(users: Users, name: string, ids: seq<UserId>): (r: Option<UserId>)
    requires forall k :: k in ids ==> k in users
    ensures r.Some? ==> r.value in users && users[r.value].username == name
    ensures r.None? <==> forall k :: k in ids ==> users[k].username != name
  {
    if ids == [] then None
    else if users[ids[0]].username == name then Some(ids[0])
    else
      var r := FirstNamed(users, name, ids[1..]);
      assert forall k :: k in ids ==> k == ids[0] || k in ids[1..];
      r
  }

  /** `findByUsername`. */
  function FindByUsername(users: Users, name: string): (r: Result<UserId>)
    ensures r.Err? <==> !UsernameTaken(users, name)
    ensures r.Err? ==> r.error == NotFound
    ensures r.Ok? ==> r.value in users && users[r.value].username == name
  {
    var found := FirstNamed(users, name, Ascending(users.Keys));
    if found.Some? then Ok(found.value) else Err(NotFound)
  }

  /** With unique usernames the lookup finds the one user that has it. */
  lemma FindByUsernameUnique(users: Users, k: UserId)
    requires UsernamesUnique(users) && k in users
    ensures FindByUsername(users, users[k].username) == Ok(k)
  {
    var r := FindByUsername(users, users[k].username);
    assert UsernameTaken(users, users[k].username);
    assert r.value in users && users[r.value].username == users[k].username;
  }

  /** Giving a user a name nobody has keeps usernames unique. */
  lemma RenameKeepsUnique(users: Users, id: UserId, name: string)
    requires UsernamesUnique(users) && !UsernameTaken(users, name)
    ensures UsernamesUnique(users[id := User(name)])
  {
    var us := users[id := User(name)];
    forall a, b | a in us && b in us && a != b ensures us[a].username != us[b].username {
      if a != id && b != id {
        assert us[a] == users[a] && us[b] == users[b];
      } else if a == id {
        assert us[b] == users[b];
      } else {
        assert us[a] == users[a];
      }
    }
  }

  /** Removing users keeps usernames unique. */
  lemma RemovalKeepsUnique(users: Users, id: UserId)
    requires UsernamesUnique(users)
    ensures UsernamesUnique(users - {id})
  {
    var us := users - {id};
    forall a, b | a in us && b in us && a != b ensures us[a].username != us[b].username {
      assert us[a] == users[a] && us[b] == users[b];
    }
  }

  /** `updateUser`: NotFound for an unknown user; the same username again
      changes nothing and is not checked; another username is refused with
      Conflict when some user has it, and stored otherwise. */
  method UpdateUser(db: Db, id: UserId, username: string) returns (r: Result<UserId>)
    requires db.Valid()
    modifies db
    ensures db.Valid() && db.OnlyUsersChanged() && db.nextUserId == old(db.nextUserId)
    ensures r.Err? ==> unchanged(db)
    ensures id !in old(db.users) ==> r == Err(NotFound)
    ensures id in old(db.users) && old(db.users)[id].username == username ==> r == Ok(id) && unchanged(db)
    ensures id in old(db.users) && old(db.users)[id].username != username ==>
      && (UsernameTaken(old(db.users), username) ==> r == Err(Conflict))
      && (!UsernameTaken(old(db.users), username) ==> r == Ok(id) && db.users == old(db.users)[id := User(username)])
  {
    if id !in db.users {
      return Err(NotFound);
    }
    if db.users[id].username != username {
      if UsernameTaken(db.users, username) {
        return Err(Conflict);
      }
      RenameKeepsUnique(db.users, id, username);
      db.SetUsers(db.users[id := User(username)], db.nextUserId);
    }
    return Ok(id);
  }

  /** The user is the owner of some folder or some tag, so the non-null
      `fk_folder_user` or `fk_tags_user` key refers to its row. */
  predicate OwnsRows(fs: Folders, tags: Tags, u: UserId) {
    || (exists f :: f in fs && fs[f].owner == u)
    || (exists t :: t in tags && tags[t].owner == u)
  }

  /** `deleteUser`: NotFound for an unknown user; Conflict (the foreign-key
      violation the exception handler maps to 409) while a folder or a tag
      still refers to the user; otherwise exactly that user's record goes. */
  method DeleteUser(db: Db, id: UserId) returns (r: Option<Error>)
    requires db.Valid()
    modifies db
    ensures db.Valid() && db.OnlyUsersChanged() && db.nextUserId == old(db.nextUserId)
    ensures id !in old(db.users) ==> r == Some(NotFound) && unchanged(db)
    ensures id in old(db.users) && OwnsRows(old(db.folders), old(db.tags), id) ==> r == Some(Conflict) && unchanged(db)
    ensures id in old(db.users) && !OwnsRows(old(db.folders), old(db.tags), id) ==>
      r == None && db.users == old(db.users) - {id}
  {
    if id !in db.users {
      return Some(NotFound);
    }
    if OwnsRows(db.folders, db.tags, id) {
      return Some(Conflict);
    }
    RemovalKeepsUnique(db.users, id);
    db.SetUsers(db.users - {id}, db.nextUserId);
    return None;
  }

  /** A user with a root folder, which registration always creates, cannot
      be deleted. */
  lemma RootOwnerBlocksDelete(fs: Folders, tags: Tags, u: UserId)
    requires FindRoot(fs, u).Some?
    ensures OwnsRows(fs, tags, u)
  {
    var root := FindRoot(fs, u).value;
    assert root in fs && fs[root].owner == u;
  }

  /** A user id that was never handed out owns no folder, so no root. */
  lemma FreshUserHasNoRoot(fs: Folders, nf: nat, k: UserId)
    requires FoldersIssued(fs, nf, k)
    ensures FindRoot(fs, k).None?
  {
  }

  /** Registration (`AuthService.register`): Conflict when the username
      is taken; otherwise a new user and a new root folder for it. */
  method Register(db: Db, username: string, now: int) returns (r: Result<UserId>)
    requires db.Valid()
    modifies db
    ensures db.Valid()
    ensures db.notes == old(db.notes) && db.tags == old(db.tags)
    ensures UsernameTaken(old(db.users), username) ==> r == Err(Conflict) && unchanged(db)
    ensures !UsernameTaken(old(db.users), username) ==>
      && r == Ok(old(db.nextUserId))
      && db.users == old(db.users)[r.value := User(username)]
      && db.folders == WithFolder(old(db.folders), old(db.nextFolderId), NewRoot(r.value, now))
      && FindRoot(db.folders, r.value) == Some(old(db.nextFolderId))
  {
    if UsernameTaken(db.users, username) {
      return Err(Conflict);
    }
    var k := db.nextUserId;
    var kf := db.nextFolderId;
    RenameKeepsUnique(db.users, k, username);
    db.SetUsers(db.users[k := User(username)], k + 1);
    FreshUserHasNoRoot(db.folders, kf, k);
    RootEnsured(db.folders, k, kf, now);
    var fs := WithRoot(db.folders, k, kf, now);
    FoldersGrown(db.users, db.folders, fs, db.notes, db.tags);
    StoredIssued(db.folders, kf, NewRoot(k, now), k + 1);
    db.SetFolders(fs, kf + 1);
    return Ok(k);
  }
}
