/** The store of internal/store: each method is one transaction that changes the tables in place,
    statement by statement, and rolls back when a statement fails. */
module Store {
  import opened Wrappers
  import opened Names
  import opened Tables
  import opened TagLoop
  import opened Transactions

  class Store {
    var db: Db

    constructor (users: set<Id>)
      ensures Inv(db) && db.users == users
    {
      db := Db(users, map[], map[], map[], map[]);
    }

    /** `normalizeTag`. */
    static method Normalize(name: Text) returns (r: Text)
      ensures r == NormalizeTag(name)
    {
      r := TrimSpaceBytes(name);
      if |r| > TAG_BYTES {
        r := r[..TAG_BYTES];
      }
    }

    /** SELECT id FROM tags WHERE user_id = ? AND name = ? COLLATE NOCASE. */
    method SelectTag(user: Id, name: Text) returns (r: Option<Id>)
      requires UniqueTags(db)
      ensures r == LookupTag(db, user, name)
    {
      r := None;
      if t :| t in db.tags && db.tags[t].user == user && Fold(db.tags[t].name) == Fold(name) {
        r := Some(t);
        assert TagNamed(db, user, name, t);
        assert LookupTag(db, user, name) == Some(t);
      }
    }

    /** The statements of setTagsTx for one name that is to be linked. */
    method LinkTag(i: Item, user: Id, name: Text, id: Id) returns (ok: bool)
      requires UniqueTags(db)
      modifies this
      ensures ok == AddTag(old(db), i, user, name, id).Some?
      ensures ok ==> db == AddTag(old(db), i, user, name, id).value
    {
      var tag := SelectTag(user, name);
      var tagId;
      match tag {
        case Some(t) =>
          tagId := t;
        case None =>
          tagId := id;
          if tagId in db.tags || user !in db.users {
            return false;
          }
          db := db.(tags := db.tags[tagId := Tag(user, name)]);
      }
      if Link(i, tagId) in db.links {
        return false;
      }
      db := db.(links := db.links[Link(i, tagId) := user]);
      return true;
    }

    /** `setTagsTx`. When it fails it leaves the tables half changed: the caller rolls back. */
    method SetTagsTx(i: Item, user: Id, names: seq<Text>, ids: seq<Id>) returns (ok: bool)
      requires Inv(db) && Owns(db, user, i) && |ids| == |names| && FreshIds(ids, db.tags.Keys)
      modifies this
      ensures ok == SetTags(old(db), i, user, names, ids).Some?
      ensures ok ==> db == SetTags(old(db), i, user, names, ids).value
    {
      ClearLinksIs(db, i, user);
      db := ClearLinks(db, i, user);
      var seen: set<Text> := {};
      var k := 0;
      while k < |names|
        invariant 0 <= k <= |names| && Inv(db) && Owns(db, user, i) && FreshIds(ids[k..], db.tags.Keys)
        invariant AddTags(db, i, user, names[k..], ids[k..], seen) == SetTags(old(db), i, user, names, ids)
      {
        var name := Normalize(names[k]);
        assert names[k..][1..] == names[k + 1..] && ids[k..][1..] == ids[k + 1..];
        if name == [] || name in seen {
          k := k + 1;
          continue;
        }
        NormalizedIsNormal(names[k]);
        AddTagExact(db, i, user, name, ids[k]);
        seen := seen + {name};
        ok := LinkTag(i, user, name, ids[k]);
        if !ok {
          return;
        }
        k := k + 1;
      }
      return true;
    }

    /** `CreateNote`: the row, then its tags, or neither. */
    method CreateNote(id: Id, user: Id, folder: Option<Id>, title: Text, size: nat, now: int, names: seq<Text>, ids: seq<Id>)
      returns (r: Outcome)
      requires Inv(db) && FolderMine(db, user, folder)
      requires |ids| == |names| && FreshIds(ids, db.tags.Keys)
      modifies this
      ensures (db, r) == CreateItem(old(db), Item(NoteItem, id), Row(user, folder, NoteData(title, size, now, now)), names, ids)
      ensures Inv(db)
    {
      r := InsertWithTags(Item(NoteItem, id), Row(user, folder, NoteData(title, size, now, now)), names, ids);
    }

    /** `CreateFile`, with the same steps on the files table. */
    method CreateFile(id: Id, user: Id, folder: Option<Id>, data: Data, names: seq<Text>, ids: seq<Id>) returns (r: Outcome)
      requires Inv(db) && FolderMine(db, user, folder) && data.FileData?
      requires |ids| == |names| && FreshIds(ids, db.tags.Keys)
      modifies this
      ensures (db, r) == CreateItem(old(db), Item(FileItem, id), Row(user, folder, data), names, ids)
      ensures Inv(db)
    {
      r := InsertWithTags(Item(FileItem, id), Row(user, folder, data), names, ids);
    }

    /** The transaction of CreateNote and CreateFile. */
    method InsertWithTags(i: Item, row: Row, names: seq<Text>, ids: seq<Id>) returns (r: Outcome)
      requires Inv(db) && RowFits(i, row.data) && FolderMine(db, row.user, row.folder)
      requires |ids| == |names| && FreshIds(ids, db.tags.Keys)
      modifies this
      ensures (db, r) == CreateItem(old(db), i, row, names, ids)
      ensures Inv(db)
    {
      CreateItemExact(db, i, row, names, ids);
      var begun := db;
      if i in db.items || row.user !in db.users || !FolderExists(db, row.folder) {
        return Rejected;
      }
      PutRow(db, i, row);
      db := db.(items := db.items[i := row]);
      var ok := SetTagsTx(i, row.user, names, ids);
      if !ok {
        db := begun;
        return Rejected;
      }
      return Done;
    }

    /** `UpdateNote` and `UpdateFile`: names are None when the tags are to stay. */
    method Update(i: Item, row: Row, names: Option<seq<Text>>, ids: seq<Id>) returns (r: Outcome)
      requires Inv(db) && RowFits(i, row.data) && FolderMine(db, row.user, row.folder)
      requires names.Some? ==> |ids| == |names.value| && FreshIds(ids, db.tags.Keys)
      modifies this
      ensures (db, r) == UpdateItem(old(db), i, row, names, ids)
      ensures Inv(db)
    {
      UpdateItemExact(db, i, row, names, ids);
      var begun := db;
      if i !in db.items || db.items[i].user != row.user {
        return NotFound;
      }
      if !FolderExists(db, row.folder) {
        return Rejected;
      }
      assert RowOk(db, i);
      var to := Row(row.user, row.folder, Merged(db.items[i].data, row.data));
      PutRow(db, i, to);
      db := db.(items := db.items[i := to]);
      if names.Some? {
        var ok := SetTagsTx(i, row.user, names.value, ids);
        if !ok {
          db := begun;
          return Rejected;
        }
      }
      return Done;
    }

    /** `DeleteNote` and `DeleteFile`: the row, its links, and the tags left over. */
    method Delete(user: Id, i: Item) returns (r: Outcome)
      requires Inv(db)
      modifies this
      ensures (db, r) == DeleteItem(old(db), user, i)
      ensures Inv(db)
    {
      DeleteItemExact(db, user, i);
      if i !in db.items || db.items[i].user != user {
        return NotFound;
      }
      db := db.(items := db.items - {i});
      db := ClearLinks(db, i, user);
      db := PruneTags(db, user);
      return Done;
    }

    /** `CreateFolder`. */
    method NewFolder(f: Id, user: Id, text: Text, now: int) returns (r: Outcome)
      requires Inv(db)
      modifies this
      ensures (db, r) == CreateFolder(old(db), f, user, text, now)
      ensures Inv(db)
    {
      CreateFolderExact(db, f, user, text, now);
      var name := NormalizeFolder(text);
      if name == [] {
        return Rejected;
      }
      if f in db.folders {
        return Conflict;
      }
      if g :| g in db.folders && db.folders[g].user == user && Fold(db.folders[g].name) == Fold(name) {
        assert FolderNamed(db, user, name, g);
        return Conflict;
      }
      assert forall g :: !FolderNamed(db, user, name, g);
      if user !in db.users {
        return Rejected;
      }
      db := db.(folders := db.folders[f := Folder(user, name, now)]);
      return Done;
    }

    /** `RenameFolder`. */
    method Rename(user: Id, f: Id, text: Text) returns (r: Outcome)
      requires Inv(db)
      modifies this
      ensures (db, r) == RenameFolder(old(db), user, f, text)
      ensures Inv(db)
    {
      RenameFolderExact(db, user, f, text);
      var name := NormalizeFolder(text);
      if name == [] {
        return Rejected;
      }
      if f !in db.folders || db.folders[f].user != user {
        return NotFound;
      }
      if g :| g in db.folders && g != f && db.folders[g].user == user && Fold(db.folders[g].name) == Fold(name) {
        assert FolderNamed(db, user, name, g);
        return Conflict;
      }
      assert forall g :: g != f ==> !FolderNamed(db, user, name, g);
      db := db.(folders := db.folders[f := db.folders[f].(name := name)]);
      return Done;
    }

    /** `DeleteFolder`, with the foreign keys' SET NULL. */
    method DropFolder(user: Id, f: Id) returns (r: Outcome)
      requires Inv(db)
      modifies this
      ensures (db, r) == DeleteFolder(old(db), user, f)
      ensures Inv(db)
    {
      DeleteFolderExact(db, user, f);
      if f !in db.folders || db.folders[f].user != user {
        return NotFound;
      }
      db := db.(folders := db.folders - {f});
      db := db.(items := map i | i in db.items ::
        if db.items[i].folder == Some(f) then db.items[i].(folder := None) else db.items[i]);
      return Done;
    }
  }
}
