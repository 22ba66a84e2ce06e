/** The database side of the note and file handlers, internal/httpapi/notes_handlers.go and
    files_handlers.go: what they pass on to the store. Whether the blob could be written is a
    parameter. */
module Handlers {
  import opened Geometry
  import opened Wrappers
  import opened Names
  import opened Tables
  import opened TagLoop
  import opened Transactions
  import opened Queries
  import opened Listing
  import B = BlobNames
  import L = Losses
  import P = Protocol
  import S = Store
  import I = Isolation

  /** The folder_id of a request body: left out, null, or a string. */
  datatype FolderField = Absent | Null | Given(folder: Id)

  datatype Reply = Ok | Missing | BadFolder | BadRotation | CannotRotate | Failed

  /** `sqlNullOfPtr`. */
  function NullOf(folder: Id): Option<Id> {
    if folder == "" then None else Some(folder)
  }

  /** Where an update puts an item: null decodes to a nil pointer, as if it was left out. */
  function Target(field: FolderField, was: Option<Id>): Option<Id> {
    if field.Given? then NullOf(field.folder) else was
  }

  /** The files whose bytes the server can turn. */
  predicate Rotatable(data: Data)
    requires data.FileData?
  {
    && data.kind == Ascii("image")
    && (data.mime == Ascii("image/png") || data.mime == Ascii("image/jpeg") || data.mime == Ascii("image/gif"))
  }

  /** The rotation that a request asks to bake into the bytes, if any. */
  predicate Bakes(rotation: Option<int>) {
    rotation.Some? && rotation.value != 0
  }

  /** The columns that `updateFile` writes: any rotation given is reset, and one that is baked
      brings the new bytes' size and digest. */
  function Refreshed(data: Data, name: Option<Text>, rotation: Option<int>, size: nat, sha: Text): Data
    requires data.FileData?
  {
    data.(name := if name.Some? then name.value else data.name,
          rotation := if rotation.Some? then 0 else data.rotation,
          size := if Bakes(rotation) then size else data.size,
          sha := if Bakes(rotation) then sha else data.sha)
  }

  /** The folder that a request names is not one of the user's. */
  predicate Foreign(db: Db, user: Id, field: FolderField) {
    field.Given? && !(field.folder in db.folders && db.folders[field.folder].user == user)
  }

  /** UpdateFile's statement stores all that the handler has changed. */
  lemma MergedIs(was: Data, name: Option<Text>, rotation: Option<int>, size: nat, sha: Text)
    requires was.FileData?
    ensures Refreshed(was, name, rotation, size, sha).FileData?
    ensures Merged(was, Refreshed(was, name, rotation, size, sha)) == Refreshed(was, name, rotation, size, sha)
  {
  }

  /** Rows as the handlers find them have their columns and an owner that exists. */
  lemma FoundRow(db: Db, i: Item, user: Id)
    requires Inv(db) && Owns(db, user, i)
    ensures (db.items[i].data.NoteData? <==> i.kind.NoteItem?) && user in db.users
    ensures FolderExists(db, db.items[i].folder) && FolderMine(db, user, db.items[i].folder)
    ensures LinkedNames(db, i) == TagNames(db, user, i)
  {
    assert RowOk(db, i);
    forall l | l in db.links && l.item == i ensures db.links[l] == user { assert LinkOk(db, l); }
  }

  class Server {
    const store: S.Store

    constructor (store: S.Store)
      ensures this.store == store
    {
      this.store := store;
    }

    /** What the update handlers do once the item is read and the folder checked. */
    method Save(i: Item, row: Row, names: Option<seq<Text>>, ids: seq<Id>) returns (r: Reply)
      requires Inv(store.db) && Owns(store.db, row.user, i) && RowFits(i, row.data)
      requires FolderExists(store.db, row.folder) && FolderMine(store.db, row.user, row.folder)
      requires names.Some? ==> |ids| == |names.value| && FreshIds(ids, store.db.tags.Keys)
      modifies store
      ensures Inv(store.db) && (r == Ok || r == Failed) && (r == Failed ==> store.db == old(store.db))
      ensures r == Ok <==> (names.Some? ==> ClashFree(Wanted(names.value)))
      ensures r == Ok ==>
                && i in store.db.items
                && store.db.items[i] == Row(row.user, row.folder, Merged(old(store.db).items[i].data, row.data))
                && (names.None? ==> store.db.links == old(store.db.links))
                && (names.Some? ==> LinkedFolds(store.db, i) == Folds(Wanted(names.value)))
    {
      UpdateItemExact(store.db, i, row, names, ids);
      var updated := store.Update(i, row, names, ids);
      return if updated == Done then Ok else Failed;
    }

    /** The rotation part of `updateFile`: the refreshed columns, or why not. */
    static method Bake(was: Data, rotation: Option<int>, baked: bool, size: nat, sha: Text) returns (r: Reply, data: Data)
      requires was.FileData?
      ensures var turnable := was.kind == Ascii("image")
                              && was.mime in {Ascii("image/png"), Ascii("image/jpeg"), Ascii("image/gif")};
              && (r == CannotRotate <==> rotation.Some? && rotation.value != 0 && !turnable)
              && (r == Ok <==> rotation.None? || rotation.value == 0 || (turnable && baked))
              && (r == CannotRotate <==> Bakes(rotation) && !Rotatable(was))
              && (r == Ok <==> (Bakes(rotation) ==> Rotatable(was) && baked))
      ensures r == Ok || r == CannotRotate || r == Failed
      ensures r == Ok ==>
                && data.FileData? && data == Refreshed(was, None, rotation, size, sha)
                && data.kind == was.kind && data.mime == was.mime && data.filename == was.filename
                && data.created == was.created && data.name == was.name
                && data.rotation == (if rotation.Some? then 0 else was.rotation)
                && data.size == (if rotation.Some? && rotation.value != 0 then size else was.size)
                && data.sha == (if rotation.Some? && rotation.value != 0 then sha else was.sha)
    {
      data := was;
      if rotation.Some? {
        if rotation.value != 0 {
          if !Rotatable(data) {
            return CannotRotate, was;
          }
          if !baked {
            return Failed, was;
          }
          data := data.(size := size, sha := sha);
        }
        data := data.(rotation := 0);
      }
      r := Ok;
    }

    /** `createNote`: the caller names any folder; only its own ones are accepted. */
    method CreateNote(user: Id, id: Id, field: FolderField, title: Text, size: nat, now: int,
                      names: seq<Text>, ids: seq<Id>, stored: bool) returns (r: Reply)
      requires Inv(store.db) && user in store.db.users && Item(NoteItem, id) !in store.db.items
      requires |ids| == |names| && FreshIds(ids, store.db.tags.Keys)
      modifies store
      ensures Inv(store.db)
      ensures r == BadFolder <==> Foreign(old(store.db), user, field) && field.folder != ""
      ensures r == Ok <==> r != BadFolder && ClashFree(Wanted(names)) && stored
      ensures r == BadFolder || !ClashFree(Wanted(names)) ==> store.db == old(store.db)
      // the row stays behind when the body cannot be written
      ensures r != BadFolder && ClashFree(Wanted(names)) ==>
                && Item(NoteItem, id) in store.db.items
                && store.db.items[Item(NoteItem, id)].user == user
                && store.db.items[Item(NoteItem, id)].data == NoteData(title, size, now, now)
                && store.db.items[Item(NoteItem, id)].folder
                   == (if field.Given? && field.folder != "" then Some(field.folder) else None)
                && LinkedFolds(store.db, Item(NoteItem, id)) == Folds(Wanted(names))
    {
      if field.Given? && field.folder != "" && !FolderOwned(store.db, user, field.folder) {
        return BadFolder;
      }
      var row := Row(user, Target(field, None), NoteData(title, size, now, now));
      CreateItemExact(store.db, Item(NoteItem, id), row, names, ids);
      var created := store.CreateNote(id, user, Target(field, None), title, size, now, names, ids);
      if created != Done || !stored {
        return Failed;
      }
      return Ok;
    }

    /** The row of `uploadFile`; folder is empty if none is named, data as sniffed from the upload. */
    method UploadFile(user: Id, id: Id, folder: Id, data: Data, names: seq<Text>, ids: seq<Id>, stored: bool) returns (r: Reply)
      requires Inv(store.db) && user in store.db.users && Item(FileItem, id) !in store.db.items && data.FileData?
      requires |ids| == |names| && FreshIds(ids, store.db.tags.Keys)
      modifies store
      ensures Inv(store.db)
      ensures r == BadFolder <==> folder != "" && Foreign(old(store.db), user, Given(folder))
      ensures r == Ok <==> r != BadFolder && ClashFree(Wanted(names)) && stored
      ensures r == BadFolder || !ClashFree(Wanted(names)) ==> store.db == old(store.db)
      // the row stays behind when the bytes cannot be written
      ensures r != BadFolder && ClashFree(Wanted(names)) ==>
                && Item(FileItem, id) in store.db.items
                && store.db.items[Item(FileItem, id)] == Row(user, if folder == "" then None else Some(folder), data)
                && LinkedFolds(store.db, Item(FileItem, id)) == Folds(Wanted(names))
    {
      if folder != "" && !FolderOwned(store.db, user, folder) {
        return BadFolder;
      }
      CreateItemExact(store.db, Item(FileItem, id), Row(user, NullOf(folder), data), names, ids);
      var created := store.CreateFile(id, user, NullOf(folder), data, names, ids);
      if created != Done || !stored {
        return Failed;
      }
      return Ok;
    }

    /** `updateNote`: absent and null fields keep what is there. The body is written before the row;
        wrote tells whether it was. */
    method UpdateNote(user: Id, id: Id, title: Option<Text>, body: Option<nat>, field: FolderField, now: int,
                      names: Option<seq<Text>>, ids: seq<Id>, stored: bool) returns (r: Reply, wrote: bool)
      requires Inv(store.db)
      requires names.Some? ==> |ids| == |names.value| && FreshIds(ids, store.db.tags.Keys)
      modifies store
      ensures Inv(store.db) && (r != Ok ==> store.db == old(store.db))
      ensures var (db, i) := (old(store.db), Item(NoteItem, id));
              && (r == Missing <==> !Owns(db, user, i))
              && (r == BadFolder <==> Owns(db, user, i) && Foreign(db, user, field))
              && (r == Ok <==> Owns(db, user, i) && !Foreign(db, user, field) && (body.Some? ==> stored)
                               && (names.Some? ==> ClashFree(Wanted(names.value))))
      ensures r == Ok ==>
                var (i, was) := (Item(NoteItem, id), old(store.db.items[Item(NoteItem, id)]));
                && i in store.db.items && was.data.NoteData?
                && store.db.items[i].user == user
                && store.db.items[i].data == NoteData(if title.Some? then title.value else was.data.title,
                                                      if body.Some? then body.value else was.data.size, was.data.created, now)
                && (!field.Given? ==> store.db.items[i].folder == was.folder)
                && (field.Given? && field.folder != "" ==> store.db.items[i].folder == Some(field.folder))
                && (names.None? ==> store.db.links == old(store.db.links))
                && (names.Some? ==> LinkedFolds(store.db, i) == Folds(Wanted(names.value)))
      ensures r == Ok ==> (wrote <==> body.Some?)
      // exactly when the new body stays beside the old row
      ensures wrote && r != Ok <==>
                && Owns(old(store.db), user, Item(NoteItem, id)) && !Foreign(old(store.db), user, field)
                && body.Some? && stored && names.Some? && !ClashFree(Wanted(names.value))
      // a filed note stays filed: null keeps its folder, and no folder has the empty id
      ensures r == Ok && old(store.db.items[Item(NoteItem, id)]).folder.Some? && "" !in old(store.db.folders) ==>
                store.db.items[Item(NoteItem, id)].folder.Some?
    {
      var i := Item(NoteItem, id);
      if i !in store.db.items || store.db.items[i].user != user {
        return Missing, false;
      }
      FoundRow(store.db, i, user);
      var was := store.db.items[i];
      if field.Given? && !FolderOwned(store.db, user, field.folder) {
        return BadFolder, false;
      }
      if body.Some? && !stored {
        return Failed, false;
      }
      var data := NoteData(if title.Some? then title.value else was.data.title,
                           if body.Some? then body.value else was.data.size, was.data.created, now);
      wrote := body.Some?;
      r := Save(i, Row(user, Target(field, was.folder), data), names, ids);
    }

    /** `updateFile` before it saves: the checks, and the row with the requested changes. baked says
        whether the stored bytes could be turned and written, with the new size and digest; the
        bytes themselves are the business of Raster and GifRotate. */
    method Edited(user: Id, id: Id, name: Option<Text>, field: FolderField, rotation: Option<int>,
                  baked: bool, size: nat, sha: Text) returns (r: Reply, row: Row)
      requires Inv(store.db)
      ensures var (db, i) := (store.db, Item(FileItem, id));
              var turns := rotation.None? || rotation.value == 0 || rotation.value == 90 || rotation.value == 180 || rotation.value == 270;
              var foreign := Foreign(db, user, field) && field.folder != "";
              && (r == Missing <==> !Owns(db, user, i))
              && (r == BadRotation <==> Owns(db, user, i) && !turns)
              && (r == BadFolder <==> Owns(db, user, i) && turns && foreign)
              && (Owns(db, user, i) ==> db.items[i].data.FileData?)
              && (r == CannotRotate <==>
                    Owns(db, user, i) && turns && !foreign && Bakes(rotation) && !Rotatable(db.items[i].data))
              && (r == Ok <==>
                    Owns(db, user, i) && turns && !foreign && (Bakes(rotation) ==> Rotatable(db.items[i].data) && baked))
      ensures r == Ok ==>
                var was := store.db.items[Item(FileItem, id)];
                && row.user == user && row.data == Refreshed(was.data, name, rotation, size, sha)
                && row.data.name == (if name.Some? then name.value else was.data.name)
                && (!field.Given? ==> row.folder == was.folder)
                && (field.Given? && field.folder != "" ==> row.folder == Some(field.folder))
                // a filed file is unfiled by the empty string and by nothing else
                && (was.folder.Some? ==> (row.folder.None? <==> field == Given("")))
                && FolderExists(store.db, row.folder) && FolderMine(store.db, user, row.folder)
    {
      var i := Item(FileItem, id);
      row := Row(user, None, NoteData([], 0, 0, 0));
      if i !in store.db.items || store.db.items[i].user != user {
        return Missing, row;
      }
      FoundRow(store.db, i, user);
      var was := store.db.items[i];
      if rotation.Some? && !QuarterTurn(rotation.value) {
        return BadRotation, row;
      }
      if field.Given? && field.folder != "" && !FolderOwned(store.db, user, field.folder) {
        return BadFolder, row;
      }
      var named := if name.Some? then was.data.(name := name.value) else was.data;
      var data;
      r, data := Bake(named, rotation, baked, size, sha);
      row := Row(user, Target(field, was.folder), data);
    }

    /** `updateFile`: name is as the handler cleaned it. Bytes are turned before the row is updated;
        wrote tells whether they were. */
    method UpdateFile(user: Id, id: Id, name: Option<Text>, field: FolderField, rotation: Option<int>,
                      baked: bool, size: nat, sha: Text, names: Option<seq<Text>>, ids: seq<Id>)
      returns (r: Reply, wrote: bool)
      requires Inv(store.db)
      requires names.Some? ==> |ids| == |names.value| && FreshIds(ids, store.db.tags.Keys)
      modifies store
      ensures Inv(store.db) && (r != Ok ==> store.db == old(store.db))
      ensures Owns(old(store.db), user, Item(FileItem, id)) ==> old(store.db.items[Item(FileItem, id)]).data.FileData?
      ensures var (db, i) := (old(store.db), Item(FileItem, id));
              var turns := rotation.None? || rotation.value == 0 || rotation.value == 90 || rotation.value == 180 || rotation.value == 270;
              var accepted := Owns(db, user, i) && turns && !(Foreign(db, user, field) && field.folder != "")
                              && (Bakes(rotation) ==> Rotatable(db.items[i].data) && baked);
              && (r == Missing <==> !Owns(db, user, i))
              && (r == Ok <==> accepted && (names.Some? ==> ClashFree(Wanted(names.value))))
              // exactly when the turned bytes stay beside the old row
              && (wrote && r != Ok <==> accepted && Bakes(rotation) && names.Some? && !ClashFree(Wanted(names.value)))
              && (r == Ok ==> (wrote <==> Bakes(rotation)))
      ensures r == Ok ==>
                var (i, was) := (Item(FileItem, id), old(store.db.items[Item(FileItem, id)]));
                && i in store.db.items && store.db.items[i].user == user
                && store.db.items[i].data == Refreshed(was.data, name, rotation, size, sha)
                && (!field.Given? ==> store.db.items[i].folder == was.folder)
                && (field.Given? && field.folder != "" ==> store.db.items[i].folder == Some(field.folder))
                && (was.folder.Some? ==> (store.db.items[i].folder.None? <==> field == Given("")))
                && (names.None? ==> store.db.links == old(store.db.links))
                && (names.Some? ==> LinkedFolds(store.db, i) == Folds(Wanted(names.value)))
    {
      var row;
      r, row := Edited(user, id, name, field, rotation, baked, size, sha);
      if r != Ok {
        return r, false;
      }
      wrote := Bakes(rotation);
      MergedIs(store.db.items[Item(FileItem, id)].data, name, rotation, size, sha);
      r := Save(Item(FileItem, id), row, names, ids);
    }

    /** `replaceFileBytes`: it reads the file with its tags (rows is the answer to the tag query)
        and writes all of that back with the new bytes' columns. Everything but these columns
        stays if and only if every stored tag name is a fixed point of normalisation. The bytes are
        written before the row; wrote tells whether they were. */
    method ReplaceFileBytes(user: Id, id: Id, mime: Text, size: nat, sha: Text, filename: string, rows: seq<Link>,
                            ids: seq<Id>, stored: bool) returns (r: Reply, wrote: bool)
      requires Inv(store.db) && Answers(store.db, user, FileItem, rows)
      requires |ids| == |NamesIn(store.db, rows, Item(FileItem, id))| && FreshIds(ids, store.db.tags.Keys)
      modifies store
      ensures Inv(store.db) && (r != Ok ==> store.db == old(store.db))
      ensures r == Missing <==> !Owns(old(store.db), user, Item(FileItem, id))
      ensures r != Missing && stored ==>
                ((r == Ok && store.db.links == old(store.db.links))
                 <==> forall n :: n in LinkedNames(old(store.db), Item(FileItem, id)) ==> Fixed(n))
      ensures wrote <==> r != Missing && stored
      // exactly when the new bytes stay beside the old row: the normalised names clash
      ensures wrote && r != Ok <==>
                r != Missing && stored && !ClashFree(Wanted(NamesIn(old(store.db), rows, Item(FileItem, id))))
      ensures r == Ok ==>
                var (i, was) := (Item(FileItem, id), old(store.db.items[Item(FileItem, id)]));
                && i in store.db.items && was.data.FileData?
                && store.db.items[i] == Row(user, was.folder,
                     was.data.(mime := mime, size := size, sha := sha, filename := filename, rotation := 0))
    {
      var i := Item(FileItem, id);
      if i !in store.db.items || store.db.items[i].user != user {
        return Missing, false;
      }
      FoundRow(store.db, i, user);
      var was := store.db.items[i];
      var f := new Listed(id);
      AttachTags(store.db, FileItem, user, [f], rows);
      ReadBack(store.db, user, i, rows, f.tags);
      if !stored {
        return Failed, false;
      }
      var data := was.data.(mime := mime, size := size, sha := sha, filename := filename, rotation := 0);
      var row := Row(user, was.folder, data);
      var names := if f.tags == [] then None else Some(f.tags);
      UpdateItemExact(store.db, i, row, names, ids);
      WrittenBack(store.db, i, row, f.tags, ids);
      var updated := store.Update(i, row, names, ids);
      return if updated == Done then Ok else Failed, true;
    }
  }

  /** The tags that a read gives are the stored names, in the one order they can have. */
  lemma ReadBack(db: Db, user: Id, i: Item, rows: seq<Link>, tags: seq<Text>)
    requires Inv(db) && Owns(db, user, i) && Answers(db, user, i.kind, rows) && TagList(db, user, i, tags)
    ensures tags == NamesIn(db, rows, i) && Elements(tags) == LinkedNames(db, i)
  {
    FoundRow(db, i, user);
    LinkedNamesAre(db, i);
    NamesInAreTagList(db, user, i.kind, rows, i);
    TagListUnique(tags, NamesIn(db, rows, i));
  }

  /** Writing the tags back, or no tags at all if there are none. */
  lemma WrittenBack(db: Db, i: Item, row: Row, tags: seq<Text>, ids: seq<Id>)
    requires Inv(db) && Owns(db, row.user, i) && RowFits(i, row.data) && FolderMine(db, row.user, row.folder)
    requires FolderExists(db, row.folder) && Elements(tags) == LinkedNames(db, i)
    requires |ids| == |tags| && FreshIds(ids, db.tags.Keys)
    ensures var (d, r) := UpdateItem(db, i, row, if tags == [] then None else Some(tags), ids);
            (r == Done && d.links == db.links) <==> forall n :: n in LinkedNames(db, i) ==> Fixed(n)
  {
    assert forall n :: n in tags <==> n in LinkedNames(db, i);
    if tags != [] {
      var to := Row(row.user, row.folder, Merged(db.items[i].data, row.data));
      assert RowOk(db, i);
      PutRow(db, i, to);
      var e := db.(items := db.items[i := to]);
      assert LinkedNames(e, i) == LinkedNames(db, i);
      WriteBack(e, i, row.user, tags, ids);
    }
  }

  /** A folder is refused if and only if the user's folder list does not show it. */
  lemma ForeignIsUnlisted(db: Db, user: Id, field: FolderField)
    requires field.Given?
    ensures Foreign(db, user, field) <==> field.folder !in ListFolders(db, user)
  {
  }

  // ----- new bytes beside an old row -----

  /** What the handlers' steps leave when the bytes are in place under the row's own name and the
      row update, which fails exactly if the names clash, is done: the item is torn if and only if
      it failed and the bytes are not the old ones. */
  lemma TornByClash(s: P.State, k: P.Item, row: P.Row, random: string, names: Option<seq<Text>>)
    returns (actions: seq<P.Action>, t: P.State)
    requires P.Inv(s) && k in s.settled && P.Enabled(s, P.Replace(k, row)) && row.ext == s.rows[k].ext
    requires B.Plain(random) && P.TempPath(k, random) !in s.temps
    ensures var saved := names.Some? ==> ClashFree(Wanted(names.value));
            && P.Runs(s, actions, t) && actions != []
            && actions[|actions| - 1] == (if saved then P.CommitRow(k) else P.FailRow(k))
            && k in t.rows && t.rows[k] == (if saved then row else s.rows[k]) && k !in t.tasks
            && P.PathOf(k, row.ext) in t.disk && t.disk[P.PathOf(k, row.ext)] == row.described
            && (k in t.torn <==> !saved && row.described != s.rows[k].described)
  {
    actions, t := L.RowAfterBytes(s, k, row, random, names.Some? ==> ClashFree(Wanted(names.value)));
  }

  // ----- the handlers' calls among those of others -----

  ghost function Spent(used: set<Id>, qs: seq<I.Request>): set<Id>
    decreases |qs|
  {
    if qs == [] then used else Spent(used + Elements(I.NewIds(qs[0].call)), qs[1..])
  }

  /** What a user has been told stays told, whatever anybody requests. */
  lemma {:induction false} ToldGrows(w: I.World, used: set<Id>, qs: seq<I.Request>)
    requires I.WorldInv(w, used) && I.Legal(w, used, qs)
    ensures w.told <= I.Final(w, used, qs).told && I.Final(w, used, qs).db.users == w.db.users
    ensures I.WorldInv(I.Final(w, used, qs), Spent(used, qs))
    decreases |qs|
  {
    if qs != [] {
      I.StepKeeps(w, used, qs[0]);
      ToldGrows(I.Step(w, qs[0]), used + Elements(I.NewIds(qs[0].call)), qs[1..]);
    }
  }

  /** After the folder check of a handler, if it makes one. */
  ghost function Checked(w: I.World, u: Id, field: FolderField): I.World {
    if field.Given? && field.folder != "" then I.Step(w, I.Request(u, I.CheckFolder(field.folder))) else w
  }

  lemma CheckTells(w: I.World, used: set<Id>, u: Id, field: FolderField)
    requires I.WorldInv(w, used) && u in w.db.users && (Foreign(w.db, u, field) ==> field.folder == "")
    ensures I.WorldInv(Checked(w, u, field), used) && Checked(w, u, field).db == w.db
    ensures w.told <= Checked(w, u, field).told
    ensures field.Given? && NullOf(field.folder).Some? ==> (u, field.folder) in Checked(w, u, field).told
  {
    if field.Given? && field.folder != "" {
      NoNewIds(used);
      I.StepKeeps(w, used, I.Request(u, I.CheckFolder(field.folder)));
    }
  }

  /** A handler reads an item, checks the folder it is given, and updates the item. Whatever
      others do between these calls, when the check lets the folder pass the update is allowed:
      the folder it names, given or read, is the user's own or gone. */
  lemma UpdateIsAllowed(w: I.World, used: set<Id>, u: Id, i: Item, field: FolderField, data: Data,
                        names: Option<seq<Text>>, ids: seq<Id>, between: seq<I.Request>, later: seq<I.Request>)
    requires I.WorldInv(w, used) && u in w.db.users && Owns(w.db, u, i)
    requires I.Legal(I.Step(w, I.Request(u, I.Read(i))), used, between)
    requires var c := I.Final(I.Step(w, I.Request(u, I.Read(i))), used, between);
             (Foreign(c.db, u, field) ==> field.folder == "") && I.Legal(Checked(c, u, field), Spent(used, between), later)
    requires RowFits(i, data) && (names.Some? ==> |ids| == |names.value|)
    requires FreshIds(ids, Spent(Spent(used, between), later))
    ensures var c := I.Final(I.Step(w, I.Request(u, I.Read(i))), used, between);
            var d := I.Final(Checked(c, u, field), Spent(used, between), later);
            var update := I.Request(u, I.Update(i, Target(field, w.db.items[i].folder), data, names, ids));
            I.Allowed(d, Spent(Spent(used, between), later), update)
  {
    var read := I.Request(u, I.Read(i));
    NoNewIds(used);
    I.StepKeeps(w, used, read);
    var v := I.Step(w, read);
    ToldGrows(v, used, between);
    var c := I.Final(v, used, between);
    CheckTells(c, Spent(used, between), u, field);
    ToldGrows(Checked(c, u, field), Spent(used, between), later);
  }

  lemma NoNewIds(used: set<Id>)
    ensures Elements<Id>([]) == {} && used + Elements([]) == used && FreshIds([], used)
  {
  }
}
