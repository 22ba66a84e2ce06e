/** Every transaction of the tagged store keeps the relational invariant, and what it does. */
module Transactions {
  import opened Wrappers
  import opened Names
  import opened Tables
  import opened TagLoop

  /** The ownership check that the handlers make before they pass a folder on: a folder that
      exists belongs to the user. It may have been deleted since. */
  ghost predicate FolderMine(db: Db, user: Id, folder: Option<Id>) {
    folder.Some? && folder.value in db.folders ==> db.folders[folder.value].user == user
  }

  ghost predicate RowFits(i: Item, data: Data) {
    data.NoteData? <==> i.kind.NoteItem?
  }

  /** Putting a row under key i keeps the invariant if the row is well formed and its owner stays. */
  lemma PutRow(db: Db, i: Item, row: Row)
    requires Inv(db) && row.user in db.users && RowFits(i, row.data)
    requires i in db.items ==> db.items[i].user == row.user
    requires FolderExists(db, row.folder) && FolderMine(db, row.user, row.folder)
    ensures Inv(db.(items := db.items[i := row]))
  {
    var d := db.(items := db.items[i := row]);
    forall j | j in d.items ensures RowOk(d, j) { if j in db.items { assert RowOk(db, j); } }
    forall l | l in d.links ensures LinkOk(d, l) { assert LinkOk(db, l); }
    forall t | t in d.tags ensures TagOk(d, t) { assert TagOk(db, t); }
  }

  /** Creating an item: it fails as a whole if its key is taken, its owner or folder does not
      exist or two of its names clash; otherwise exactly the row and its tags are new. */
  lemma CreateItemExact(db: Db, i: Item, row: Row, names: seq<Text>, ids: seq<Id>)
    requires Inv(db) && RowFits(i, row.data) && FolderMine(db, row.user, row.folder)
    requires |ids| == |names| && FreshIds(ids, db.tags.Keys)
    ensures var (d, r) := CreateItem(db, i, row, names, ids);
            && Inv(d)
            && (r == Done <==> i !in db.items && row.user in db.users && FolderExists(db, row.folder) && ClashFree(Wanted(names)))
            && (r != Done ==> r == Rejected && d == db)
            && (r == Done ==>
                  && Replaces(db.(items := db.items[i := row]), d, i, row.user, Wanted(names), Elements(ids))
                  && LinkedFolds(d, i) == Folds(Wanted(names)))
  {
    if InsertItem(db, i, row).Some? {
      PutRow(db, i, row);
      SetTagsExact(db.(items := db.items[i := row]), i, row.user, names, ids);
    }
  }

  /** Updating an item: nothing changes unless the item is the user's, the folder exists and the
      names, if given, do not clash; then exactly the row's updatable columns and, if names are
      given, the item's tags change. */
  lemma UpdateItemExact(db: Db, i: Item, row: Row, names: Option<seq<Text>>, ids: seq<Id>)
    requires Inv(db) && RowFits(i, row.data) && FolderMine(db, row.user, row.folder)
    requires names.Some? ==> |ids| == |names.value| && FreshIds(ids, db.tags.Keys)
    ensures var (d, r) := UpdateItem(db, i, row, names, ids);
            && Inv(d)
            && (r == NotFound <==> !Owns(db, row.user, i))
            && (r == Done <==> Owns(db, row.user, i) && FolderExists(db, row.folder)
                               && (names.Some? ==> ClashFree(Wanted(names.value))))
            && (r != Done ==> d == db)
            && (r == Done ==>
                  var e := db.(items := db.items[i := Row(row.user, row.folder, Merged(db.items[i].data, row.data))]);
                  && (names.None? ==> d == e)
                  && (names.Some? ==>
                        && Replaces(e, d, i, row.user, Wanted(names.value), Elements(ids))
                        && LinkedFolds(d, i) == Folds(Wanted(names.value))))
  {
    if Owns(db, row.user, i) && FolderExists(db, row.folder) {
      assert RowOk(db, i);
      var to := Row(row.user, row.folder, Merged(db.items[i].data, row.data));
      PutRow(db, i, to);
      if names.Some? {
        SetTagsExact(db.(items := db.items[i := to]), i, row.user, names.value, ids);
      }
    }
  }

  /** Deleting an item takes its row, its links and the user's tags that are left without a
      link, and nothing else: afterwards the user's tags are exactly those with a link. */
  lemma DeleteItemExact(db: Db, user: Id, i: Item)
    requires Inv(db)
    ensures var (d, r) := DeleteItem(db, user, i);
            && Inv(d)
            && (r == if Owns(db, user, i) then Done else NotFound)
            && (r != Done ==> d == db)
            && (r == Done ==>
                  && d.users == db.users && d.folders == db.folders && d.items == db.items - {i}
                  && (forall l :: l in d.links <==> l in db.links && l.item != i)
                  && (forall l :: l in d.links ==> d.links[l] == db.links[l])
                  && (forall t :: t in d.tags ==> t in db.tags && d.tags[t] == db.tags[t])
                  && (forall t :: t in db.tags && db.tags[t].user != user ==> t in d.tags)
                  && (forall t :: t in db.tags && db.tags[t].user == user ==>
                        (t in d.tags <==> exists l :: l in d.links && l.tag == t)))
  {
    if Owns(db, user, i) {
      var e := ClearLinks(db.(items := db.items - {i}), i, user);
      var d := PruneTags(e, user);
      forall l
        ensures l in d.links <==> l in db.links && l.item != i
        ensures l in d.links ==> LinkOk(d, l)
      {
        if l in db.links { assert LinkOk(db, l); }
      }
      forall j | j in d.items ensures RowOk(d, j) { assert RowOk(db, j); }
      forall t | t in d.tags ensures TagOk(d, t) { assert TagOk(db, t); }
    }
  }

  /** Creating a folder: the name is trimmed and cut, must not be empty, and must be new to the
      user up to case. */
  lemma CreateFolderExact(db: Db, f: Id, user: Id, text: Text, now: int)
    requires Inv(db)
    ensures var ((d, r), name) := (CreateFolder(db, f, user, text, now), NormalizeFolder(text));
            && Inv(d)
            && (r == Done <==> name != [] && user in db.users && f !in db.folders && forall g :: !FolderNamed(db, user, name, g))
            && (r == Conflict <==> name != [] && (f in db.folders || exists g :: FolderNamed(db, user, name, g)))
            && r != NotFound
            && (r != Done ==> d == db)
            && (r == Done ==> d == db.(folders := db.folders[f := Folder(user, name, now)]))
  {
    var (d, r) := CreateFolder(db, f, user, text, now);
    if r == Done {
      forall i | i in d.items ensures RowOk(d, i) { assert RowOk(db, i); }
      forall l | l in d.links ensures LinkOk(d, l) { assert LinkOk(db, l); }
      forall t | t in d.tags ensures TagOk(d, t) { assert TagOk(db, t); }
      var name := NormalizeFolder(text);
      forall g | g in db.folders && db.folders[g].user == user ensures Fold(db.folders[g].name) != Fold(name) {
        assert !FolderNamed(db, user, name, g);
      }
    }
  }

  /** Renaming a folder: as for creating one; a folder that is not the user's is not found, even if
      the name is taken. */
  lemma RenameFolderExact(db: Db, user: Id, f: Id, text: Text)
    requires Inv(db)
    ensures var ((d, r), name) := (RenameFolder(db, user, f, text), NormalizeFolder(text));
            && Inv(d)
            && (r == Done <==> name != [] && f in db.folders && db.folders[f].user == user
                               && forall g :: g != f ==> !FolderNamed(db, user, name, g))
            && (r == NotFound <==> name != [] && !(f in db.folders && db.folders[f].user == user))
            && (r == Conflict <==> name != [] && f in db.folders && db.folders[f].user == user
                                   && exists g :: g != f && FolderNamed(db, user, name, g))
            && (r != Done ==> d == db)
            && (r == Done ==> d == db.(folders := db.folders[f := Folder(user, name, db.folders[f].created)]))
  {
    var (d, r) := RenameFolder(db, user, f, text);
    if r == Done {
      forall i | i in d.items ensures RowOk(d, i) { assert RowOk(db, i); }
      forall l | l in d.links ensures LinkOk(d, l) { assert LinkOk(db, l); }
      forall t | t in d.tags ensures TagOk(d, t) { assert TagOk(db, t); }
      var name := NormalizeFolder(text);
      forall g | g in db.folders && g != f && db.folders[g].user == user ensures Fold(db.folders[g].name) != Fold(name) {
        assert !FolderNamed(db, user, name, g);
      }
    }
  }

  /** Deleting a folder unfiles what it held, and nothing else. */
  lemma DeleteFolderExact(db: Db, user: Id, f: Id)
    requires Inv(db)
    ensures var (d, r) := DeleteFolder(db, user, f);
            && Inv(d)
            && (r == if f in db.folders && db.folders[f].user == user then Done else NotFound)
            && (r != Done ==> d == db)
            && (r == Done ==>
                  && d.users == db.users && d.tags == db.tags && d.links == db.links
                  && d.folders == db.folders - {f} && d.items.Keys == db.items.Keys
                  && (forall i :: i in db.items ==>
                        && d.items[i].user == db.items[i].user && d.items[i].data == db.items[i].data
                        && d.items[i].folder == if db.items[i].folder == Some(f) then None else db.items[i].folder))
  {
    var (d, r) := DeleteFolder(db, user, f);
    if r == Done {
      forall i | i in d.items ensures RowOk(d, i) { assert RowOk(db, i); }
      forall l | l in d.links ensures LinkOk(d, l) { assert LinkOk(db, l); }
      forall t | t in d.tags ensures TagOk(d, t) { assert TagOk(db, t); }
    }
  }
}
