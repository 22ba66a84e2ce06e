/** What a user's next request shows of the last one. Together with isolation this holds whatever
    other users do in between. */
module ReadYourWrites {
  import opened Wrappers
  import opened Names
  import opened Tables
  import opened TagLoop
  import opened Transactions
  import opened Queries
  import opened Listing
  import I = Isolation

  /** The calls that only ask: they change nothing. */
  lemma AsksChangeNothing(db: Db, u: Id, c: I.Call)
    requires I.CallFits(c)
    requires c.CheckFolder? || c.Read? || c.List? || c.Folders? || c.Tags?
    ensures I.Run(db, u, c).0 == db
    ensures match c
            case CheckFolder(f) => I.Run(db, u, c).1 == I.Owned(f in ListFolders(db, u))
            case Read(i) => I.Run(db, u, c).1 == I.ItemRead(ReadItem(db, u, i))
            case List(kind, filter) => I.Run(db, u, c).1 == I.Items(ListItems(db, u, kind, filter))
            case Folders => I.Run(db, u, c).1 == I.FolderList(ListFolders(db, u))
            case _ => I.Run(db, u, c).1 == I.TagList(ListTags(db, u))
  {
  }

  /** Replacing the tags of one item changes what nobody reads of another. */
  lemma OthersReadSame(db: Db, d: Db, i: Item, user: Id, names: set<Text>, ids: set<Id>, v: Id, j: Item)
    requires Inv(db) && i != j && Replaces(db.(items := d.items), d, i, user, names, ids)
    requires j in d.items <==> j in db.items
    requires j in db.items ==> d.items[j] == db.items[j]
    ensures ReadItem(d, v, j) == ReadItem(db, v, j)
  {
    forall l | l in db.links && l.item == j
      ensures l in d.links && d.links[l] == db.links[l]
      ensures l.tag in db.tags && l.tag in d.tags && d.tags[l.tag] == db.tags[l.tag]
    {
      assert LinkOk(db, l);
    }
    assert TagNames(d, v, j) == TagNames(db, v, j);
  }

  /** The names read back are those asked for, up to case. */
  lemma TagsReadBack(d: Db, i: Item, u: Id)
    requires Inv(d) && Owns(d, u, i)
    ensures Folds(TagNames(d, u, i)) == LinkedFolds(d, i)
  {
    forall l | l in d.links && l.item == i ensures d.links[l] == u && l.tag in d.tags { assert LinkOk(d, l); }
    forall n | n in LinkedFolds(d, i) ensures n in Folds(TagNames(d, u, i)) {
      var l :| l in d.links && l.item == i && l.tag in d.tags && Fold(d.tags[l.tag].name) == n;
      assert d.tags[l.tag].name in TagNames(d, u, i);
    }
  }

  /** A created item is read as it was created, with the tags asked for, up to case; nobody reads
      anything else differently. */
  lemma CreatedIsRead(db: Db, u: Id, i: Item, into: Option<Id>, data: Data, names: seq<Text>, ids: seq<Id>, v: Id, j: Item)
    requires Inv(db) && RowFits(i, data) && FolderMine(db, u, into) && |ids| == |names| && FreshIds(ids, db.tags.Keys)
    ensures var (d, a) := I.Run(db, u, I.Create(i, into, data, names, ids));
            && (a == I.Status(Done) <==>
                  i !in db.items && u in db.users && (into.Some? ==> into.value in db.folders) && ClashFree(Wanted(names)))
            && (a != I.Status(Done) ==> d == db)
            && (a == I.Status(Done) ==>
                  && ReadItem(d, u, i).Some? && ReadItem(d, u, i).value.0 == Row(u, into, data)
                  && Folds(ReadItem(d, u, i).value.1) == Folds(Wanted(names))
                  && (j != i ==> ReadItem(d, v, j) == ReadItem(db, v, j)))
  {
    CreateItemExact(db, i, Row(u, into, data), names, ids);
    var (d, a) := I.Run(db, u, I.Create(i, into, data, names, ids));
    if a == I.Status(Done) {
      TagsReadBack(d, i, u);
      if j != i { OthersReadSame(db, d, i, u, Wanted(names), Elements(ids), v, j); }
    }
  }

  /** An updated item is read with the new columns, and with the new tags if any were given. */
  lemma UpdatedIsRead(db: Db, u: Id, i: Item, into: Option<Id>, data: Data, names: Option<seq<Text>>, ids: seq<Id>, v: Id, j: Item)
    requires Inv(db) && RowFits(i, data) && FolderMine(db, u, into)
    requires names.Some? ==> |ids| == |names.value| && FreshIds(ids, db.tags.Keys)
    ensures var (d, a) := I.Run(db, u, I.Update(i, into, data, names, ids));
            && (a == I.Status(NotFound) <==> ReadItem(db, u, i).None?)
            && (a == I.Status(Done) <==>
                  && ReadItem(db, u, i).Some? && (into.Some? ==> into.value in db.folders)
                  && (names.Some? ==> ClashFree(Wanted(names.value))))
            && (a != I.Status(Done) ==> d == db)
            && (a == I.Status(Done) ==>
                  && ReadItem(d, u, i).Some?
                  && ReadItem(d, u, i).value.0 == Row(u, into, Merged(db.items[i].data, data))
                  && (names.Some? ==> Folds(ReadItem(d, u, i).value.1) == Folds(Wanted(names.value)))
                  && (names.None? ==> ReadItem(d, u, i).value.1 == ReadItem(db, u, i).value.1)
                  && (j != i ==> ReadItem(d, v, j) == ReadItem(db, v, j)))
  {
    UpdateItemExact(db, i, Row(u, into, data), names, ids);
    var (d, a) := I.Run(db, u, I.Update(i, into, data, names, ids));
    if a == I.Status(Done) {
      TagsReadBack(d, i, u);
      if names.Some? {
        if j != i { OthersReadSame(db, d, i, u, Wanted(names.value), Elements(ids), v, j); }
      } else {
        assert TagNames(d, u, i) == TagNames(db, u, i) && TagNames(d, v, j) == TagNames(db, v, j);
      }
    }
  }

  /** A deleted item is gone, and nobody reads anything else differently. */
  lemma DeletedIsGone(db: Db, u: Id, i: Item, v: Id, j: Item)
    requires Inv(db)
    ensures var (d, a) := I.Run(db, u, I.Delete(i));
            && a == I.Status(if ReadItem(db, u, i).Some? then Done else NotFound)
            && ReadItem(d, u, i) == None
            && (a != I.Status(Done) ==> d == db)
            && (j != i ==> ReadItem(d, v, j) == ReadItem(db, v, j))
  {
    DeleteItemExact(db, u, i);
    var (d, a) := I.Run(db, u, I.Delete(i));
    if a == I.Status(Done) && j != i {
      forall l | l in db.links && l.item == j ensures l in d.links && d.links[l] == db.links[l] && l.tag in d.tags {
        assert LinkOk(db, l);
      }
      assert TagNames(d, v, j) == TagNames(db, v, j);
    }
  }

  lemma NothingInNew(db: Db, f: Id)
    requires Inv(db) && f !in db.folders
    ensures Filed(db, f) == {}
  {
    forall i | i in db.items ensures db.items[i].folder != Some(f) { assert RowOk(db, i); }
  }

  /** No folder but f that the user is shown has this name, up to case. */
  ghost predicate NameFree(db: Db, u: Id, f: Id, name: Text) {
    forall g :: g in ListFolders(db, u) && g != f ==> !SameUpToCase(ListFolders(db, u)[g].0.name, name)
  }

  lemma NameFreeIs(db: Db, u: Id, f: Id, name: Text)
    ensures NameFree(db, u, f, name) <==> forall g :: g != f ==> !FolderNamed(db, u, name, g)
  {
    forall g | g in db.folders ensures Fold(db.folders[g].name) == Fold(name) <==> SameUpToCase(db.folders[g].name, name) {
      FoldExactly(db.folders[g].name, name);
    }
    if g :| g != f && FolderNamed(db, u, name, g) {
      assert g in ListFolders(db, u) && SameUpToCase(ListFolders(db, u)[g].0.name, name);
    }
    if forall g :: g != f ==> !FolderNamed(db, u, name, g) {
      forall g | g in ListFolders(db, u) && g != f ensures !SameUpToCase(ListFolders(db, u)[g].0.name, name) {
        assert !FolderNamed(db, u, name, g);
      }
    }
  }

  /** A new folder is shown, trimmed and cut, with nothing in it; the others as before. */
  lemma MadeFolderIsShown(db: Db, u: Id, f: Id, name: Text, now: int)
    requires Inv(db)
    ensures var (d, a) := I.Run(db, u, I.MakeFolder(f, name, now));
            && (a == I.Status(Done) <==>
                  NormalizeFolder(name) != [] && u in db.users && f !in db.folders && NameFree(db, u, f, NormalizeFolder(name)))
            && (a != I.Status(Done) ==> d == db)
            && (a == I.Status(Done) ==>
                  ListFolders(d, u) == ListFolders(db, u)[f := (Folder(u, NormalizeFolder(name), now), 0)])
  {
    CreateFolderExact(db, f, u, name, now);
    NameFreeIs(db, u, f, NormalizeFolder(name));
    var (d, a) := I.Run(db, u, I.MakeFolder(f, name, now));
    if a == I.Status(Done) {
      NothingInNew(db, f);
      forall g ensures Filed(d, g) == Filed(db, g) { }
    }
  }

  /** A renamed folder is shown with its new name, everything else as before. */
  lemma RenamedFolderIsShown(db: Db, u: Id, f: Id, name: Text)
    requires Inv(db)
    ensures var (d, a) := I.Run(db, u, I.Rename(f, name));
            && (a == I.Status(Done) <==>
                  NormalizeFolder(name) != [] && f in ListFolders(db, u) && NameFree(db, u, f, NormalizeFolder(name)))
            && (a == I.Status(NotFound) <==> NormalizeFolder(name) != [] && f !in ListFolders(db, u))
            && (a != I.Status(Done) ==> d == db)
            && (a == I.Status(Done) ==>
                  && f in ListFolders(db, u)
                  && ListFolders(d, u)
                     == ListFolders(db, u)[f := (ListFolders(db, u)[f].0.(name := NormalizeFolder(name)), ListFolders(db, u)[f].1)])
  {
    RenameFolderExact(db, u, f, name);
    NameFreeIs(db, u, f, NormalizeFolder(name));
    var (d, a) := I.Run(db, u, I.Rename(f, name));
    forall g ensures Filed(d, g) == Filed(db, g) { }
  }

  /** A deleted folder is shown no more; what was in it is read unfiled, everything else as before. */
  lemma DroppedFolderIsGone(db: Db, u: Id, f: Id, i: Item)
    requires Inv(db)
    ensures var (d, a) := I.Run(db, u, I.DropFolder(f));
            && a == I.Status(if f in ListFolders(db, u) then Done else NotFound)
            && (a != I.Status(Done) ==> d == db)
            && ListFolders(d, u) == ListFolders(db, u) - {f}
            && (ReadItem(d, u, i).Some? <==> ReadItem(db, u, i).Some?)
            && (ReadItem(db, u, i).Some? ==>
                  var (was, now) := (ReadItem(db, u, i).value, ReadItem(d, u, i).value);
                  && now.1 == was.1 && now.0.user == was.0.user && now.0.data == was.0.data
                  && now.0.folder == (if a == I.Status(Done) && was.0.folder == Some(f) then None else was.0.folder))
  {
    DeleteFolderExact(db, u, f);
    var (d, a) := I.Run(db, u, I.DropFolder(f));
    if a == I.Status(Done) {
      assert TagNames(d, u, i) == TagNames(db, u, i);
      forall g | g != f ensures Filed(d, g) == Filed(db, g) { OthersKeepCount(db, u, f, g); }
      assert ListFolders(d, u) == ListFolders(db, u) - {f};
    }
  }
}
