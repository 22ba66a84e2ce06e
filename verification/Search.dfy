/** What the listings of internal/store/notes.go, files.go and folders.go hold, filter by filter. */
module Search {
  import opened Names
  import opened Tables
  import opened Queries
  import opened Listing

  ghost function AnyItem(): Filter { Filter([], "", [], []) }

  ghost function InFolder(folder: string): Filter { Filter([], folder, [], []) }

  ghost function WithTag(tag: Text): Filter { Filter([], "", tag, []) }

  ghost function OfKind(kind: Text): Filter { Filter(kind, "", [], []) }

  ghost function Searched(q: Text): Filter { Filter([], "", [], q) }

  /** Without a filter a listing shows exactly the user's items of the table, each with its row and
      its tags; with one it shows some of these. */
  lemma AllListed(db: Db, user: Id, kind: Kind, f: Filter, i: Item)
    ensures i in ListItems(db, user, kind, AnyItem()) <==> i in db.items && db.items[i].user == user && i.kind == kind
    ensures i in ListItems(db, user, kind, f) ==>
              && i in ListItems(db, user, kind, AnyItem())
              && ListItems(db, user, kind, f)[i] == (db.items[i], TagNames(db, user, i))
  {
  }

  /** Filters add up: a listing shows what each of its filters alone shows. */
  lemma FiltersAddUp(db: Db, user: Id, kind: Kind, f: Filter)
    ensures ListItems(db, user, kind, f).Keys
         == ListItems(db, user, kind, OfKind(f.kind)).Keys * ListItems(db, user, kind, InFolder(f.folder)).Keys
            * ListItems(db, user, kind, WithTag(f.tag)).Keys * ListItems(db, user, kind, Searched(f.q)).Keys
  {
    forall i | i in db.items
      ensures Matches(db, i, f)
         <==> Matches(db, i, OfKind(f.kind)) && Matches(db, i, InFolder(f.folder)) && Matches(db, i, WithTag(f.tag)) && Matches(db, i, Searched(f.q))
    {
    }
  }

  /** A folder's listing holds the user's items in it; "none" holds those in no folder. */
  lemma FolderListed(db: Db, user: Id, kind: Kind, folder: string, i: Item)
    requires Owns(db, user, i) && i.kind == kind
    ensures folder != "" && folder != "none" ==>
              (i in ListItems(db, user, kind, InFolder(folder)) <==> db.items[i].folder.Some? && db.items[i].folder.value == folder)
    ensures i in ListItems(db, user, kind, InFolder("none")) <==> db.items[i].folder.None?
  {
  }

  /** Every item is listed under "none" or in exactly one of the user's folders. */
  lemma FoldersPartition(db: Db, user: Id, kind: Kind, i: Item)
    requires Inv(db) && "" !in db.folders && "none" !in db.folders
    requires i in ListItems(db, user, kind, AnyItem())
    ensures i in ListItems(db, user, kind, InFolder("none"))
       <==> forall f :: FolderOwned(db, user, f) ==> i !in ListItems(db, user, kind, InFolder(f))
    ensures forall f, g | FolderOwned(db, user, f) && FolderOwned(db, user, g) ::
              i in ListItems(db, user, kind, InFolder(f)) && i in ListItems(db, user, kind, InFolder(g)) ==> f == g
  {
    assert RowOk(db, i);
    forall f | FolderOwned(db, user, f)
      ensures i in ListItems(db, user, kind, InFolder(f)) <==> db.items[i].folder.Some? && db.items[i].folder.value == f
    {
      FolderListed(db, user, kind, f, i);
    }
    FolderListed(db, user, kind, "none", i);
    if db.items[i].folder.Some? {
      assert FolderOwned(db, user, db.items[i].folder.value);
    }
  }

  /** The notes and files listed under "none" are the unfiled ones. */
  lemma UnfiledListed(db: Db, user: Id)
    ensures |ListItems(db, user, NoteItem, InFolder("none"))| + |ListItems(db, user, FileItem, InFolder("none"))|
         == |Unfiled(db, user)|
  {
    BothKinds(db, user, InFolder("none"), Unfiled(db, user));
  }

  /** A tag's listing holds the items that show a tag of that name, up to case. */
  lemma TagListed(db: Db, user: Id, kind: Kind, tag: Text, i: Item)
    requires Inv(db) && i in ListItems(db, user, kind, AnyItem()) && tag != []
    ensures i in ListItems(db, user, kind, WithTag(tag))
       <==> exists n :: n in ListItems(db, user, kind, AnyItem())[i].1 && Fold(n) == Fold(tag)
  {
    TagFilterExact(db, user, i, tag);
    assert Fold(tag) in Folds(TagNames(db, user, i)) <==> exists n :: n in TagNames(db, user, i) && Fold(n) == Fold(tag);
  }

  /** The kind filter shows the files of that kind; notes have none, and it leaves them alone. */
  lemma KindListed(db: Db, user: Id, kind: Text, i: Item)
    requires Inv(db) && kind != [] && Owns(db, user, i)
    ensures i.kind == FileItem ==>
              db.items[i].data.FileData? && (i in ListItems(db, user, FileItem, OfKind(kind)) <==> db.items[i].data.kind == kind)
    ensures i.kind == NoteItem ==> i in ListItems(db, user, NoteItem, OfKind(kind))
  {
    assert RowOk(db, i);
  }

  /** q can be read in text, letter by letter, without regard to the case of ASCII letters. */
  ghost predicate Readable(q: Text, text: Text) {
    exists k :: 0 <= k <= |text| - |q| && ReadAt(q, text, k)
  }

  ghost predicate ReadAt(q: Text, text: Text, k: int)
    requires 0 <= k <= |text| - |q|
  {
    forall j :: 0 <= j < |q| ==> q[j] == text[k + j] || SameLetter(q[j], text[k + j])
  }

  lemma OccursAt(q: Text, text: Text, k: int)
    requires 0 <= k <= |text| - |q|
    ensures Fold(text)[k..k + |q|] == Fold(q) <==> ReadAt(q, text, k)
  {
    var part := text[k..k + |q|];
    assert Fold(text)[k..k + |q|] == Fold(part);
    FoldExactly(q, part);
  }

  lemma OccursExactly(q: Text, text: Text)
    ensures Occurs(Fold(q), Fold(text)) <==> Readable(q, text)
  {
    var t := Fold(text);
    if Occurs(Fold(q), t) {
      var a: Text, b: Text :| t == a + Fold(q) + b;
      assert t[|a|..|a| + |q|] == Fold(q);
      OccursAt(q, text, |a|);
    }
    if Readable(q, text) {
      var k :| 0 <= k <= |text| - |q| && ReadAt(q, text, k);
      OccursAt(q, text, k);
      assert t == t[..k] + Fold(q) + t[k + |q|..];
    }
  }

  /** A search shows the notes whose title, and the files whose name, or whose folder's name, holds
      the text in any case. */
  lemma SearchListed(db: Db, user: Id, kind: Kind, q: Text, i: Item)
    requires Inv(db) && Owns(db, user, i) && i.kind == kind && q != []
    ensures var row := db.items[i];
            i in ListItems(db, user, kind, Searched(q))
            <==> (row.data.NoteData? && Readable(q, row.data.title)) || (row.data.FileData? && Readable(q, row.data.name))
                 || (row.folder.Some? && row.folder.value in db.folders && Readable(q, db.folders[row.folder.value].name))
  {
    assert RowOk(db, i);
    var row := db.items[i];
    OccursExactly(q, if row.data.NoteData? then row.data.title else row.data.name);
    if row.folder.Some? {
      OccursExactly(q, db.folders[row.folder.value].name);
    }
  }

  /** Reading an item answers what the listing of its table shows of it, or that there is none. */
  lemma ReadAsListed(db: Db, user: Id, i: Item)
    ensures ReadItem(db, user, i).Some? <==> i in ListItems(db, user, i.kind, AnyItem())
    ensures ReadItem(db, user, i).Some? ==> ReadItem(db, user, i).value == ListItems(db, user, i.kind, AnyItem())[i]
  {
  }

  /** The folder list: the user's folders, each with the number of notes and files it lists. */
  lemma FoldersListed(db: Db, user: Id, f: Id)
    requires Inv(db) && f != "" && f != "none"
    ensures f in ListFolders(db, user) <==> f in db.folders && db.folders[f].user == user
    ensures f in ListFolders(db, user) ==>
              ListFolders(db, user)[f]
              == (db.folders[f], |ListItems(db, user, NoteItem, InFolder(f))| + |ListItems(db, user, FileItem, InFolder(f))|)
  {
    if FolderOwned(db, user, f) {
      FolderCountIsListed(db, user, f, InFolder(f));
    }
  }

  /** The tag list: the user's tags, each with the number of notes and files that it lists. */
  lemma TagsListed(db: Db, user: Id, name: Text, n: nat)
    requires Inv(db)
    ensures (name, n) in ListTags(db, user)
       <==> && (exists t :: t in db.tags && db.tags[t] == Tag(user, name))
            && n == |ListItems(db, user, NoteItem, WithTag(name))| + |ListItems(db, user, FileItem, WithTag(name))|
  {
    forall t | t in db.tags && db.tags[t].user == user
      ensures |LinksOf(db, t)| == |ListItems(db, user, NoteItem, WithTag(db.tags[t].name))| + |ListItems(db, user, FileItem, WithTag(db.tags[t].name))|
    {
      TagCountIsListed(db, user, t, WithTag(db.tags[t].name));
    }
    if t :| t in db.tags && db.tags[t] == Tag(user, name) {
      assert db.tags[t].user == user && db.tags[t].name == name;
      assert (name, |LinksOf(db, t)|) in ListTags(db, user);
    }
  }
}
