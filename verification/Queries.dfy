/** The queries of internal/store/notes.go, files.go and folders.go. The order of rows is left
    out except for tag names (see Listing). */
module Queries {
  import opened Wrappers
  import opened Names
  import opened Tables

  /** NoteFilter and FileFilter; folder "" is any folder and "none" is no folder. */
  datatype Filter = Filter(kind: Text, folder: string, tag: Text, q: Text)

  /** The names that attachTags gives item i of the user. */
  ghost function TagNames(db: Db, user: Id, i: Item): set<Text> {
    set l | l in db.links && db.links[l] == user && l.item == i && l.tag in db.tags :: db.tags[l.tag].name
  }

  /** The tag filter's subquery. It carries no user condition. */
  ghost predicate HasTag(db: Db, i: Item, name: Text) {
    exists l :: l in db.links && l.item == i && l.tag in db.tags && Fold(db.tags[l.tag].name) == Fold(name)
  }

  /** The search condition: the title or file name, or the name of the folder with that id,
      again without a user condition. */
  ghost predicate Found(db: Db, row: Row, q: Text) {
    || Occurs(Fold(q), Fold(if row.data.NoteData? then row.data.title else row.data.name))
    || (row.folder.Some? && row.folder.value in db.folders && Occurs(Fold(q), Fold(db.folders[row.folder.value].name)))
  }

  ghost predicate Matches(db: Db, i: Item, f: Filter)
    requires i in db.items
  {
    var row := db.items[i];
    && (i.kind.FileItem? && f.kind != [] ==> row.data.FileData? && row.data.kind == f.kind)
    && (f.folder == "none" ==> row.folder.None?)
    && (f.folder != "none" && f.folder != "" ==> row.folder == Some(f.folder))
    && (f.tag != [] ==> HasTag(db, i, f.tag))
    && (f.q != [] ==> Found(db, row, f.q))
  }

  /** NotesByUser and FilesByUser: the rows with their tags. */
  ghost function ListItems(db: Db, user: Id, kind: Kind, f: Filter): map<Item, (Row, set<Text>)> {
    map i | i in db.items && db.items[i].user == user && i.kind == kind && Matches(db, i, f) ::
      (db.items[i], TagNames(db, user, i))
  }

  /** NoteByID and FileByID. */
  ghost function ReadItem(db: Db, user: Id, i: Item): Option<(Row, set<Text>)> {
    if Owns(db, user, i) then Some((db.items[i], TagNames(db, user, i))) else None
  }

  /** The items that the count subqueries find for a folder, whoever owns them. */
  ghost function Filed(db: Db, f: Id): set<Item> {
    set i | i in db.items && db.items[i].folder == Some(f)
  }

  /** FoldersByUser. */
  ghost function ListFolders(db: Db, user: Id): map<Id, (Folder, nat)> {
    map f | f in db.folders && db.folders[f].user == user :: (db.folders[f], |Filed(db, f)|)
  }

  ghost function LinksOf(db: Db, t: Id): set<Link> {
    set l | l in db.links && l.tag == t
  }

  /** TagsByUser: names with the number of links, whoever made them. */
  ghost function ListTags(db: Db, user: Id): set<(Text, nat)> {
    set t | t in db.tags && db.tags[t].user == user :: (db.tags[t].name, |LinksOf(db, t)|)
  }

  /** FolderOwned. */
  predicate FolderOwned(db: Db, user: Id, f: Id) {
    f in db.folders && db.folders[f].user == user
  }
}
