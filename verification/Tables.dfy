/** The rows behind internal/store/notes.go, files.go and folders.go, the single SQL statements
    as changes of the tables, and the transactions built from them. A failed statement is None;
    the constraints are those of migrations 002 to 005 with foreign keys on. */
module Tables {
  import opened Wrappers
  import opened Names

  type Id = string

  datatype Kind = NoteItem | FileItem

  /** A note or a file, by table and primary key. */
  datatype Item = Item(kind: Kind, id: Id)

  /** The columns that only notes or only files have. */
  datatype Data =
    | NoteData(title: Text, size: nat, created: int, updated: int)
    | FileData(kind: Text, name: Text, mime: Text, size: nat, sha: Text, filename: string, created: int, rotation: int)

  datatype Row = Row(user: Id, folder: Option<Id>, data: Data)

  datatype Folder = Folder(user: Id, name: Text, created: int)

  datatype Tag = Tag(user: Id, name: Text)

  /** The primary key of item_tags. */
  datatype Link = Link(item: Item, tag: Id)

  datatype Db = Db(users: set<Id>, folders: map<Id, Folder>, items: map<Item, Row>, tags: map<Id, Tag>,
                   links: map<Link, Id>)

  datatype Outcome = Done | NotFound | Conflict | Rejected

  // ----- the relational invariant -----

  ghost predicate LinkOk(db: Db, l: Link)
    requires l in db.links
  {
    && l.item in db.items && db.items[l.item].user == db.links[l]
    && l.tag in db.tags && db.tags[l.tag].user == db.links[l]
  }

  ghost predicate RowOk(db: Db, i: Item)
    requires i in db.items
  {
    && db.items[i].user in db.users
    && (db.items[i].data.NoteData? <==> i.kind.NoteItem?)
    && (db.items[i].folder.Some? ==>
          && db.items[i].folder.value in db.folders
          && db.folders[db.items[i].folder.value].user == db.items[i].user)
  }

  ghost predicate TagOk(db: Db, t: Id)
    requires t in db.tags
  {
    db.tags[t].user in db.users && db.tags[t].name != [] && Normal(db.tags[t].name)
  }

  /** Every link joins an item and a tag of the link's user, every folder reference names a
      folder of the item's owner, and tag and folder names are unique per user up to case. */
  ghost predicate Inv(db: Db) {
    && (forall l {:trigger LinkOk(db, l)} :: l in db.links ==> LinkOk(db, l))
    && (forall i {:trigger RowOk(db, i)} :: i in db.items ==> RowOk(db, i))
    && (forall t {:trigger TagOk(db, t)} :: t in db.tags ==> TagOk(db, t))
    && (forall f :: f in db.folders ==> db.folders[f].user in db.users)
    && UniqueTags(db)
    && UniqueFolders(db)
  }

  ghost predicate UniqueTags(db: Db) {
    forall s, t {:trigger Fold(db.tags[s].name), Fold(db.tags[t].name)} | s in db.tags && t in db.tags && s != t ::
      db.tags[s].user == db.tags[t].user ==> Fold(db.tags[s].name) != Fold(db.tags[t].name)
  }

  ghost predicate UniqueFolders(db: Db) {
    forall f, g {:trigger Fold(db.folders[f].name), Fold(db.folders[g].name)} | f in db.folders && g in db.folders && f != g ::
      db.folders[f].user == db.folders[g].user ==> Fold(db.folders[f].name) != Fold(db.folders[g].name)
  }

  // ----- statements -----

  predicate FolderExists(db: Db, folder: Option<Id>) {
    folder.None? || folder.value in db.folders
  }

  /** INSERT INTO notes / files. */
  function InsertItem(db: Db, i: Item, row: Row): Option<Db> {
    if i in db.items || row.user !in db.users || !FolderExists(db, row.folder) then None
    else Some(db.(items := db.items[i := row]))
  }

  /** The columns that UPDATE notes / files sets; creation time and file kind stay. */
  function Merged(was: Data, data: Data): Data {
    match (was, data)
    case (NoteData(_, _, created, _), NoteData(title, size, _, updated)) => NoteData(title, size, created, updated)
    case (FileData(kind, _, _, _, _, _, created, _), FileData(_, name, mime, size, sha, filename, _, rotation)) =>
      FileData(kind, name, mime, size, sha, filename, created, rotation)
    case _ => was
  }

  predicate Owns(db: Db, user: Id, i: Item) {
    i in db.items && db.items[i].user == user
  }

  /** DELETE FROM item_tags for one item. */
  function ClearLinks(db: Db, i: Item, user: Id): Db {
    db.(links := map l | l in db.links && !(l.item == i && db.links[l] == user) :: db.links[l])
  }

  /** SELECT id FROM tags WHERE user_id = ? AND name = ? COLLATE NOCASE. */
  ghost predicate TagNamed(db: Db, user: Id, name: Text, t: Id) {
    t in db.tags && db.tags[t].user == user && Fold(db.tags[t].name) == Fold(name)
  }

  ghost function LookupTag(db: Db, user: Id, name: Text): (r: Option<Id>)
    ensures r.Some? ==> TagNamed(db, user, name, r.value)
    ensures r.None? ==> forall t :: !TagNamed(db, user, name, t)
  {
    if exists t :: TagNamed(db, user, name, t) then
      var t :| TagNamed(db, user, name, t);
      Some(t)
    else None
  }

  /** INSERT INTO tags. */
  ghost function InsertTag(db: Db, t: Id, user: Id, name: Text): Option<Db> {
    if t in db.tags || user !in db.users || LookupTag(db, user, name).Some? then None
    else Some(db.(tags := db.tags[t := Tag(user, name)]))
  }

  /** INSERT INTO item_tags. */
  function InsertLink(db: Db, i: Item, t: Id, user: Id): Option<Db> {
    if Link(i, t) in db.links || t !in db.tags then None
    else Some(db.(links := db.links[Link(i, t) := user]))
  }

  /** DELETE FROM tags WHERE user_id = ? AND no link is left. */
  function PruneTags(db: Db, user: Id): Db {
    var linked := set l | l in db.links :: l.tag;
    db.(tags := map t | t in db.tags && !(db.tags[t].user == user && t !in linked) :: db.tags[t])
  }

  // ----- setTagsTx -----

  /** One turn of the loop for a name that is to be linked; id is what newID would give. */
  ghost function AddTag(db: Db, i: Item, user: Id, name: Text, id: Id): Option<Db> {
    match LookupTag(db, user, name)
    case Some(t) => InsertLink(db, i, t, user)
    case None =>
      match InsertTag(db, id, user, name)
      case None => None
      case Some(d) => InsertLink(d, i, id, user)
  }

  /** The loop over the names, with the names seen so far. */
  ghost function AddTags(db: Db, i: Item, user: Id, names: seq<Text>, ids: seq<Id>, seen: set<Text>): Option<Db>
    requires |ids| == |names|
    decreases |names|
  {
    if names == [] then Some(db)
    else
      var name := NormalizeTag(names[0]);
      if name == [] || name in seen then AddTags(db, i, user, names[1..], ids[1..], seen)
      else
        match AddTag(db, i, user, name, ids[0])
        case None => None
        case Some(d) => AddTags(d, i, user, names[1..], ids[1..], seen + {name})
  }

  ghost function SetTags(db: Db, i: Item, user: Id, names: seq<Text>, ids: seq<Id>): Option<Db>
    requires |ids| == |names|
  {
    AddTags(ClearLinks(db, i, user), i, user, names, ids, {})
  }

  // ----- transactions on notes and files -----

  ghost function CreateItem(db: Db, i: Item, row: Row, names: seq<Text>, ids: seq<Id>): (Db, Outcome)
    requires |ids| == |names|
  {
    match InsertItem(db, i, row)
    case None => (db, Rejected)
    case Some(d) =>
      match SetTags(d, i, row.user, names, ids)
      case None => (db, Rejected)
      case Some(e) => (e, Done)
  }

  /** No names at all (nil) leaves the tags alone. */
  ghost function UpdateItem(db: Db, i: Item, row: Row, names: Option<seq<Text>>, ids: seq<Id>): (Db, Outcome)
    requires names.Some? ==> |ids| == |names.value|
  {
    if !Owns(db, row.user, i) then (db, NotFound)
    else if !FolderExists(db, row.folder) then (db, Rejected)
    else
      var d := db.(items := db.items[i := Row(row.user, row.folder, Merged(db.items[i].data, row.data))]);
      if names.None? then (d, Done)
      else
        match SetTags(d, i, row.user, names.value, ids)
        case None => (db, Rejected)
        case Some(e) => (e, Done)
  }

  function DeleteItem(db: Db, user: Id, i: Item): (Db, Outcome) {
    if !Owns(db, user, i) then (db, NotFound)
    else (PruneTags(ClearLinks(db.(items := db.items - {i}), i, user), user), Done)
  }

  // ----- folders -----

  ghost predicate FolderNamed(db: Db, user: Id, name: Text, f: Id) {
    f in db.folders && db.folders[f].user == user && Fold(db.folders[f].name) == Fold(name)
  }

  ghost function CreateFolder(db: Db, f: Id, user: Id, text: Text, now: int): (Db, Outcome) {
    var name := NormalizeFolder(text);
    if name == [] then (db, Rejected)
    else if f in db.folders || (exists g :: FolderNamed(db, user, name, g)) then (db, Conflict)
    else if user !in db.users then (db, Rejected)
    else (db.(folders := db.folders[f := Folder(user, name, now)]), Done)
  }

  ghost function RenameFolder(db: Db, user: Id, f: Id, text: Text): (Db, Outcome) {
    var name := NormalizeFolder(text);
    if name == [] then (db, Rejected)
    else if !(f in db.folders && db.folders[f].user == user) then (db, NotFound)
    else if exists g :: g != f && FolderNamed(db, user, name, g) then (db, Conflict)
    else (db.(folders := db.folders[f := db.folders[f].(name := name)]), Done)
  }

  /** ON DELETE SET NULL on the folder columns. */
  function DeleteFolder(db: Db, user: Id, f: Id): (Db, Outcome) {
    if !(f in db.folders && db.folders[f].user == user) then (db, NotFound)
    else
      (db.(folders := db.folders - {f},
           items := map i | i in db.items ::
             if db.items[i].folder == Some(f) then db.items[i].(folder := None) else db.items[i]), Done)
  }
}
