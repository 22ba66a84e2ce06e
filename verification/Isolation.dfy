/** Per-user isolation: what one user sees does not depend on what the others do, although the
    tag filter and the counts are not scoped to the user. */
module UserViews {
  import opened Wrappers
  import opened Names
  import opened Tables
  import opened TagLoop
  import opened Transactions
  import opened Queries

  /** The rows that belong to one user. */
  ghost function View(db: Db, u: Id): Db {
    Db(db.users * {u},
       map f | f in db.folders && db.folders[f].user == u :: db.folders[f],
       map i | i in db.items && db.items[i].user == u :: db.items[i],
       map t | t in db.tags && db.tags[t].user == u :: db.tags[t],
       map l | l in db.links && db.links[l] == u :: db.links[l])
  }

  // ----- queries see only the user's own rows -----

  /** Under the invariant, links of one's items or tags are one's own links to one's own tags. */
  lemma OwnLinks(db: Db, u: Id, l: Link)
    requires Inv(db) && l in db.links
    ensures Owns(db, u, l.item) ==> db.links[l] == u
    ensures l.tag in db.tags && db.tags[l.tag].user == u ==> db.links[l] == u
    ensures db.links[l] == u ==> l.tag in db.tags && db.tags[l.tag].user == u
  {
    assert LinkOk(db, l);
  }

  lemma TagNamesInView(db: Db, u: Id, i: Item)
    requires Inv(db)
    ensures TagNames(View(db, u), u, i) == TagNames(db, u, i)
  {
    forall l | l in db.links ensures db.links[l] == u ==> l.tag in View(db, u).tags { OwnLinks(db, u, l); }
  }

  lemma MatchesInView(db: Db, u: Id, i: Item, f: Filter)
    requires Inv(db) && Owns(db, u, i)
    ensures Matches(View(db, u), i, f) <==> Matches(db, i, f)
  {
    var v := View(db, u);
    assert RowOk(db, i);
    if HasTag(db, i, f.tag) {
      var l :| l in db.links && l.item == i && l.tag in db.tags && Fold(db.tags[l.tag].name) == Fold(f.tag);
      OwnLinks(db, u, l);
      assert l in v.links && l.tag in v.tags;
    }
  }

  lemma FiledInView(db: Db, u: Id, f: Id)
    requires Inv(db) && FolderOwned(db, u, f)
    ensures Filed(View(db, u), f) == Filed(db, f)
  {
    forall i | i in db.items && db.items[i].folder == Some(f) ensures db.items[i].user == u { assert RowOk(db, i); }
  }

  lemma LinksOfInView(db: Db, u: Id, t: Id)
    requires Inv(db) && t in db.tags && db.tags[t].user == u
    ensures LinksOf(View(db, u), t) == LinksOf(db, t)
  {
    forall l | l in db.links && l.tag == t ensures db.links[l] == u { OwnLinks(db, u, l); }
  }

  lemma ListItemsInView(db: Db, u: Id, kind: Kind, f: Filter)
    requires Inv(db)
    ensures ListItems(View(db, u), u, kind, f) == ListItems(db, u, kind, f)
  {
    forall i | i in db.items && db.items[i].user == u
      ensures Matches(View(db, u), i, f) <==> Matches(db, i, f)
      ensures TagNames(View(db, u), u, i) == TagNames(db, u, i)
    {
      MatchesInView(db, u, i, f);
      TagNamesInView(db, u, i);
    }
  }

  lemma ListFoldersInView(db: Db, u: Id)
    requires Inv(db)
    ensures ListFolders(View(db, u), u) == ListFolders(db, u)
  {
    forall f | FolderOwned(db, u, f) ensures Filed(View(db, u), f) == Filed(db, f) { FiledInView(db, u, f); }
  }

  lemma ListTagsInView(db: Db, u: Id)
    requires Inv(db)
    ensures ListTags(View(db, u), u) == ListTags(db, u)
  {
    var v := View(db, u);
    forall t | t in db.tags && db.tags[t].user == u ensures LinksOf(v, t) == LinksOf(db, t) { LinksOfInView(db, u, t); }
    forall p | p in ListTags(db, u) ensures p in ListTags(v, u) {
      var t :| t in db.tags && db.tags[t].user == u && p == (db.tags[t].name, |LinksOf(db, t)|);
      assert t in v.tags;
    }
    forall p | p in ListTags(v, u) ensures p in ListTags(db, u) {
      var t :| t in v.tags && v.tags[t].user == u && p == (v.tags[t].name, |LinksOf(v, t)|);
      assert t in db.tags;
    }
  }

  // ----- a user's own transactions act on the user's own rows -----

  /** A statement's result, seen by u. */
  ghost function ViewOpt(r: Option<Db>, u: Id): Option<Db> {
    if r.None? then None else Some(View(r.value, u))
  }

  lemma LookupInView(db: Db, u: Id, name: Text)
    requires UniqueTags(db)
    ensures LookupTag(View(db, u), u, name) == LookupTag(db, u, name)
  {
    assert forall t :: TagNamed(View(db, u), u, name, t) <==> TagNamed(db, u, name, t);
    forall s, t | TagNamed(db, u, name, s) && TagNamed(db, u, name, t) ensures s == t { }
  }

  lemma InsertLinkInView(db: Db, i: Item, t: Id, u: Id)
    requires t in db.tags ==> db.tags[t].user == u
    requires Link(i, t) in db.links ==> db.links[Link(i, t)] == u
    ensures InsertLink(View(db, u), i, t, u) == ViewOpt(InsertLink(db, i, t, u), u)
  {
    var d := db.(links := db.links[Link(i, t) := u]);
    assert View(d, u) == View(db, u).(links := View(db, u).links[Link(i, t) := u]);
  }

  lemma AddTagInView(db: Db, i: Item, u: Id, name: Text, id: Id)
    requires Inv(db) && Owns(db, u, i) && id !in db.tags
    ensures AddTag(View(db, u), i, u, name, id) == ViewOpt(AddTag(db, i, u, name, id), u)
  {
    LookupInView(db, u, name);
    assert RowOk(db, i);
    match LookupTag(db, u, name)
    case Some(t) =>
      if Link(i, t) in db.links { OwnLinks(db, u, Link(i, t)); }
      InsertLinkInView(db, i, t, u);
    case None =>
      forall l | l in db.links ensures l.tag != id { assert LinkOk(db, l); }
      var e := db.(tags := db.tags[id := Tag(u, name)]);
      assert View(e, u) == View(db, u).(tags := View(db, u).tags[id := Tag(u, name)]);
      InsertLinkInView(e, i, id, u);
  }

  lemma {:induction false} AddTagsInView(db: Db, i: Item, u: Id, names: seq<Text>, ids: seq<Id>, seen: set<Text>)
    requires Inv(db) && Owns(db, u, i) && |ids| == |names| && FreshIds(ids, db.tags.Keys)
    ensures AddTags(View(db, u), i, u, names, ids, seen) == ViewOpt(AddTags(db, i, u, names, ids, seen), u)
    decreases |names|
  {
    if names != [] {
      var name := NormalizeTag(names[0]);
      if name == [] || name in seen {
        AddTagsInView(db, i, u, names[1..], ids[1..], seen);
      } else {
        AddTagInView(db, i, u, name, ids[0]);
        NormalizedIsNormal(names[0]);
        AddTagExact(db, i, u, name, ids[0]);
        var r := AddTag(db, i, u, name, ids[0]);
        if r.Some? {
          AddTagsInView(r.value, i, u, names[1..], ids[1..], seen + {name});
        }
      }
    }
  }

  lemma ClearInView(db: Db, i: Item, u: Id)
    requires Inv(db)
    ensures ClearLinks(View(db, u), i, u) == View(ClearLinks(db, i, u), u)
  {
  }

  lemma SetTagsInView(db: Db, i: Item, u: Id, names: seq<Text>, ids: seq<Id>)
    requires Inv(db) && Owns(db, u, i) && |ids| == |names| && FreshIds(ids, db.tags.Keys)
    ensures SetTags(View(db, u), i, u, names, ids) == ViewOpt(SetTags(db, i, u, names, ids), u)
  {
    ClearInView(db, i, u);
    ClearLinksIs(db, i, u);
    AddTagsInView(ClearLinks(db, i, u), i, u, names, ids, {});
  }

  lemma PutInView(db: Db, i: Item, row: Row)
    requires i in db.items ==> db.items[i].user == row.user
    ensures View(db.(items := db.items[i := row]), row.user)
         == View(db, row.user).(items := View(db, row.user).items[i := row])
  {
  }

  lemma CreateItemInView(db: Db, i: Item, row: Row, names: seq<Text>, ids: seq<Id>)
    requires Inv(db) && i !in db.items && RowFits(i, row.data) && FolderMine(db, row.user, row.folder)
    requires |ids| == |names| && FreshIds(ids, db.tags.Keys)
    ensures var (d, r) := CreateItem(db, i, row, names, ids);
            CreateItem(View(db, row.user), i, row, names, ids) == (View(d, row.user), r)
  {
    if InsertItem(db, i, row).Some? {
      var e := db.(items := db.items[i := row]);
      PutRow(db, i, row);
      PutInView(db, i, row);
      SetTagsInView(e, i, row.user, names, ids);
    }
  }

  lemma UpdateItemInView(db: Db, i: Item, row: Row, names: Option<seq<Text>>, ids: seq<Id>)
    requires Inv(db) && RowFits(i, row.data) && FolderMine(db, row.user, row.folder)
    requires names.Some? ==> |ids| == |names.value| && FreshIds(ids, db.tags.Keys)
    ensures var (d, r) := UpdateItem(db, i, row, names, ids);
            UpdateItem(View(db, row.user), i, row, names, ids) == (View(d, row.user), r)
  {
    if Owns(db, row.user, i) && FolderExists(db, row.folder) {
      assert RowOk(db, i);
      var to := Row(row.user, row.folder, Merged(db.items[i].data, row.data));
      var e := db.(items := db.items[i := to]);
      PutRow(db, i, to);
      PutInView(db, i, to);
      if names.Some? {
        SetTagsInView(e, i, row.user, names.value, ids);
      }
    }
  }

  lemma PruneInView(db: Db, u: Id)
    requires forall l :: l in db.links && l.tag in db.tags && db.tags[l.tag].user == u ==> db.links[l] == u
    ensures PruneTags(View(db, u), u) == View(PruneTags(db, u), u)
  {
    forall t | t in db.tags && db.tags[t].user == u
      ensures t in (set l | l in db.links :: l.tag) <==> t in (set l | l in View(db, u).links :: l.tag)
    {
      if l :| l in db.links && l.tag == t {
        assert l in View(db, u).links;
      }
    }
  }

  lemma DeleteItemInView(db: Db, u: Id, i: Item)
    requires Inv(db)
    ensures var (d, r) := DeleteItem(db, u, i);
            DeleteItem(View(db, u), u, i) == (View(d, u), r)
  {
    if Owns(db, u, i) {
      var e := db.(items := db.items - {i});
      assert View(e, u) == View(db, u).(items := View(db, u).items - {i});
      var c := ClearLinks(e, i, u);
      assert View(c, u) == ClearLinks(View(e, u), i, u);
      forall l | l in c.links && l.tag in c.tags && c.tags[l.tag].user == u ensures c.links[l] == u { OwnLinks(db, u, l); }
      PruneInView(c, u);
    }
  }

  lemma CreateFolderInView(db: Db, f: Id, u: Id, text: Text, now: int)
    requires Inv(db) && f !in db.folders
    ensures var (d, r) := CreateFolder(db, f, u, text, now);
            CreateFolder(View(db, u), f, u, text, now) == (View(d, u), r)
  {
    var name := NormalizeFolder(text);
    assert forall g :: FolderNamed(View(db, u), u, name, g) <==> FolderNamed(db, u, name, g);
    PutFolderInView(db, u, f, Folder(u, name, now));
  }

  lemma PutFolderInView(db: Db, u: Id, f: Id, row: Folder)
    requires row.user == u && (f in db.folders ==> db.folders[f].user == u)
    ensures View(db.(folders := db.folders[f := row]), u) == View(db, u).(folders := View(db, u).folders[f := row])
  {
  }

  lemma RenameFolderInView(db: Db, u: Id, f: Id, text: Text)
    requires Inv(db)
    ensures var (d, r) := RenameFolder(db, u, f, text);
            RenameFolder(View(db, u), u, f, text) == (View(d, u), r)
  {
    var name := NormalizeFolder(text);
    assert forall g :: FolderNamed(View(db, u), u, name, g) <==> FolderNamed(db, u, name, g);
    if FolderOwned(db, u, f) {
      PutFolderInView(db, u, f, db.folders[f].(name := name));
    }
  }

  lemma DeleteFolderInView(db: Db, u: Id, f: Id)
    requires Inv(db)
    ensures var (d, r) := DeleteFolder(db, u, f);
            DeleteFolder(View(db, u), u, f) == (View(d, u), r)
  {
    if FolderOwned(db, u, f) {
      var d, e := DeleteFolder(db, u, f).0, DeleteFolder(View(db, u), u, f).0;
      assert View(d, u).folders == e.folders;
      assert View(d, u).items == e.items;
    }
  }
}

/** Runs of requests by many users, one store call at a time. */
module Isolation {
  import opened Wrappers
  import opened Names
  import opened Tables
  import opened TagLoop
  import opened Transactions
  import opened Queries
  import opened UserViews

  /** The store calls that the handlers make for a user. New ids are part of the call: newID
      gives them when the call runs. */
  datatype Call =
    | CheckFolder(folder: Id)
    | Create(item: Item, into: Option<Id>, data: Data, names: seq<Text>, ids: seq<Id>)
    | Update(item: Item, into: Option<Id>, data: Data, newNames: Option<seq<Text>>, ids: seq<Id>)
    | Delete(item: Item)
    | Read(item: Item)
    | List(kind: Kind, filter: Filter)
    | MakeFolder(folder: Id, name: Text, now: int)
    | Rename(folder: Id, name: Text)
    | DropFolder(folder: Id)
    | Folders
    | Tags

  datatype Request = Request(user: Id, call: Call)

  datatype Answer =
    | Status(outcome: Outcome)
    | Owned(yes: bool)
    | ItemRead(found: Option<(Row, set<Text>)>)
    | Items(rows: map<Item, (Row, set<Text>)>)
    | FolderList(folders: map<Id, (Folder, nat)>)
    | TagList(tags: set<(Text, nat)>)

  /** The store, and the folders that each user has been told are its own: by the ownership
      check, or on a row that was read. */
  datatype World = World(db: Db, told: set<(Id, Id)>)

  ghost predicate CallFits(c: Call) {
    && (c.Create? ==> |c.ids| == |c.names| && RowFits(c.item, c.data))
    && (c.Update? ==> (c.newNames.Some? ==> |c.ids| == |c.newNames.value|) && RowFits(c.item, c.data))
  }

  /** The answer to a call and the store after it. */
  ghost function Run(db: Db, u: Id, c: Call): (Db, Answer)
    requires CallFits(c)
  {
    match c
    case CheckFolder(f) => (db, Owned(FolderOwned(db, u, f)))
    case Create(i, f, data, names, ids) => var (d, r) := CreateItem(db, i, Row(u, f, data), names, ids); (d, Status(r))
    case Update(i, f, data, names, ids) => var (d, r) := UpdateItem(db, i, Row(u, f, data), names, ids); (d, Status(r))
    case Delete(i) => var (d, r) := DeleteItem(db, u, i); (d, Status(r))
    case Read(i) => (db, ItemRead(ReadItem(db, u, i)))
    case List(kind, filter) => (db, Items(ListItems(db, u, kind, filter)))
    case MakeFolder(f, name, now) => var (d, r) := CreateFolder(db, f, u, name, now); (d, Status(r))
    case Rename(f, name) => var (d, r) := RenameFolder(db, u, f, name); (d, Status(r))
    case DropFolder(f) => var (d, r) := DeleteFolder(db, u, f); (d, Status(r))
    case Folders => (db, FolderList(ListFolders(db, u)))
    case Tags => (db, TagList(ListTags(db, u)))
  }

  /** The folder that an answer shows to be the user's own. */
  ghost function Told(u: Id, c: Call, a: Answer): set<(Id, Id)> {
    if c.CheckFolder? && a == Owned(true) then {(u, c.folder)}
    else if a.ItemRead? && a.found.Some? && a.found.value.0.folder.Some? then {(u, a.found.value.0.folder.value)}
    else {}
  }

  ghost function Step(w: World, q: Request): World
    requires CallFits(q.call)
  {
    var (d, a) := Run(w.db, q.user, q.call);
    World(d, w.told + Told(q.user, q.call, a))
  }

  /** The keys that newID makes for a call, over all tables. */
  ghost function NewIds(c: Call): seq<Id> {
    match c
    case Create(i, _, _, _, ids) => [i.id] + ids
    case Update(_, _, _, _, ids) => ids
    case MakeFolder(f, _, _) => [f]
    case _ => []
  }

  /** A request that the handlers can make: its user exists, its new ids are fresh, and a folder
      it files an item under is one the user was told of. */
  ghost predicate Allowed(w: World, used: set<Id>, q: Request) {
    && CallFits(q.call) && q.user in w.db.users && FreshIds(NewIds(q.call), used)
    && (q.call.Create? && q.call.into.Some? ==> (q.user, q.call.into.value) in w.told)
    && (q.call.Update? && q.call.into.Some? ==> (q.user, q.call.into.value) in w.told)
  }

  /** A run from w that only makes allowed requests. */
  ghost predicate Legal(w: World, used: set<Id>, qs: seq<Request>)
    decreases |qs|
  {
    qs == [] || (Allowed(w, used, qs[0]) && Legal(Step(w, qs[0]), used + Elements(NewIds(qs[0].call)), qs[1..]))
  }

  ghost function Final(w: World, used: set<Id>, qs: seq<Request>): World
    requires Legal(w, used, qs)
    decreases |qs|
  {
    if qs == [] then w else Final(Step(w, qs[0]), used + Elements(NewIds(qs[0].call)), qs[1..])
  }

  /** The answers that user u gets. */
  ghost function Answers(w: World, used: set<Id>, qs: seq<Request>, u: Id): seq<Answer>
    requires Legal(w, used, qs)
    decreases |qs|
  {
    if qs == [] then []
    else
      (if qs[0].user == u then [Run(w.db, u, qs[0].call).1] else [])
      + Answers(Step(w, qs[0]), used + Elements(NewIds(qs[0].call)), qs[1..], u)
  }

  /** The requests of one user. */
  function Only(qs: seq<Request>, u: Id): seq<Request> {
    if qs == [] then [] else (if qs[0].user == u then [qs[0]] else []) + Only(qs[1..], u)
  }

  /** What holds of the world at every point: the relational invariant, keys in use are used up,
      and a folder somebody was told of is theirs for as long as it exists. */
  ghost predicate WorldInv(w: World, used: set<Id>) {
    && Inv(w.db)
    && (forall i :: i in w.db.items ==> i.id in used)
    && w.db.folders.Keys <= used && w.db.tags.Keys <= used
    && (forall p :: p in w.told ==> p.1 in used && FolderMine(w.db, p.0, Some(p.1)))
  }

  /** What a call by user v may change: new keys are among ids, folders keep their owner, and
      nobody else's rows change. */
  ghost predicate Confined(db: Db, d: Db, v: Id, ids: set<Id>) {
    && d.users == db.users
    && (forall f :: f in d.folders ==>
          if f in db.folders then d.folders[f].user == db.folders[f].user else f in ids && d.folders[f].user == v)
    && (forall t :: t in d.tags ==> t in db.tags || t in ids)
    && (forall i :: i in d.items ==> i in db.items || i.id in ids)
    && (forall u :: u != v ==> View(d, u) == View(db, u))
  }

  /** Replacing the tags of v's item leaves u's rows alone. */
  lemma ReplacesHidden(db: Db, d: Db, i: Item, v: Id, names: set<Text>, ids: set<Id>, u: Id)
    requires Inv(db) && (i in db.items ==> db.items[i].user == v) && u != v
    requires d.users == db.users && d.folders == db.folders
    requires Replaces(db.(items := d.items), d, i, v, names, ids)
    requires View(db.(items := d.items), u) == View(db, u)
    ensures View(d, u) == View(db, u)
  {
    forall l | l in db.links && db.links[l] == u ensures l.item != i { assert LinkOk(db, l); }
    assert View(d, u).tags == View(db, u).tags;
    assert View(d, u).links == View(db, u).links;
  }

  lemma PutHidden(db: Db, i: Item, row: Row, u: Id)
    requires (i in db.items ==> db.items[i].user == row.user) && u != row.user
    ensures View(db.(items := db.items[i := row]), u) == View(db, u)
  {
    assert View(db.(items := db.items[i := row]), u).items == View(db, u).items;
  }

  lemma ReplacesConfined(db: Db, d: Db, i: Item, row: Row, names: set<Text>, ids: set<Id>)
    requires Inv(db) && (i in db.items ==> db.items[i].user == row.user)
    requires Replaces(db.(items := db.items[i := row]), d, i, row.user, names, ids)
    ensures forall u :: u != row.user ==> View(d, u) == View(db, u)
  {
    forall u | u != row.user
      ensures View(d, u) == View(db, u)
    {
      PutHidden(db, i, row, u);
      ReplacesHidden(db, d, i, row.user, names, ids, u);
    }
  }

  lemma CreateConfined(db: Db, i: Item, row: Row, names: seq<Text>, ids: seq<Id>, used: set<Id>)
    requires Inv(db) && RowFits(i, row.data) && FolderMine(db, row.user, row.folder)
    requires |ids| == |names| && FreshIds([i.id] + ids, used) && db.tags.Keys <= used
    ensures Inv(CreateItem(db, i, row, names, ids).0)
    ensures Confined(db, CreateItem(db, i, row, names, ids).0, row.user, Elements([i.id] + ids))
  {
    FreshTail(i.id, ids, used);
    CreateItemExact(db, i, row, names, ids);
    var (d, r) := CreateItem(db, i, row, names, ids);
    if r == Done {
      ReplacesConfined(db, d, i, row, Wanted(names), Elements(ids));
    }
  }

  lemma FreshTail(id: Id, ids: seq<Id>, used: set<Id>)
    requires FreshIds([id] + ids, used)
    ensures id !in used && FreshIds(ids, used)
    ensures Elements([id] + ids) == {id} + Elements(ids)
  {
    var all := [id] + ids;
    assert all[0] == id && forall j :: 0 <= j < |ids| ==> all[j + 1] == ids[j];
  }

  lemma UpdateConfined(db: Db, i: Item, row: Row, names: Option<seq<Text>>, ids: seq<Id>, used: set<Id>)
    requires Inv(db) && RowFits(i, row.data) && FolderMine(db, row.user, row.folder)
    requires names.Some? ==> |ids| == |names.value|
    requires FreshIds(ids, used) && db.tags.Keys <= used
    ensures Inv(UpdateItem(db, i, row, names, ids).0)
    ensures Confined(db, UpdateItem(db, i, row, names, ids).0, row.user, Elements(ids))
  {
    UpdateItemExact(db, i, row, names, ids);
    var (d, r) := UpdateItem(db, i, row, names, ids);
    if r == Done {
      var to := Row(row.user, row.folder, Merged(db.items[i].data, row.data));
      var e := db.(items := db.items[i := to]);
      if names.Some? {
        ReplacesConfined(db, d, i, to, Wanted(names.value), Elements(ids));
      } else {
        forall u | u != row.user ensures View(d, u) == View(db, u) { PutHidden(db, i, to, u); }
      }
    }
  }

  lemma DeleteHidden(db: Db, v: Id, i: Item, u: Id)
    requires Inv(db) && Owns(db, v, i) && u != v
    ensures View(DeleteItem(db, v, i).0, u) == View(db, u)
  {
    var d := DeleteItem(db, v, i).0;
    forall l | l in db.links && db.links[l] == u ensures l.item != i { assert LinkOk(db, l); }
    assert View(d, u).items == View(db, u).items;
    assert View(d, u).tags == View(db, u).tags;
    assert View(d, u).links == View(db, u).links;
  }

  lemma DeleteConfined(db: Db, v: Id, i: Item)
    requires Inv(db)
    ensures Inv(DeleteItem(db, v, i).0) && Confined(db, DeleteItem(db, v, i).0, v, {})
  {
    DeleteItemExact(db, v, i);
    if Owns(db, v, i) {
      forall u | u != v ensures View(DeleteItem(db, v, i).0, u) == View(db, u) { DeleteHidden(db, v, i, u); }
    }
  }

  lemma FolderRowConfined(db: Db, v: Id, f: Id, row: Folder)
    requires row.user == v && (f in db.folders ==> db.folders[f].user == v)
    ensures forall u :: u != v ==> View(db.(folders := db.folders[f := row]), u) == View(db, u)
  {
    forall u | u != v
      ensures View(db.(folders := db.folders[f := row]), u) == View(db, u)
    {
      assert View(db.(folders := db.folders[f := row]), u).folders == View(db, u).folders;
    }
  }

  lemma MakeFolderConfined(db: Db, v: Id, f: Id, text: Text, now: int)
    requires Inv(db) && f !in db.folders
    ensures Inv(CreateFolder(db, f, v, text, now).0) && Confined(db, CreateFolder(db, f, v, text, now).0, v, {f})
  {
    CreateFolderExact(db, f, v, text, now);
    FolderRowConfined(db, v, f, Folder(v, NormalizeFolder(text), now));
  }

  lemma RenameConfined(db: Db, v: Id, f: Id, text: Text)
    requires Inv(db)
    ensures Inv(RenameFolder(db, v, f, text).0) && Confined(db, RenameFolder(db, v, f, text).0, v, {})
  {
    RenameFolderExact(db, v, f, text);
    if FolderOwned(db, v, f) {
      FolderRowConfined(db, v, f, Folder(v, NormalizeFolder(text), db.folders[f].created));
    }
  }

  lemma DropFolderConfined(db: Db, v: Id, f: Id)
    requires Inv(db)
    ensures Inv(DeleteFolder(db, v, f).0) && Confined(db, DeleteFolder(db, v, f).0, v, {})
  {
    DeleteFolderExact(db, v, f);
    var (d, r) := DeleteFolder(db, v, f);
    forall u | u != v
      ensures View(d, u) == View(db, u)
    {
      forall i | i in db.items && db.items[i].user == u ensures d.items[i] == db.items[i] { assert RowOk(db, i); }
      assert View(d, u).folders == View(db, u).folders;
      assert View(d, u).items == View(db, u).items;
    }
  }

  lemma RunConfined(db: Db, v: Id, c: Call, used: set<Id>)
    requires Inv(db) && CallFits(c) && FreshIds(NewIds(c), used)
    requires db.folders.Keys <= used && db.tags.Keys <= used
    requires c.Create? ==> FolderMine(db, v, c.into)
    requires c.Update? ==> FolderMine(db, v, c.into)
    ensures Inv(Run(db, v, c).0) && Confined(db, Run(db, v, c).0, v, Elements(NewIds(c)))
  {
    match c
    case Create(i, f, data, names, ids) => CreateConfined(db, i, Row(v, f, data), names, ids, used);
    case Update(i, f, data, names, ids) => UpdateConfined(db, i, Row(v, f, data), names, ids, used);
    case Delete(i) => DeleteConfined(db, v, i);
    case MakeFolder(f, name, now) =>
      assert [f][0] == f && f in Elements([f]);
      MakeFolderConfined(db, v, f, name, now);
    case Rename(f, name) => RenameConfined(db, v, f, name);
    case DropFolder(f) => DropFolderConfined(db, v, f);
    case _ =>
  }

  /** Every allowed request keeps the world invariant. */
  lemma StepKeeps(w: World, used: set<Id>, q: Request)
    requires WorldInv(w, used) && Allowed(w, used, q)
    ensures WorldInv(Step(w, q), used + Elements(NewIds(q.call)))
    ensures Step(w, q).db.users == w.db.users
  {
    var u, c := q.user, q.call;
    IntoIsMine(w, used, q);
    RunConfined(w.db, u, c, used);
    var (d, a) := Run(w.db, u, c);
    forall p | p in Told(u, c, a)
      ensures p.1 in w.db.folders && d == w.db && w.db.folders[p.1].user == p.0
    {
      if c.Read? { assert RowOk(w.db, c.item); }
    }
    forall j | 0 <= j < |NewIds(c)| ensures NewIds(c)[j] !in used { }
  }

  lemma IntoIsMine(w: World, used: set<Id>, q: Request)
    requires WorldInv(w, used) && Allowed(w, used, q)
    ensures q.call.Create? ==> FolderMine(w.db, q.user, q.call.into)
    ensures q.call.Update? ==> FolderMine(w.db, q.user, q.call.into)
  {
  }

  /** A user's own call acts on and answers from the user's own rows. */
  lemma RunInView(db: Db, u: Id, c: Call, used: set<Id>)
    requires Inv(db) && CallFits(c) && FreshIds(NewIds(c), used)
    requires db.folders.Keys <= used && db.tags.Keys <= used && forall i :: i in db.items ==> i.id in used
    requires c.Create? ==> FolderMine(db, u, c.into)
    requires c.Update? ==> FolderMine(db, u, c.into)
    ensures Run(View(db, u), u, c) == (View(Run(db, u, c).0, u), Run(db, u, c).1)
  {
    match c
    case CheckFolder(f) =>
    case Create(i, f, data, names, ids) =>
      FreshTail(i.id, ids, used);
      CreateItemInView(db, i, Row(u, f, data), names, ids);
    case Update(i, f, data, names, ids) => UpdateItemInView(db, i, Row(u, f, data), names, ids);
    case Delete(i) => DeleteItemInView(db, u, i);
    case Read(i) => TagNamesInView(db, u, i);
    case List(kind, filter) => ListItemsInView(db, u, kind, filter);
    case MakeFolder(f, name, now) =>
      assert [f][0] == f;
      CreateFolderInView(db, f, u, name, now);
    case Rename(f, name) => RenameFolderInView(db, u, f, name);
    case DropFolder(f) => DeleteFolderInView(db, u, f);
    case Folders => ListFoldersInView(db, u);
    case Tags => ListTagsInView(db, u);
  }

  /** What user u may know of a world. */
  ghost predicate Alike(w: World, v: World, u: Id) {
    && View(w.db, u) == View(v.db, u)
    && (forall f :: (u, f) in w.told <==> (u, f) in v.told)
  }

  /** Another user's request changes nothing for u. */
  lemma OthersInvisible(w: World, used: set<Id>, q: Request, v: World, u: Id)
    requires WorldInv(w, used) && Allowed(w, used, q) && q.user != u && Alike(w, v, u)
    ensures Alike(Step(w, q), v, u)
  {
    IntoIsMine(w, used, q);
    RunConfined(w.db, q.user, q.call, used);
  }

  /** The same request by u in two worlds alike for u gets the same answer and leaves them alike. */
  lemma OwnAlike(w: World, used: set<Id>, v: World, used': set<Id>, q: Request)
    requires WorldInv(w, used) && Allowed(w, used, q)
    requires WorldInv(v, used') && used' <= used && Alike(w, v, q.user)
    ensures Allowed(v, used', q)
    ensures Run(w.db, q.user, q.call).1 == Run(v.db, q.user, q.call).1
    ensures Alike(Step(w, q), Step(v, q), q.user)
  {
    var u := q.user;
    assert u in View(w.db, u).users;
    assert u in View(v.db, u).users;
    IntoIsMine(w, used, q);
    IntoIsMine(v, used', q);
    RunInView(w.db, u, q.call, used);
    RunInView(v.db, u, q.call, used');
  }

  /** The induction behind Isolation: one run with everybody, one with u alone. */
  lemma {:induction false} Lockstep(w: World, used: set<Id>, qs: seq<Request>, v: World, used': set<Id>, u: Id)
    requires WorldInv(w, used) && Legal(w, used, qs)
    requires WorldInv(v, used') && used' <= used && Alike(w, v, u)
    ensures Legal(v, used', Only(qs, u))
    ensures Answers(v, used', Only(qs, u), u) == Answers(w, used, qs, u)
    ensures Alike(Final(w, used, qs), Final(v, used', Only(qs, u)), u)
    decreases |qs|
  {
    if qs != [] {
      var q, ids := qs[0], Elements(NewIds(qs[0].call));
      StepKeeps(w, used, q);
      if q.user == u {
        OwnAlike(w, used, v, used', q);
        StepKeeps(v, used', q);
        Lockstep(Step(w, q), used + ids, qs[1..], Step(v, q), used' + ids, u);
        assert ([q] + Only(qs[1..], u))[1..] == Only(qs[1..], u);
      } else {
        OthersInvisible(w, used, q, v, u);
        Lockstep(Step(w, q), used + ids, qs[1..], v, used', u);
        assert Only(qs, u) == Only(qs[1..], u);
      }
    }
  }

  /** Isolation: over any run of any users' requests, user u gets the answers, and ends with the
      rows, of the run in which nobody else makes a request. */
  lemma Noninterference(w: World, used: set<Id>, qs: seq<Request>, u: Id)
    requires WorldInv(w, used) && Legal(w, used, qs)
    ensures Legal(w, used, Only(qs, u))
    ensures Answers(w, used, Only(qs, u), u) == Answers(w, used, qs, u)
    ensures View(Final(w, used, Only(qs, u)).db, u) == View(Final(w, used, qs).db, u)
  {
    Lockstep(w, used, qs, w, used, u);
  }

  /** The relational invariant holds after every legal run. */
  lemma {:induction false} RunsKeepInvariant(w: World, used: set<Id>, qs: seq<Request>)
    requires WorldInv(w, used) && Legal(w, used, qs)
    ensures Inv(Final(w, used, qs).db)
    decreases |qs|
  {
    if qs != [] {
      StepKeeps(w, used, qs[0]);
      RunsKeepInvariant(Step(w, qs[0]), used + Elements(NewIds(qs[0].call)), qs[1..]);
    }
  }

  /** That is, in full: after every legal run each link joins an item and a tag of the link's user,
      each item's owner exists and its folder, if any, is the owner's, and no user has two tags, or
      two folders, whose names differ at most in case. */
  lemma RunsKeepRelations(w: World, used: set<Id>, qs: seq<Request>)
    requires WorldInv(w, used) && Legal(w, used, qs)
    ensures var db := Final(w, used, qs).db;
            && (forall l :: l in db.links ==>
                  && l.item in db.items && db.items[l.item].user == db.links[l]
                  && l.tag in db.tags && db.tags[l.tag].user == db.links[l])
            && (forall i :: i in db.items ==>
                  && db.items[i].user in db.users
                  && (db.items[i].folder.Some? ==>
                        db.items[i].folder.value in db.folders && db.folders[db.items[i].folder.value].user == db.items[i].user))
            && (forall s, t | s in db.tags && t in db.tags && db.tags[s].user == db.tags[t].user ::
                  SameUpToCase(db.tags[s].name, db.tags[t].name) ==> s == t)
            && (forall f, g | f in db.folders && g in db.folders && db.folders[f].user == db.folders[g].user ::
                  SameUpToCase(db.folders[f].name, db.folders[g].name) ==> f == g)
  {
    RunsKeepInvariant(w, used, qs);
    var db := Final(w, used, qs).db;
    forall l | l in db.links ensures LinkOk(db, l) { }
    forall i | i in db.items ensures RowOk(db, i) { }
    forall s, t | s in db.tags && t in db.tags
      ensures Fold(db.tags[s].name) == Fold(db.tags[t].name) <==> SameUpToCase(db.tags[s].name, db.tags[t].name)
    {
      FoldExactly(db.tags[s].name, db.tags[t].name);
    }
    forall f, g | f in db.folders && g in db.folders
      ensures Fold(db.folders[f].name) == Fold(db.folders[g].name) <==> SameUpToCase(db.folders[f].name, db.folders[g].name)
    {
      FoldExactly(db.folders[f].name, db.folders[g].name);
    }
  }

  // ----- what the answers of a run are -----

  lemma {:induction false} OnlyJoins(a: seq<Request>, b: seq<Request>, u: Id)
    ensures Only(a + b, u) == Only(a, u) + Only(b, u)
    decreases |a|
  {
    if a == [] {
      assert a + b == b;
    } else {
      OnlyJoins(a[1..], b, u);
      var all, first := a + b, if a[0].user == u then [a[0]] else [];
      assert all[0] == a[0] && all[1..] == a[1..] + b;
      assert Only(all, u) == first + Only(all[1..], u);
      assert first + (Only(a[1..], u) + Only(b, u)) == Only(a, u) + Only(b, u);
    }
  }

  /** The user's requests, in the order they were made. */
  lemma {:induction false} OnlyOwn(qs: seq<Request>, u: Id)
    ensures forall q :: q in Only(qs, u) <==> q in qs && q.user == u
    ensures (forall q :: q in qs ==> q.user == u) ==> Only(qs, u) == qs
    decreases |qs|
  {
    if qs != [] {
      OnlyOwn(qs[1..], u);
      assert qs == [qs[0]] + qs[1..];
    }
  }

  /** A user gets one answer for each of its requests, in order: to the one after some others, what
      the call answers on the store that these have left. */
  lemma {:induction false} AnswersAre(w: World, used: set<Id>, before: seq<Request>, q: Request, later: seq<Request>, u: Id)
    requires Legal(w, used, before + [q] + later) && q.user == u
    ensures Legal(w, used, before)
    ensures |Answers(w, used, before + [q] + later, u)| == |Only(before + [q] + later, u)|
    ensures |Only(before, u)| < |Answers(w, used, before + [q] + later, u)|
    ensures CallFits(q.call)
    ensures Answers(w, used, before + [q] + later, u)[|Only(before, u)|] == Run(Final(w, used, before).db, u, q.call).1
    decreases |before|
  {
    var qs := before + [q] + later;
    AnswersCounted(w, used, qs, u);
    if before == [] {
      assert qs[0] == q;
    } else {
      assert qs[0] == before[0] && qs[1..] == before[1..] + [q] + later;
      AnswersAre(Step(w, qs[0]), used + Elements(NewIds(qs[0].call)), before[1..], q, later, u);
    }
  }

  lemma {:induction false} AnswersCounted(w: World, used: set<Id>, qs: seq<Request>, u: Id)
    requires Legal(w, used, qs)
    ensures |Answers(w, used, qs, u)| == |Only(qs, u)|
    decreases |qs|
  {
    if qs != [] {
      AnswersCounted(Step(w, qs[0]), used + Elements(NewIds(qs[0].call)), qs[1..], u);
    }
  }
}
