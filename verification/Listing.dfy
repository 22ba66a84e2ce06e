/** Listings: `attachTags` of internal/store/notes.go:178-208, and the folder counts of
    internal/store/folders.go. */
module Listing {
  import opened Names
  import opened Tables
  import opened TagLoop
  import opened Queries

  predicate Leq(a: Text, b: Text) {
    a == [] || (b != [] && (a[0] < b[0] || (a[0] == b[0] && Leq(a[1..], b[1..]))))
  }

  /** Leq is the order of bytes: a is a start of b, or has the smaller byte where they first differ. */
  lemma {:induction false} LeqExactly(a: Text, b: Text)
    ensures Leq(a, b) <==> exists k :: 0 <= k <= |a| && k <= |b| && a[..k] == b[..k] && (k == |a| || (k < |b| && a[k] < b[k]))
  {
    if a == [] {
      assert a[..0] == b[..0];
    } else if b == [] {
    } else {
      LeqExactly(a[1..], b[1..]);
      if Leq(a, b) {
        if a[0] < b[0] {
          assert a[..0] == b[..0];
        } else {
          var k :| 0 <= k < |a| && k < |b| && a[1..][..k] == b[1..][..k]
                   && (k == |a| - 1 || (k < |b| - 1 && a[1..][k] < b[1..][k]));
          assert a[..k + 1] == [a[0]] + a[1..][..k] && b[..k + 1] == [b[0]] + b[1..][..k];
        }
      }
      if k :| 0 <= k <= |a| && k <= |b| && a[..k] == b[..k] && (k == |a| || (k < |b| && a[k] < b[k])) {
        if k > 0 {
          assert a[..k][0] == b[..k][0];
          assert a[1..][..k - 1] == a[..k][1..] && b[1..][..k - 1] == b[..k][1..];
        }
      }
    }
  }

  /** ORDER BY name, under the column's NOCASE collation. */
  predicate NameLeq(a: Text, b: Text) {
    Leq(Fold(a), Fold(b))
  }

  /** Names are in order if the first is a start of the second, up to case, or has the smaller byte,
      capitals read as small letters, where they first differ. */
  lemma NameLeqExactly(a: Text, b: Text)
    ensures NameLeq(a, b)
       <==> exists k :: 0 <= k <= |a| && k <= |b| && SameUpToCase(a[..k], b[..k])
                     && (k == |a| || (k < |b| && Lower(a[k]) < Lower(b[k])))
  {
    forall k | 0 <= k <= |a| && k <= |b|
      ensures Fold(a)[..k] == Fold(b)[..k] <==> SameUpToCase(a[..k], b[..k])
    {
      assert Fold(a)[..k] == Fold(a[..k]) && Fold(b)[..k] == Fold(b[..k]);
      FoldExactly(a[..k], b[..k]);
    }
    LeqExactly(Fold(a), Fold(b));
    if NameLeq(a, b) {
      var k :| 0 <= k <= |a| && k <= |b| && Fold(a)[..k] == Fold(b)[..k] && (k == |a| || (k < |b| && Fold(a)[k] < Fold(b)[k]));
      assert SameUpToCase(a[..k], b[..k]);
    }
  }

  ghost predicate Ordered(names: seq<Text>) {
    forall j, k :: 0 <= j < k < |names| ==> NameLeq(names[j], names[k])
  }

  ghost predicate NoRepeats<T>(s: seq<T>) {
    forall j, k :: 0 <= j < k < |s| ==> s[j] != s[k]
  }

  /** The names of an item's tags as a list: each once, in name order. */
  ghost predicate TagList(db: Db, user: Id, i: Item, names: seq<Text>) {
    Ordered(names) && NoRepeats(names) && Elements(names) == TagNames(db, user, i)
  }

  /** A row of the answer: a link of the user's items of one kind, with its tag. */
  predicate Joined(db: Db, user: Id, kind: Kind, l: Link) {
    l in db.links && db.links[l] == user && l.item.kind == kind && l.tag in db.tags
  }

  /** rows is an answer to attachTags's query: every joined link once, by tag name. */
  ghost predicate Answers(db: Db, user: Id, kind: Kind, rows: seq<Link>) {
    && (forall l :: l in rows <==> Joined(db, user, kind, l))
    && NoRepeats(rows)
    && (forall j, k :: 0 <= j < k < |rows| && rows[j].tag in db.tags && rows[k].tag in db.tags ==>
          NameLeq(db.tags[rows[j].tag].name, db.tags[rows[k].tag].name))
  }

  /** The names in the rows of one item, in row order. */
  ghost function NamesIn(db: Db, rows: seq<Link>, i: Item): seq<Text> {
    if rows == [] then []
    else
      var l := rows[|rows| - 1];
      NamesIn(db, rows[..|rows| - 1], i) + if l.item == i && l.tag in db.tags then [db.tags[l.tag].name] else []
  }

  /** Where each name of an item comes from: a row of its own, further on for later names. */
  lemma {:induction false} NamesInRows(db: Db, rows: seq<Link>, i: Item) returns (at: seq<nat>)
    ensures |at| == |NamesIn(db, rows, i)|
    ensures forall j :: 0 <= j < |at| ==> at[j] < |rows| && rows[at[j]].item == i && rows[at[j]].tag in db.tags
    ensures forall j :: 0 <= j < |at| ==> NamesIn(db, rows, i)[j] == db.tags[rows[at[j]].tag].name
    ensures forall j, k :: 0 <= j < k < |at| ==> at[j] < at[k]
    ensures forall r :: 0 <= r < |rows| && rows[r].item == i && rows[r].tag in db.tags ==> r in at
  {
    if rows == [] {
      at := [];
    } else {
      var n := |rows| - 1;
      at := NamesInRows(db, rows[..n], i);
      if rows[n].item == i && rows[n].tag in db.tags {
        var was := at;
        at := at + [n];
        assert at[|was|] == n && forall r :: r in was ==> r in at;
      }
    }
  }

  /** A query answer gives every item exactly its own names, each once and in order. */
  lemma NamesInAreTagList(db: Db, user: Id, kind: Kind, rows: seq<Link>, i: Item)
    requires Inv(db) && Answers(db, user, kind, rows) && i.kind == kind
    ensures TagList(db, user, i, NamesIn(db, rows, i))
  {
    var names := NamesIn(db, rows, i);
    var at := NamesInRows(db, rows, i);
    forall j | 0 <= j < |at| ensures rows[at[j]] in rows && Joined(db, user, kind, rows[at[j]]) { }
    forall j, k | 0 <= j < k < |names|
      ensures NameLeq(names[j], names[k]) && names[j] != names[k]
    {
      assert at[j] < at[k];
      var l, m := rows[at[j]], rows[at[k]];
      assert LinkOk(db, l) && LinkOk(db, m);
      assert l != m;
      assert l.tag != m.tag;
    }
    forall n
      ensures n in names <==> n in TagNames(db, user, i)
    {
      if n in TagNames(db, user, i) {
        var l :| l in db.links && db.links[l] == user && l.item == i && l.tag in db.tags && db.tags[l.tag].name == n;
        assert Joined(db, user, kind, l) && l in rows;
        var r :| 0 <= r < |rows| && rows[r] == l;
        assert r in at;
        var j :| 0 <= j < |at| && at[j] == r;
        assert names[j] == n;
      }
    }
  }

  lemma {:induction false} LeqAntisymmetric(a: Text, b: Text)
    requires Leq(a, b) && Leq(b, a)
    ensures a == b
  {
    if a != [] {
      LeqAntisymmetric(a[1..], b[1..]);
      assert a == [a[0]] + a[1..] && b == [b[0]] + b[1..];
    }
  }

  lemma EmptyElements<T>(s: seq<T>)
    ensures s == [] <==> Elements(s) == {}
  {
    if s != [] {
      assert s[0] in Elements(s);
    }
  }

  /** The list is determined: two lists of the same names, free of case clashes, are the same. */
  lemma {:induction false} TagListUnique(a: seq<Text>, b: seq<Text>)
    requires Ordered(a) && Ordered(b) && NoRepeats(a) && NoRepeats(b)
    requires Elements(a) == Elements(b) && ClashFree(Elements(a))
    ensures a == b
  {
    if a == [] {
      EmptyElements(a);
      EmptyElements(b);
    } else {
      assert a[0] in Elements(b) && b != [] && b[0] in Elements(a);
      var j :| 0 <= j < |b| && b[j] == a[0];
      var k :| 0 <= k < |a| && a[k] == b[0];
      if a[0] != b[0] {
        LeqAntisymmetric(Fold(a[0]), Fold(b[0]));
      }
      TailElements(a);
      TailElements(b);
      TagListUnique(a[1..], b[1..]);
      assert a == [a[0]] + a[1..] && b == [b[0]] + b[1..];
    }
  }

  lemma TailElements<T>(s: seq<T>)
    requires s != [] && NoRepeats(s)
    ensures Elements(s[1..]) == Elements(s) - {s[0]} && NoRepeats(s[1..])
  {
    assert forall x :: x in s <==> x == s[0] || x in s[1..];
  }

  /** A note (or the shim for a file) that a listing fills. */
  class Listed {
    const id: Id
    var tags: seq<Text>

    constructor (id: Id)
      ensures this.id == id && tags == []
    {
      this.id := id;
      tags := [];
    }
  }

  /** Each row adds its name to the item it belongs to. */
  lemma NamesInGrow(db: Db, rows: seq<Link>, k: nat, i: Item)
    requires k < |rows| && rows[k].tag in db.tags
    ensures NamesIn(db, rows[..k + 1], i)
         == NamesIn(db, rows[..k], i) + if rows[k].item == i then [db.tags[rows[k].tag].name] else []
  {
    assert rows[..k + 1][..k] == rows[..k] && rows[..k + 1][k] == rows[k];
  }

  /** The items by id. */
  method Index(items: seq<Listed>) returns (byId: map<Id, Listed>)
    requires forall j, k :: 0 <= j < k < |items| ==> items[j].id != items[k].id
    ensures forall id :: id in byId <==> exists it :: it in items && it.id == id
    ensures forall it :: it in items ==> it.id in byId && byId[it.id] == it
  {
    byId := map[];
    var j := 0;
    while j < |items|
      invariant 0 <= j <= |items|
      invariant forall id :: id in byId ==> byId[id].id == id && byId[id] in items[..j]
      invariant forall k :: 0 <= k < j ==> items[k].id in byId && byId[items[k].id] == items[k]
    {
      byId := byId[items[j].id := items[j]];
      j := j + 1;
    }
  }

  /** The loop over the rows of the answer. */
  method Distribute(db: Db, kind: Kind, items: seq<Listed>, byId: map<Id, Listed>, rows: seq<Link>)
    requires forall l :: l in rows ==> l.item.kind == kind && l.tag in db.tags
    requires forall id :: id in byId <==> exists it :: it in items && it.id == id
    requires forall it :: it in items ==> it.id in byId && byId[it.id] == it && it.tags == []
    modifies items
    ensures forall it :: it in items ==> it.tags == NamesIn(db, rows, Item(kind, it.id))
  {
    var k := 0;
    while k < |rows|
      invariant 0 <= k <= |rows|
      invariant forall it :: it in items ==> it.tags == NamesIn(db, rows[..k], Item(kind, it.id))
    {
      var l := rows[k];
      assert l in rows;
      forall it | it in items
        ensures NamesIn(db, rows[..k + 1], Item(kind, it.id))
             == NamesIn(db, rows[..k], Item(kind, it.id)) + if l.item.id == it.id then [db.tags[l.tag].name] else []
      {
        NamesInGrow(db, rows, k, Item(kind, it.id));
      }
      if l.item.id in byId {
        var n := byId[l.item.id];
        n.tags := n.tags + [db.tags[l.tag].name];
      }
      k := k + 1;
    }
    assert rows[..k] == rows;
  }

  /** `attachTags`: one query for the whole listing; each item gets its own names. */
  method AttachTags(db: Db, kind: Kind, user: Id, items: seq<Listed>, rows: seq<Link>)
    requires Inv(db) && Answers(db, user, kind, rows)
    requires forall j, k :: 0 <= j < k < |items| ==> items[j].id != items[k].id
    requires forall it :: it in items ==> it.tags == []
    modifies items
    ensures forall it :: it in items ==> TagList(db, user, Item(kind, it.id), it.tags)
  {
    var byId := Index(items);
    forall l | l in rows ensures Joined(db, user, kind, l) { }
    Distribute(db, kind, items, byId, rows);
    forall it | it in items
      ensures TagList(db, user, Item(kind, it.id), it.tags)
    {
      NamesInAreTagList(db, user, kind, rows, Item(kind, it.id));
    }
  }

  // ----- folder counts -----

  ghost function ItemsOf(db: Db, user: Id): set<Item> {
    set i | i in db.items && db.items[i].user == user
  }

  ghost function Unfiled(db: Db, user: Id): set<Item> {
    set i | i in db.items && db.items[i].user == user && db.items[i].folder.None?
  }

  ghost function FoldersOf(db: Db, user: Id): set<Id> {
    set f | f in db.folders && db.folders[f].user == user
  }

  /** The counts that FoldersByUser shows, added up over some folders. */
  ghost function CountSum(db: Db, fs: set<Id>): nat {
    if fs == {} then 0 else
      var f :| f in fs;
      |Filed(db, f)| + CountSum(db, fs - {f})
  }

  ghost function FiledIn(db: Db, fs: set<Id>): set<Item> {
    set i | i in db.items && db.items[i].folder.Some? && db.items[i].folder.value in fs
  }

  lemma {:induction false} CountSumIs(db: Db, fs: set<Id>)
    ensures CountSum(db, fs) == |FiledIn(db, fs)|
  {
    if fs == {} {
      assert FiledIn(db, fs) == {};
    } else {
      var f :| f in fs && CountSum(db, fs) == |Filed(db, f)| + CountSum(db, fs - {f});
      CountSumIs(db, fs - {f});
      assert FiledIn(db, fs) == Filed(db, f) + FiledIn(db, fs - {f});
      assert Filed(db, f) !! FiledIn(db, fs - {f});
    }
  }

  /** Conservation: the folder counts and the unfiled items add up to the user's notes and files. */
  lemma CountsConserve(db: Db, user: Id)
    requires Inv(db)
    ensures CountSum(db, FoldersOf(db, user)) + |Unfiled(db, user)| == |ItemsOf(db, user)|
  {
    var filed := FiledIn(db, FoldersOf(db, user));
    CountSumIs(db, FoldersOf(db, user));
    forall i | i in db.items
      ensures i in ItemsOf(db, user) <==> i in filed || i in Unfiled(db, user)
    {
      assert RowOk(db, i);
    }
    assert ItemsOf(db, user) == filed + Unfiled(db, user);
    assert filed !! Unfiled(db, user);
  }

  lemma OthersKeepCount(db: Db, user: Id, f: Id, g: Id)
    requires FolderOwned(db, user, f) && g != f
    ensures Filed(DeleteFolder(db, user, f).0, g) == Filed(db, g)
  {
  }

  lemma UnfiledGrow(db: Db, user: Id, f: Id)
    requires Inv(db) && FolderOwned(db, user, f)
    ensures |Unfiled(DeleteFolder(db, user, f).0, user)| == |Unfiled(db, user)| + |Filed(db, f)|
  {
    forall i | i in Filed(db, f) ensures db.items[i].user == user { assert RowOk(db, i); }
    assert Unfiled(DeleteFolder(db, user, f).0, user) == Unfiled(db, user) + Filed(db, f);
    assert Unfiled(db, user) !! Filed(db, f);
  }

  /** Deleting a folder moves exactly its count to the unfiled items. */
  lemma DeleteFolderConserves(db: Db, user: Id, f: Id)
    requires Inv(db) && FolderOwned(db, user, f)
    ensures var d := DeleteFolder(db, user, f).0;
            && ItemsOf(d, user) == ItemsOf(db, user)
            && |Unfiled(d, user)| == |Unfiled(db, user)| + |Filed(db, f)|
            && (forall g :: g != f ==> Filed(d, g) == Filed(db, g))
  {
    var d := DeleteFolder(db, user, f).0;
    UnfiledGrow(db, user, f);
    assert ItemsOf(d, user) == ItemsOf(db, user);
    forall g | g != f ensures Filed(d, g) == Filed(db, g) { OthersKeepCount(db, user, f, g); }
  }

  // ----- the counts against the listings -----

  /** The tag filter, though not scoped to a user, matches exactly the items that are shown with
      the tag, up to case. */
  lemma TagFilterExact(db: Db, user: Id, i: Item, name: Text)
    requires Inv(db) && Owns(db, user, i)
    ensures HasTag(db, i, name) <==> Fold(name) in Folds(TagNames(db, user, i))
  {
    forall l | l in db.links && l.item == i && l.tag in db.tags
      ensures db.tags[l.tag].name in TagNames(db, user, i)
    {
      assert LinkOk(db, l);
    }
  }

  ghost function ItemsIn(links: set<Link>): set<Item> {
    set l | l in links :: l.item
  }

  /** One tag is linked to an item at most once. */
  lemma {:induction false} LinksAreItems(links: set<Link>, t: Id)
    requires forall l :: l in links ==> l.tag == t
    ensures |ItemsIn(links)| == |links|
    decreases |links|
  {
    if links == {} {
      assert ItemsIn(links) == {};
    } else {
      var l :| l in links;
      var rest := links - {l};
      LinksAreItems(rest, t);
      forall m | m in rest ensures m.item != l.item { assert m == Link(m.item, t) && l == Link(l.item, t); }
      assert ItemsIn(links) == ItemsIn(rest) + {l.item};
      assert l.item !in ItemsIn(rest);
    }
  }

  /** The items that two listings, of notes and of files, show under the same filter. */
  lemma BothKinds(db: Db, user: Id, f: Filter, items: set<Item>)
    requires forall i :: i in items <==> Owns(db, user, i) && Matches(db, i, f)
    ensures |ListItems(db, user, NoteItem, f)| + |ListItems(db, user, FileItem, f)| == |items|
  {
    var notes, files := ListItems(db, user, NoteItem, f), ListItems(db, user, FileItem, f);
    assert items == notes.Keys + files.Keys;
    assert notes.Keys !! files.Keys;
    assert |notes| == |notes.Keys| && |files| == |files.Keys|;
  }

  /** The count beside a tag is the number of notes and files that filtering by it lists. */
  lemma TagCountIsListed(db: Db, user: Id, t: Id, f: Filter)
    requires Inv(db) && t in db.tags && db.tags[t].user == user && f == Filter([], "", db.tags[t].name, [])
    ensures |ListItems(db, user, NoteItem, f)| + |ListItems(db, user, FileItem, f)| == |LinksOf(db, t)|
  {
    assert TagOk(db, t);
    var items := ItemsIn(LinksOf(db, t));
    LinksAreItems(LinksOf(db, t), t);
    forall i
      ensures i in items <==> Owns(db, user, i) && HasTag(db, i, f.tag)
    {
      if i in items {
        var l :| l in LinksOf(db, t) && l.item == i;
        assert LinkOk(db, l);
      }
      if Owns(db, user, i) && HasTag(db, i, f.tag) {
        var l :| l in db.links && l.item == i && l.tag in db.tags && Fold(db.tags[l.tag].name) == Fold(f.tag);
        assert LinkOk(db, l);
        assert l.tag == t && l in LinksOf(db, t);
      }
    }
    BothKinds(db, user, f, items);
  }

  /** The count beside a folder is the number of notes and files that it lists. */
  lemma FolderCountIsListed(db: Db, user: Id, folder: Id, f: Filter)
    requires Inv(db) && FolderOwned(db, user, folder) && folder != "" && folder != "none"
    requires f == Filter([], folder, [], [])
    ensures |ListItems(db, user, NoteItem, f)| + |ListItems(db, user, FileItem, f)| == |Filed(db, folder)|
  {
    forall i
      ensures i in Filed(db, folder) <==> Owns(db, user, i) && Matches(db, i, f)
    {
      if i in db.items { assert RowOk(db, i); }
    }
    BothKinds(db, user, f, Filed(db, folder));
  }
}
