/** The exact meaning of the tag-replacement loop of internal/store/notes.go:210-244. */
module TagLoop {
  import opened Wrappers
  import opened Names
  import opened Tables

  /** The folded names of the tags linked to an item. */
  ghost function LinkedFolds(db: Db, i: Item): set<Text> {
    set l | l in db.links && l.item == i && l.tag in db.tags :: Fold(db.tags[l.tag].name)
  }

  /** The names that the loop tries to link: normalised, without empty ones. */
  ghost function Wanted(names: seq<Text>): set<Text> {
    set n | n in names && NormalizeTag(n) != [] :: NormalizeTag(n)
  }

  /** Ids that newID has not given before. */
  ghost predicate FreshIds(ids: seq<Id>, used: set<Id>) {
    && (forall j :: 0 <= j < |ids| ==> ids[j] !in used)
    && (forall j, k :: 0 <= j < k < |ids| ==> ids[j] != ids[k])
  }

  function Elements<T>(s: seq<T>): set<T> { set x | x in s }

  /** The only difference between db and d: new tags of the user, with fresh ids and names from
      the list, and new links of item i. Existing tags keep their id and spelling, and no other
      item's links change. */
  ghost predicate Adds(db: Db, d: Db, i: Item, user: Id, names: set<Text>, ids: set<Id>) {
    && d.users == db.users && d.folders == db.folders && d.items == db.items
    && (forall t :: t in db.tags ==> t in d.tags && d.tags[t] == db.tags[t])
    && (forall t :: t in d.tags && t !in db.tags ==> t in ids && d.tags[t].user == user && d.tags[t].name in names)
    && (forall l :: l in db.links ==> l in d.links && d.links[l] == db.links[l])
    && (forall l :: l in d.links && l !in db.links ==> l.item == i && d.links[l] == user)
  }

  lemma AddsTransitive(a: Db, b: Db, c: Db, i: Item, user: Id, names: set<Text>, names': set<Text>, ids: set<Id>, ids': set<Id>)
    requires Adds(a, b, i, user, names, ids) && Adds(b, c, i, user, names', ids')
    ensures Adds(a, c, i, user, names + names', ids + ids')
  {
  }

  /** Linking one name succeeds if and only if no tag of that name, up to case, is linked yet. */
  lemma AddTagExact(db: Db, i: Item, user: Id, name: Text, id: Id)
    requires Inv(db) && Owns(db, user, i) && name != [] && Normal(name) && id !in db.tags
    ensures AddTag(db, i, user, name, id).Some? <==> Fold(name) !in LinkedFolds(db, i)
    ensures AddTag(db, i, user, name, id).Some? ==>
              var d := AddTag(db, i, user, name, id).value;
              && Inv(d) && Adds(db, d, i, user, {name}, {id})
              && LinkedFolds(d, i) == LinkedFolds(db, i) + {Fold(name)}
  {
    match LookupTag(db, user, name)
    case Some(t) =>
      if Link(i, t) in db.links {
        assert Fold(db.tags[t].name) in LinkedFolds(db, i);
      } else {
        LinkExisting(db, i, user, name, t);
      }
    case None =>
      forall l | l in db.links && l.item == i
        ensures l.tag in db.tags && Fold(db.tags[l.tag].name) != Fold(name)
      {
        assert LinkOk(db, l);
        assert !TagNamed(db, user, name, l.tag);
      }
      assert RowOk(db, i);
      NewTag(db, i, user, name, id);
      var d := db.(tags := db.tags[id := Tag(user, name)]);
      forall l | l in db.links ensures l.tag != id { assert LinkOk(db, l); }
      LinkExisting(d, i, user, name, id);
      AddsTransitive(db, d, d.(links := d.links[Link(i, id) := user]), i, user, {name}, {}, {id}, {});
  }

  /** Rows and tags that stay the same stay well formed. */
  lemma RowsKept(db: Db, d: Db)
    requires Inv(db) && d.users == db.users && d.folders == db.folders && d.items == db.items
    ensures forall j :: j in d.items ==> RowOk(d, j)
    ensures forall t :: t in db.tags && t in d.tags && d.tags[t] == db.tags[t] ==> TagOk(d, t)
  {
    forall j | j in d.items ensures RowOk(d, j) { assert RowOk(db, j); }
    forall t | t in db.tags && t in d.tags && d.tags[t] == db.tags[t] ensures TagOk(d, t) { assert TagOk(db, t); }
  }

  lemma LinkExisting(db: Db, i: Item, user: Id, name: Text, t: Id)
    requires Inv(db) && Owns(db, user, i) && TagNamed(db, user, name, t) && Link(i, t) !in db.links
    ensures Fold(name) !in LinkedFolds(db, i)
    ensures var d := db.(links := db.links[Link(i, t) := user]);
            && Inv(d) && Adds(db, d, i, user, {}, {})
            && LinkedFolds(d, i) == LinkedFolds(db, i) + {Fold(name)}
  {
    var d := db.(links := db.links[Link(i, t) := user]);
    forall l | l in db.links && l.item == i
      ensures l.tag in db.tags && Fold(db.tags[l.tag].name) != Fold(name)
    {
      assert LinkOk(db, l) && l != Link(i, t);
    }
    forall l | l in d.links ensures LinkOk(d, l) {
      if l in db.links { assert LinkOk(db, l); }
    }
    RowsKept(db, d);
    assert Link(i, t) in d.links && Fold(d.tags[t].name) in LinkedFolds(d, i);
  }

  lemma NewTag(db: Db, i: Item, user: Id, name: Text, t: Id)
    requires Inv(db) && user in db.users && name != [] && Normal(name) && t !in db.tags
    requires forall s :: !TagNamed(db, user, name, s)
    ensures var d := db.(tags := db.tags[t := Tag(user, name)]);
            Inv(d) && Adds(db, d, i, user, {name}, {t}) && LinkedFolds(d, i) == LinkedFolds(db, i)
  {
    var d := db.(tags := db.tags[t := Tag(user, name)]);
    forall l | l in db.links ensures LinkOk(d, l) && l.tag in db.tags && d.tags[l.tag] == db.tags[l.tag] {
      assert LinkOk(db, l);
    }
    RowsKept(db, d);
    assert TagOk(d, t);
    forall s | s in db.tags && db.tags[s].user == user ensures Fold(db.tags[s].name) != Fold(name) {
      assert !TagNamed(db, user, name, s);
    }
  }

  /** What is still to be linked after the first name: the name itself, if it is linked, and the rest. */
  lemma WantedCons(names: seq<Text>)
    requires names != []
    ensures Wanted(names) == (if NormalizeTag(names[0]) == [] then {} else {NormalizeTag(names[0])}) + Wanted(names[1..])
  {
    assert forall n :: n in names <==> n == names[0] || n in names[1..];
  }

  lemma ClashWithSeen(seen: set<Text>, name: Text, rest: set<Text>)
    requires ClashFree(seen) && name !in seen
    ensures Fold(name) !in Folds(seen) ==> ClashFree(seen + {name})
    ensures Fold(name) in Folds(seen) ==> !ClashFree(seen + ({name} + rest))
  {
    if Fold(name) in Folds(seen) {
      var s :| s in seen && Fold(s) == Fold(name);
      assert s in seen + ({name} + rest) && name in seen + ({name} + rest);
    } else {
      forall m | m in seen ensures Fold(m) != Fold(name) {
        assert Fold(m) in Folds(seen);
      }
    }
  }

  /** What the loop does from a point where the names in seen are linked: it succeeds if and only
      if these and the names still wanted are clash-free, and then links exactly these. */
  ghost predicate LoopMeans(db: Db, i: Item, user: Id, wanted: set<Text>, ids: set<Id>, seen: set<Text>, r: Option<Db>) {
    && (r.Some? <==> ClashFree(seen + wanted))
    && (r.Some? ==>
          && Inv(r.value) && Adds(db, r.value, i, user, wanted, ids)
          && LinkedFolds(r.value, i) == Folds(seen + wanted))
  }

  /** A name that is skipped changes nothing. */
  lemma SkipStep(db: Db, i: Item, user: Id, rest: set<Text>, wanted: set<Text>, ids: set<Id>, ids': set<Id>,
                 seen: set<Text>, r: Option<Db>)
    requires LoopMeans(db, i, user, rest, ids, seen, r)
    requires seen + rest == seen + wanted && rest <= wanted && ids <= ids'
    ensures LoopMeans(db, i, user, wanted, ids', seen, r)
  {
  }

  /** A name that is linked moves from wanted to seen. */
  lemma LinkStep(db: Db, d: Db, i: Item, user: Id, name: Text, id: Id, rest: set<Text>, ids: set<Id>,
                 seen: set<Text>, r: Option<Db>)
    requires Adds(db, d, i, user, {name}, {id})
    requires LoopMeans(d, i, user, rest, ids, seen + {name}, r)
    ensures LoopMeans(db, i, user, {name} + rest, {id} + ids, seen, r)
  {
    assert seen + {name} + rest == seen + ({name} + rest);
    if r.Some? {
      AddsTransitive(db, d, r.value, i, user, {name}, rest, {id}, ids);
    }
  }

  lemma IdsCons(ids: seq<Id>)
    requires ids != []
    ensures Elements(ids) == {ids[0]} + Elements(ids[1..])
  {
    assert forall id :: id in ids <==> id == ids[0] || id in ids[1..];
  }

  lemma {:induction false} AddTagsExact(db: Db, i: Item, user: Id, names: seq<Text>, ids: seq<Id>, seen: set<Text>)
    requires Inv(db) && Owns(db, user, i) && |ids| == |names| && FreshIds(ids, db.tags.Keys)
    requires LinkedFolds(db, i) == Folds(seen) && ClashFree(seen)
    ensures LoopMeans(db, i, user, Wanted(names), Elements(ids), seen, AddTags(db, i, user, names, ids, seen))
    decreases |names|
  {
    if names == [] {
      assert seen + Wanted(names) == seen;
    } else {
      var name, rest, ids' := NormalizeTag(names[0]), Wanted(names[1..]), Elements(ids[1..]);
      WantedCons(names);
      IdsCons(ids);
      if name == [] || name in seen {
        AddTagsExact(db, i, user, names[1..], ids[1..], seen);
        SkipStep(db, i, user, rest, Wanted(names), ids', Elements(ids), seen, AddTags(db, i, user, names, ids, seen));
      } else {
        NormalizedIsNormal(names[0]);
        AddTagExact(db, i, user, name, ids[0]);
        ClashWithSeen(seen, name, rest);
        if Fold(name) !in Folds(seen) {
          var d := AddTag(db, i, user, name, ids[0]).value;
          LinkFirst(db, d, i, user, name, names, ids, seen);
          AddTagsExact(d, i, user, names[1..], ids[1..], seen + {name});
          LinkStep(db, d, i, user, name, ids[0], rest, ids', seen, AddTags(db, i, user, names, ids, seen));
        }
      }
    }
  }

  lemma LinkFirst(db: Db, d: Db, i: Item, user: Id, name: Text, names: seq<Text>, ids: seq<Id>, seen: set<Text>)
    requires names != [] && |ids| == |names| && FreshIds(ids, db.tags.Keys)
    requires Owns(db, user, i) && Adds(db, d, i, user, {name}, {ids[0]})
    requires LinkedFolds(db, i) == Folds(seen) && LinkedFolds(d, i) == LinkedFolds(db, i) + {Fold(name)}
    ensures Owns(d, user, i) && FreshIds(ids[1..], d.tags.Keys)
    ensures LinkedFolds(d, i) == Folds(seen + {name})
  {
  }

  /** The difference a tag replacement makes: new tags as in Adds, and other links of item i. */
  ghost predicate Replaces(db: Db, d: Db, i: Item, user: Id, names: set<Text>, ids: set<Id>) {
    && d.users == db.users && d.folders == db.folders && d.items == db.items
    && (forall t :: t in db.tags ==> t in d.tags && d.tags[t] == db.tags[t])
    && (forall t :: t in d.tags && t !in db.tags ==> t in ids && d.tags[t].user == user && d.tags[t].name in names)
    && (forall l: Link :: l.item != i ==> (l in d.links <==> l in db.links))
    && (forall l :: l in d.links ==> d.links[l] == if l.item == i then user else db.links[l])
  }

  lemma ClearLinksIs(db: Db, i: Item, user: Id)
    requires Inv(db) && Owns(db, user, i)
    ensures Inv(ClearLinks(db, i, user)) && LinkedFolds(ClearLinks(db, i, user), i) == {}
    ensures forall l :: l in ClearLinks(db, i, user).links <==> l in db.links && l.item != i
  {
    var d := ClearLinks(db, i, user);
    forall l | l in db.links ensures l in d.links <==> l.item != i { assert LinkOk(db, l); }
    forall l | l in d.links ensures LinkOk(d, l) { assert LinkOk(db, l); }
    RowsKept(db, d);
  }

  /** `setTagsTx`: replacing an item's tags succeeds if and only if no two different non-empty
      normalised names are equal up to ASCII case; then the item is linked to exactly these
      names, up to case. Existing tags and other items' links stay as they are. */
  lemma SetTagsExact(db: Db, i: Item, user: Id, names: seq<Text>, ids: seq<Id>)
    requires Inv(db) && Owns(db, user, i) && |ids| == |names| && FreshIds(ids, db.tags.Keys)
    ensures SetTags(db, i, user, names, ids).Some? <==> ClashFree(Wanted(names))
    ensures SetTags(db, i, user, names, ids).Some? ==>
              var d := SetTags(db, i, user, names, ids).value;
              && Inv(d) && Replaces(db, d, i, user, Wanted(names), Elements(ids))
              && LinkedFolds(d, i) == Folds(Wanted(names))
  {
    ClearLinksIs(db, i, user);
    assert Folds({}) == {};
    assert {} + Wanted(names) == Wanted(names);
    AddTagsExact(ClearLinks(db, i, user), i, user, names, ids, {});
  }

  /** The list "Red", "red" is refused by every store, for every item. */
  lemma RedAndRedClash(db: Db, i: Item, user: Id, ids: seq<Id>)
    requires Inv(db) && Owns(db, user, i) && |ids| == 2 && FreshIds(ids, db.tags.Keys)
    ensures SetTags(db, i, user, [Ascii("Red"), Ascii("red")], ids).None?
  {
    var a, b := Ascii("Red"), Ascii("red");
    FixedIs(a);
    FixedIs(b);
    assert a in [a, b] && b in [a, b];
    assert a[0] != b[0];
    assert Fold(a) == Fold(b);
    SetTagsExact(db, i, user, [a, b], ids);
  }

  // ----- reading the tags and writing them back -----

  /** The names that attachTags gives an item. */
  ghost function LinkedNames(db: Db, i: Item): set<Text> {
    set l | l in db.links && l.item == i && l.tag in db.tags :: db.tags[l.tag].name
  }

  lemma LinkedNamesAre(db: Db, i: Item)
    requires Inv(db)
    ensures LinkedFolds(db, i) == Folds(LinkedNames(db, i)) && ClashFree(LinkedNames(db, i))
    ensures forall n :: n in LinkedNames(db, i) ==> n != [] && Normal(n)
  {
    forall l | l in db.links ensures LinkOk(db, l) && TagOk(db, l.tag) { }
    forall l | l in db.links && l.item == i && l.tag in db.tags
      ensures db.tags[l.tag].name in LinkedNames(db, i)
    {
    }
  }

  /** Fixed names are their own normal forms, so writing them back asks for the same names. */
  lemma WantedFixed(names: seq<Text>)
    requires forall n :: n in names ==> n != [] && Fixed(n)
    ensures Wanted(names) == Elements(names)
  {
  }

  /** A stored name that is cut off after a blank cannot be asked for again. */
  lemma NotWantedAgain(names: seq<Text>, n: Text)
    requires forall m :: m in names ==> Normal(m)
    requires n in names && !Fixed(n)
    ensures Fold(n) !in Folds(Wanted(names))
  {
    NormalizeNormal(n);
    forall m | m in names
      ensures Fold(NormalizeTag(m)) != Fold(n)
    {
      NormalizeNormal(m);
      FixedIs(NormalizeTag(m));
      var w := NormalizeTag(m);
      if |w| == |n| {
        assert Fold(n)[|n| - 1] == n[|n| - 1] && Fold(w)[|n| - 1] != n[|n| - 1];
      }
    }
  }

  /** Reading an item's tags and writing them back, as a byte replacement does, succeeds and
      leaves the links as they are if and only if every stored name is a fixed point of
      normalisation. */
  lemma WriteBack(db: Db, i: Item, user: Id, names: seq<Text>, ids: seq<Id>)
    requires Inv(db) && Owns(db, user, i) && Elements(names) == LinkedNames(db, i)
    requires |ids| == |names| && FreshIds(ids, db.tags.Keys)
    ensures (SetTags(db, i, user, names, ids).Some? && SetTags(db, i, user, names, ids).value.links == db.links)
       <==> forall n :: n in names ==> Fixed(n)
  {
    var r := SetTags(db, i, user, names, ids);
    SetTagsExact(db, i, user, names, ids);
    LinkedNamesAre(db, i);
    assert forall n :: n in names <==> n in LinkedNames(db, i);
    if forall n :: n in names ==> Fixed(n) {
      WantedFixed(names);
      SameLinks(db, r.value, i, user, Wanted(names), Elements(ids));
    } else {
      var n :| n in names && !Fixed(n);
      NotWantedAgain(names, n);
      assert Fold(n) in LinkedFolds(db, i);
      if r.Some? {
        LinksDetermineFolds(db, r.value, i, user, Wanted(names), Elements(ids));
      }
    }
  }

  /** 31 letters, a blank and a letter: the cut leaves the blank at the end. */
  function LongName(): (name: Text)
    ensures |name| == 33 && name[31] == 32 && !Blank(name[0]) && !Blank(name[32])
  {
    Ascii("abcdefghijklmnopqrstuvwxyzabcde f")
  }

  lemma LongNameNotFixed()
    ensures |NormalizeTag(LongName())| == TAG_BYTES && NormalizeTag(LongName())[TAG_BYTES - 1] == 32
  {
    var _, _ := TrimmedIs(LongName());
  }

  /** The failing side of WriteBack can be reached from every store: an item that was tagged with
      that name loses its links, or the write fails, when its tags are read and written back. */
  lemma LongNameIsLost(db: Db, i: Item, user: Id, id: Id, names: seq<Text>, ids: seq<Id>)
    requires Inv(db) && Owns(db, user, i) && FreshIds([id], db.tags.Keys)
    ensures SetTags(db, i, user, [LongName()], [id]).Some?
    ensures var d := SetTags(db, i, user, [LongName()], [id]).value;
            && Inv(d) && Owns(d, user, i)
            && (Elements(names) == LinkedNames(d, i) && |ids| == |names| && FreshIds(ids, d.tags.Keys) ==>
                  var r := SetTags(d, i, user, names, ids);
                  r.None? || r.value.links != d.links)
  {
    var cut := NormalizeTag(LongName());
    LongNameNotFixed();
    assert LongName() in [LongName()];
    assert Wanted([LongName()]) == {cut};
    SetTagsExact(db, i, user, [LongName()], [id]);
    var d := SetTags(db, i, user, [LongName()], [id]).value;
    if Elements(names) == LinkedNames(d, i) && |ids| == |names| && FreshIds(ids, d.tags.Keys) {
      assert Fold(cut) in LinkedFolds(d, i);
      LinkedNamesAre(d, i);
      var n :| n in LinkedNames(d, i) && Fold(n) == Fold(cut);
      assert n in Elements(names) && Fold(n)[31] == 32;
      FixedIs(n);
      WriteBack(d, i, user, names, ids);
    }
  }

  lemma LinksDetermineFolds(db: Db, d: Db, i: Item, user: Id, names: set<Text>, ids: set<Id>)
    requires Inv(db) && Replaces(db, d, i, user, names, ids)
    ensures d.links == db.links ==> LinkedFolds(d, i) == LinkedFolds(db, i)
  {
    forall l | l in db.links ensures l.tag in db.tags && l.tag in d.tags && d.tags[l.tag] == db.tags[l.tag] {
      assert LinkOk(db, l);
    }
  }

  /** Links determined by folded names: a link whose tag name is linked in d, too, is there. */
  lemma LinkSurvives(db: Db, d: Db, i: Item, user: Id, l: Link)
    requires Inv(db) && Inv(d) && Owns(db, user, i) && Owns(d, user, i)
    requires forall t :: t in db.tags && t in d.tags ==> d.tags[t] == db.tags[t]
    requires db.tags.Keys <= d.tags.Keys || d.tags.Keys <= db.tags.Keys
    requires l in db.links && l.item == i && l.tag in db.tags && Fold(db.tags[l.tag].name) in LinkedFolds(d, i)
    ensures l in d.links
  {
    var m :| m in d.links && m.item == i && m.tag in d.tags && Fold(d.tags[m.tag].name) == Fold(db.tags[l.tag].name);
    assert LinkOk(db, l) && LinkOk(d, m);
    assert m.tag == l.tag;
    assert m == l;
  }

  lemma SameLinks(db: Db, d: Db, i: Item, user: Id, names: set<Text>, ids: set<Id>)
    requires Inv(db) && Inv(d) && Owns(db, user, i) && Replaces(db, d, i, user, names, ids)
    requires LinkedFolds(d, i) == LinkedFolds(db, i)
    ensures d.links == db.links
  {
    forall l | l in d.links && l.item == i
      ensures l in db.links
    {
      assert LinkOk(d, l) && Fold(d.tags[l.tag].name) in LinkedFolds(db, i);
      LinkSurvives(d, db, i, user, l);
    }
    forall l | l in db.links && l.item == i
      ensures l in d.links
    {
      assert LinkOk(db, l) && Fold(db.tags[l.tag].name) in LinkedFolds(d, i);
      LinkSurvives(db, d, i, user, l);
    }
    forall l | l in db.links ensures d.links[l] == db.links[l] { assert LinkOk(db, l); }
  }
}
