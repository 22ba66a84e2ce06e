/** How the handlers and the sweep end when nothing gets in their way, and what a restart cleans up. */
module Endings {
  import opened Wrappers
  import opened BlobNames
  import opened Blob
  import opened Protocol
  import opened Losses

  // ----- handlers -----

  /** A deletion takes the row and its blob, and nothing else; if the blob cannot be removed, it
      takes the row. */
  lemma DeleteRuns(s: State, k: Item, ok: bool) returns (t: State)
    requires k in s.rows && k !in s.tasks
    ensures Runs(s, [Delete(k)] + [RemoveBlob(k, ok)], t)
    ensures t == s.(rows := s.rows - {k}, disk := if ok then s.disk - {PathOf(k, s.rows[k].ext)} else s.disk)
  {
    var u := Next(s, Delete(k));
    t := Next(u, RemoveBlob(k, ok));
    RunsOne(u, RemoveBlob(k, ok));
    RunsCons(s, Delete(k), [RemoveBlob(k, ok)], t);
    assert t.tasks == s.tasks;
  }

  /** The row update of a replacement, and the removal of the old blob if the name has changed. */
  lemma CommitRuns(s: State, k: Item) returns (actions: seq<Action>, t: State)
    requires Stores(s, k) && s.tasks[k].phase.Written? && !s.tasks[k].isNew && k in s.rows
    ensures Runs(s, actions, t)
    ensures var (was, row) := (s.rows[k], s.tasks[k].row);
            t == s.(rows := s.rows[k := row], settled := s.settled + {k}, torn := s.torn - {k}, tasks := s.tasks - {k},
                    disk := if row.ext == was.ext then s.disk else s.disk - {PathOf(k, was.ext)})
  {
    var u := Next(s, CommitRow(k));
    RunsOne(s, CommitRow(k));
    if s.tasks[k].row.ext == s.rows[k].ext {
      actions, t := [CommitRow(k)], u;
    } else {
      t := Next(u, RemoveOld(k, true));
      RunsThen(s, [CommitRow(k)], u, RemoveOld(k, true));
      actions := [CommitRow(k)] + [RemoveOld(k, true)];
      assert t.tasks == s.tasks - {k};
    }
  }

  lemma ReplacedState(s: State, k: Item, row: Row, u: State)
    requires k in s.rows && k !in s.tasks
    requires PathOf(k, row.ext) == PathOf(k, s.rows[k].ext) ==> row.ext == s.rows[k].ext
    requires u.rows == s.rows && u.settled == s.settled && u.torn == s.torn && u.sweep == s.sweep
    requires u.disk == s.disk[PathOf(k, row.ext) := row.described] && u.tasks == s.tasks[k := Storing(row, false, Written)]
    ensures u.tasks - {k} == s.tasks
    ensures (if row.ext == s.rows[k].ext then u.disk else u.disk - {PathOf(k, s.rows[k].ext)})
         == (if row.ext == s.rows[k].ext then s.disk else s.disk - {PathOf(k, s.rows[k].ext)})[PathOf(k, row.ext) := row.described]
  {
  }

  /** A replacement: the row describes the new bytes, these are there under the new name, and under
      no other; everything else is as before. */
  lemma ReplacementRuns(s: State, k: Item, row: Row, random: string) returns (actions: seq<Action>, t: State)
    requires Inv(s) && k in s.rows && k !in s.tasks && ReplaceExt(k.kind, s.rows[k].ext, row.ext)
    requires Plain(random) && TempPath(k, random) !in s.temps
    ensures Runs(s, actions, t)
    ensures t.rows == s.rows[k := row] && t.tasks == s.tasks && t.sweep == s.sweep
    ensures t.settled == s.settled + {k} && t.torn == s.torn - {k}
    ensures t.disk == (if row.ext == s.rows[k].ext then s.disk else s.disk - {PathOf(k, s.rows[k].ext)})[PathOf(k, row.ext) := row.described]
  {
    var replace, u := ReplaceRuns(s, k, row, random);
    DifferentNames(s, k, row);
    ReplacedState(s, k, row, u);
    actions, t := ThenCommitted(s, replace, u, k);
  }

  lemma DifferentNames(s: State, k: Item, row: Row)
    requires Inv(s) && k in s.rows && ReplaceExt(k.kind, s.rows[k].ext, row.ext)
    ensures PathOf(k, row.ext) == PathOf(k, s.rows[k].ext) ==> row.ext == s.rows[k].ext
  {
    assert RowOk(s, k);
    TableIsPlain(k.kind, s.rows[k].ext, row.ext);
    PathNamesItem(k, row.ext, k, s.rows[k].ext);
  }

  lemma ThenCommitted(s: State, first: seq<Action>, u: State, k: Item) returns (actions: seq<Action>, t: State)
    requires Runs(s, first, u) && Stores(u, k) && u.tasks[k].phase.Written? && !u.tasks[k].isNew && k in u.rows
    ensures Runs(s, actions, t)
    ensures var (was, row) := (u.rows[k], u.tasks[k].row);
            t == u.(rows := u.rows[k := row], settled := u.settled + {k}, torn := u.torn - {k}, tasks := u.tasks - {k},
                    disk := if row.ext == was.ext then u.disk else u.disk - {PathOf(k, was.ext)})
  {
    var commit;
    commit, t := CommitRuns(u, k);
    RunsJoin(s, first, u, commit, t);
    actions := first + commit;
  }

  /** A write that fails before its end, and can remove its temporary file, leaves the disk alone. */
  lemma GivenUpRuns(s: State, k: Item, tmp: Path, random: string, n: nat) returns (actions: seq<Action>, t: State)
    requires Stores(s, k) && s.tasks[k].phase.Waiting? && n <= |s.tasks[k].row.described| && Plain(random)
    requires tmp == TempPath(k, random) && tmp !in s.temps && tmp !in s.disk
    ensures Runs(s, actions, t) && t == s.(temps := s.temps + {tmp}, tasks := s.tasks - {k})
  {
    var u := Next(s, MakeTemp(k, random));
    var v := Next(u, Write(k, n));
    t := Next(v, GiveUp(k, false));
    RunsOne(v, GiveUp(k, false));
    RunsCons(u, Write(k, n), [GiveUp(k, false)], t);
    RunsCons(s, MakeTemp(k, random), [Write(k, n)] + [GiveUp(k, false)], t);
    actions := [MakeTemp(k, random)] + ([Write(k, n)] + [GiveUp(k, false)]);
    assert t.disk == s.disk && t.tasks == s.tasks - {k};
  }

  // ----- the sweep -----

  /** The disk without the files among these that the sweep does not know. */
  function Cleared(disk: Disk, keep: set<Item>, files: seq<Path>): Disk {
    map p | p in disk && !(p in files && Unkept(keep, p)) :: disk[p]
  }

  function ClearedUsers(disk: Disk, kind: string, keep: set<Item>, users: seq<Id>): Disk {
    map p | p in disk && !(|p| == 3 && p[0] == kind && p[1] in users && Unkept(keep, p)) :: disk[p]
  }

  /** Every listed file is visited. */
  lemma {:induction false} VisitAll(s: State, kind: string) returns (actions: seq<Action>, t: State)
    requires kind in s.sweep
    ensures Runs(s, actions, t)
    ensures t == s.(disk := Cleared(s.disk, s.sweep[kind].keep, s.sweep[kind].files),
                    sweep := s.sweep[kind := s.sweep[kind].(files := [])])
    decreases |s.sweep[kind].files|
  {
    var w := s.sweep[kind];
    if w.files == [] {
      actions, t := [], s;
      assert Cleared(s.disk, w.keep, []) == s.disk && s.sweep[kind := w] == s.sweep;
    } else {
      var a := Visit(kind, true);
      var u := Next(s, a);
      actions, t := VisitAll(u, kind);
      RunsCons(s, a, actions, t);
      actions := [a] + actions;
      ClearedCons(s.disk, w.keep, w.files);
      assert u.sweep[kind := u.sweep[kind].(files := [])] == s.sweep[kind := w.(files := [])];
    }
  }

  lemma ClearedCons(disk: Disk, keep: set<Item>, files: seq<Path>)
    requires files != []
    ensures var first := if Unkept(keep, files[0]) then disk - {files[0]} else disk;
            Cleared(disk, keep, files) == Cleared(first, keep, files[1..])
  {
    assert forall p :: p in files <==> p == files[0] || p in files[1..];
  }

  /** One directory is listed and its files visited. */
  lemma ListAndVisit(s: State, kind: string) returns (actions: seq<Action>, t: State)
    requires kind in s.sweep && s.sweep[kind].todo.Some? && s.sweep[kind].todo.value != [] && s.sweep[kind].files == []
    ensures Runs(s, actions, t)
    ensures var (w, users) := (s.sweep[kind], s.sweep[kind].todo.value);
            t == s.(disk := ClearedUsers(s.disk, kind, w.keep, [users[0]]),
                    sweep := s.sweep[kind := w.(todo := Some(users[1..]))])
  {
    var w := s.sweep[kind];
    var user := w.todo.value[0];
    var files := Enumerated(set q | q in s.disk && InDir(q, kind, user));
    var a := ListUser(kind, files);
    var u := Next(s, a);
    actions, t := VisitAll(u, kind);
    RunsCons(s, a, actions, t);
    actions := [a] + actions;
    assert Cleared(s.disk, w.keep, files) == ClearedUsers(s.disk, kind, w.keep, [user]);
    assert u.sweep[kind := u.sweep[kind].(files := [])] == s.sweep[kind := w.(todo := Some(w.todo.value[1..]))];
  }

  /** Every directory still to be listed is done. */
  lemma {:induction false} ListAll(s: State, kind: string) returns (actions: seq<Action>, t: State)
    requires kind in s.sweep && s.sweep[kind].todo.Some? && s.sweep[kind].files == []
    ensures Runs(s, actions, t) && kind in t.sweep
    ensures t == s.(disk := ClearedUsers(s.disk, kind, s.sweep[kind].keep, s.sweep[kind].todo.value), sweep := t.sweep)
    ensures t.sweep - {kind} == s.sweep - {kind}
    decreases |s.sweep[kind].todo.value|
  {
    var w, users := s.sweep[kind], s.sweep[kind].todo.value;
    if users == [] {
      actions, t := [], s;
      assert ClearedUsers(s.disk, kind, w.keep, []) == s.disk;
    } else {
      var first, u := ListAndVisit(s, kind);
      var rest;
      rest, t := ListAll(u, kind);
      RunsJoin(s, first, u, rest, t);
      actions := first + rest;
      UsersCons(s.disk, kind, w.keep, users);
    }
  }

  lemma UsersCons(disk: Disk, kind: string, keep: set<Item>, users: seq<Id>)
    requires users != []
    ensures ClearedUsers(ClearedUsers(disk, kind, keep, [users[0]]), kind, keep, users[1..]) == ClearedUsers(disk, kind, keep, users)
  {
    assert forall x :: x in users <==> x in [users[0]] || x in users[1..];
  }

  /** The keys of the rows of one kind. */
  function KeysOfRows(s: State, kind: string): set<string> {
    KeepSet(set k | k in s.rows && k.kind == kind :: (k.user, k.id))
  }

  /** The snapshot and the list of directories. */
  lemma SweepBegins(s: State, kind: string, users: seq<Id>) returns (actions: seq<Action>, t: State)
    requires kind !in s.sweep && Distinct(users) && forall p :: p in s.disk && |p| == 3 && p[0] == kind ==> p[1] in users
    ensures Runs(s, actions, t)
    ensures t == s.(sweep := s.sweep[kind := Sweep((set k | k in s.rows && k.kind == kind), Some(users), [])])
  {
    var u := Next(s, BeginSweep(kind));
    t := Next(u, ListRoot(kind, users));
    RunsOne(u, ListRoot(kind, users));
    RunsCons(s, BeginSweep(kind), [ListRoot(kind, users)], t);
    actions := [BeginSweep(kind)] + [ListRoot(kind, users)];
  }

  /** All the directories, and the end. */
  lemma SweepEnds(s: State, kind: string) returns (actions: seq<Action>, t: State)
    requires kind in s.sweep && s.sweep[kind].todo.Some? && s.sweep[kind].files == []
    ensures Runs(s, actions, t)
    ensures t == s.(disk := ClearedUsers(s.disk, kind, s.sweep[kind].keep, s.sweep[kind].todo.value), sweep := s.sweep - {kind})
  {
    var list, u := ListAll(s, kind);
    t := Next(u, EndSweep(kind));
    RunsThen(s, list, u, EndSweep(kind));
    actions := list + [EndSweep(kind)];
  }

  lemma DirectoriesOf(disk: Disk, kind: string) returns (users: seq<Id>)
    ensures Distinct(users) && forall p :: p in disk && |p| == 3 && p[0] == kind ==> p[1] in users
  {
    users := Enumerated(set q | q in disk && |q| == 3 && q[0] == kind :: q[1]);
  }

  /** A complete sweep of one kind, with nothing else going on: it takes the files of that kind
      which carry no row's key, and nothing else. */
  lemma SweepRuns(s: State, kind: string) returns (actions: seq<Action>, t: State)
    requires kind !in s.sweep
    ensures Runs(s, actions, t) && t == s.(disk := Swept(s.disk, kind, KeysOfRows(s, kind)))
  {
    var users := DirectoriesOf(s.disk, kind);
    var begin, u := SweepBegins(s, kind, users);
    var end;
    end, t := SweepEnds(u, kind);
    RunsJoin(s, begin, u, end, t);
    actions := begin + end;
    ClearedIsSwept(s, kind, u.sweep[kind].keep, users);
    assert u.sweep - {kind} == s.sweep;
  }

  lemma ClearedIsSwept(s: State, kind: string, keep: set<Item>, users: seq<Id>)
    requires keep == set k | k in s.rows && k.kind == kind
    requires forall p :: p in s.disk && |p| == 3 && p[0] == kind ==> p[1] in users
    ensures ClearedUsers(s.disk, kind, keep, users) == Swept(s.disk, kind, KeysOfRows(s, kind))
  {
    assert RowsOf(keep, kind) == set k | k in s.rows && k.kind == kind :: (k.user, k.id);
  }

  // ----- a restart -----

  /** Whatever was going on when the process died, after the next start's sweep of a kind nothing is
      under way, the rows are those that were there, every file of the kind in a user's directory
      carries the id of a row of that user, temporary files and left-over blobs being gone, and
      every finished row that named a blob still does. */
  lemma RestartCleans(s: State, kind: string) returns (actions: seq<Action>, t: State)
    requires Inv(s)
    ensures Runs(s, actions, t) && t.rows == s.rows && t.tasks == map[] && t.sweep == map[]
    ensures forall p :: p in t.disk ==> p in s.disk && t.disk[p] == s.disk[p]
    ensures forall p :: p in t.disk && |p| == 3 && p[0] == kind && PlainId(p[1]) ==>
              exists k :: k in s.rows && k.kind == kind && k.user == p[1] && k.id == Stem(p[2])
    ensures forall k :: k in s.rows && k in s.settled && PathOf(k, s.rows[k].ext) in s.disk ==> PathOf(k, s.rows[k].ext) in t.disk
  {
    var u := Next(s, Crash);
    actions, t := SweepRuns(u, kind);
    RunsCons(s, Crash, actions, t);
    actions := [Crash] + actions;
    var rows := set k | k in s.rows && k.kind == kind :: (k.user, k.id);
    forall r | r in rows ensures PlainId(r.0) && PlainId(r.1) {
      var k :| k in s.rows && k.kind == kind && r == (k.user, k.id);
      assert RowOk(s, k);
    }
    SweepLeavesOnlyLive(s.disk, rows, kind);
    forall k | k in s.rows && PathOf(k, s.rows[k].ext) in s.disk ensures PathOf(k, s.rows[k].ext) in t.disk {
      assert RowOk(s, k);
      OwnBlobSwept(s, kind, k, rows);
    }
  }

  lemma OwnBlobSwept(s: State, kind: string, k: Item, rows: set<(Id, Id)>)
    requires k in s.rows && PlainItem(k) && Plain(s.rows[k].ext) && PlainRows(rows)
    requires rows == set j | j in s.rows && j.kind == kind :: (j.user, j.id)
    ensures !Orphan(kind, KeepSet(rows), PathOf(k, s.rows[k].ext))
  {
    StemOfBlob(k.id, s.rows[k].ext);
    if k.kind == kind {
      OrphanExactly(rows, kind, k.user, BlobName(k.id, s.rows[k].ext));
    }
  }
}
