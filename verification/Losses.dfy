/** What can go wrong between rows and blobs, exactly: which finished rows can lose their blob to a
    sweep, and how one comes not to describe it. */
module Losses {
  import opened BlobNames
  import opened Blob
  import opened Protocol

  // ----- runs put together -----

  lemma RunsCons(s: State, a: Action, rest: seq<Action>, t: State)
    requires Enabled(s, a) && Runs(Next(s, a), rest, t)
    ensures Runs(s, [a] + rest, t)
  {
    assert ([a] + rest)[0] == a && ([a] + rest)[1..] == rest;
  }

  lemma RunsOne(s: State, a: Action)
    requires Enabled(s, a)
    ensures Runs(s, [a], Next(s, a))
  {
    assert Runs(Next(s, a), [], Next(s, a));
    RunsCons(s, a, [], Next(s, a));
    assert [a] + [] == [a];
  }

  lemma {:induction false} RunsJoin(s: State, first: seq<Action>, t: State, last: seq<Action>, u: State)
    requires Runs(s, first, t) && Runs(t, last, u)
    ensures Runs(s, first + last, u)
    decreases |first|
  {
    if first == [] {
      assert first + last == last;
    } else {
      RunsJoin(Next(s, first[0]), first[1..], t, last, u);
      RunsCons(s, first[0], first[1..] + last, u);
      assert first + last == [first[0]] + (first[1..] + last);
    }
  }

  lemma RunsThen(s: State, first: seq<Action>, t: State, a: Action)
    requires Runs(s, first, t) && Enabled(t, a)
    ensures Runs(s, first + [a], Next(t, a))
  {
    RunsOne(t, a);
    RunsJoin(s, first, t, [a], Next(t, a));
  }

  // ----- undisturbed writes -----

  /** An atomic write that nothing gets in the way of. */
  lemma StoredRuns(s: State, k: Item, tmp: Path, random: string) returns (actions: seq<Action>, t: State)
    requires Stores(s, k) && s.tasks[k].phase.Waiting? && PlainItem(k) && Plain(s.tasks[k].row.ext) && Plain(random)
    requires tmp == TempPath(k, random) && tmp !in s.temps && tmp !in s.disk
    ensures Runs(s, actions, t) && Delete(k) !in actions
    ensures t == s.(disk := s.disk[PathOf(k, s.tasks[k].row.ext) := s.tasks[k].row.described],
                    temps := s.temps + {tmp}, tasks := Advance(s, k, Written))
  {
    var row := s.tasks[k].row;
    var n := |row.described|;
    assert row.described[..n] == row.described;
    TempIsTemp(k, random);
    NotTemp(s, k, row.ext, tmp);
    var u := Next(s, MakeTemp(k, random));
    var v := Next(u, Write(k, n));
    assert v.disk == s.disk[tmp := row.described];
    t := Next(v, Rename(k));
    RunsOne(v, Rename(k));
    RunsCons(u, Write(k, n), [Rename(k)], t);
    RunsCons(s, MakeTemp(k, random), [Write(k, n)] + [Rename(k)], t);
    actions := [MakeTemp(k, random)] + ([Write(k, n)] + [Rename(k)]);
    assert (s.disk[tmp := row.described] - {tmp}) == s.disk;
  }

  /** A name that was never given out is not taken. */
  lemma TempIsFree(s: State, k: Item, random: string)
    requires Inv(s) && Plain(random) && TempPath(k, random) !in s.temps
    ensures TempPath(k, random) !in s.disk
  {
    TempIsTemp(k, random);
    assert TempPath(k, random) in s.disk ==> FileOk(s, TempPath(k, random));
  }

  lemma UploadBegun(s: State, k: Item, row: Row) returns (u: State)
    requires Enabled(s, Upload(k, row)) && k !in s.tasks
    ensures u == Next(s, Upload(k, row)) && u.disk == s.disk && u.temps == s.temps && u.rows == s.rows[k := row]
    ensures u.tasks == s.tasks[k := Storing(row, true, Waiting)] && Plain(row.ext)
    ensures u.settled == s.settled && u.sweep == s.sweep && u.torn == s.torn
    ensures u.raced == if ExposedAs(s, k, row.ext) then s.raced + {k} else s.raced
  {
    TableIsPlain(k.kind, row.ext, row.ext);
    u := Next(s, Upload(k, row));
  }

  lemma UploadFinished(s: State, k: Item) returns (t: State)
    requires Stores(s, k) && s.tasks[k].phase.Written? && s.tasks[k].isNew
    ensures Runs(s, [FinishUpload(k)], t) && t == s.(tasks := s.tasks - {k}, settled := s.settled + {k})
  {
    t := Next(s, FinishUpload(k));
    RunsOne(s, FinishUpload(k));
  }

  lemma UploadSteps(s: State, k: Item, row: Row, tmp: Path, random: string) returns (actions: seq<Action>, t: State)
    requires Enabled(s, Upload(k, row)) && k !in s.tasks && Plain(random)
    requires tmp == TempPath(k, random) && tmp !in s.temps && tmp !in s.disk
    ensures Runs(s, actions, t) && Delete(k) !in actions
    ensures t.rows == s.rows[k := row] && t.disk == s.disk[PathOf(k, row.ext) := row.described]
    ensures t.settled == s.settled + {k} && t.tasks == s.tasks && t.sweep == s.sweep
    ensures t.torn == s.torn && (t.raced == if ExposedAs(s, k, row.ext) then s.raced + {k} else s.raced)
  {
    var u := UploadBegun(s, k, row);
    var store, v := StoredRuns(u, k, tmp, random);
    t := UploadFinished(v, k);
    RunsJoin(u, store, v, [FinishUpload(k)], t);
    RunsCons(s, Upload(k, row), store + [FinishUpload(k)], t);
    actions := [Upload(k, row)] + (store + [FinishUpload(k)]);
  }

  /** An upload that nothing gets in the way of: afterwards the row and the complete blob are
      there, and everything else is as before. */
  lemma UploadRuns(s: State, k: Item, row: Row, random: string) returns (actions: seq<Action>, t: State)
    requires Inv(s) && k !in s.used && PlainItem(k) && UploadExt(k.kind, row.ext)
    requires Plain(random) && TempPath(k, random) !in s.temps
    ensures Runs(s, actions, t) && Delete(k) !in actions
    ensures t.rows == s.rows[k := row] && t.disk == s.disk[PathOf(k, row.ext) := row.described]
    ensures t.settled == s.settled + {k} && t.tasks == s.tasks && t.sweep == s.sweep
    ensures t.torn == s.torn && (t.raced == if ExposedAs(s, k, row.ext) then s.raced + {k} else s.raced)
  {
    TempIsFree(s, k, random);
    assert k in s.tasks ==> TaskOk(s, k);
    actions, t := UploadSteps(s, k, row, TempPath(k, random), random);
  }

  /** The blob of a replacement that nothing gets in the way of; the row is still to follow. */
  lemma ReplaceRuns(s: State, k: Item, row: Row, random: string) returns (actions: seq<Action>, t: State)
    requires Inv(s) && Enabled(s, Replace(k, row)) && Plain(random) && TempPath(k, random) !in s.temps
    ensures Runs(s, actions, t) && Delete(k) !in actions
    ensures t.rows == s.rows && t.disk == s.disk[PathOf(k, row.ext) := row.described]
    ensures t.tasks == s.tasks[k := Storing(row, false, Written)]
    ensures t.settled == s.settled && t.torn == s.torn && t.sweep == s.sweep
  {
    TempIsFree(s, k, random);
    assert RowOk(s, k);
    TableIsPlain(k.kind, s.rows[k].ext, row.ext);
    var u := Next(s, Replace(k, row));
    actions, t := StoredRuns(u, k, TempPath(k, random), random);
    RunsCons(s, Replace(k, row), actions, t);
    actions := [Replace(k, row)] + actions;
  }

  /** Torn items are real: a replacement by other bytes under the same name, cut off by a crash
      before its row, leaves a finished row that does not describe its blob. */
  lemma CutOffReplacementTears(s: State, k: Item, row: Row, random: string) returns (actions: seq<Action>, t: State)
    requires Inv(s) && k in s.settled && Enabled(s, Replace(k, row)) && Plain(random) && TempPath(k, random) !in s.temps
    requires row.ext == s.rows[k].ext && row.described != s.rows[k].described
    ensures Runs(s, actions, t) && k in t.rows && k in t.settled && k !in t.tasks && k in t.torn
    ensures PathOf(k, t.rows[k].ext) in t.disk && t.disk[PathOf(k, t.rows[k].ext)] != t.rows[k].described
  {
    var replace, u := ReplaceRuns(s, k, row, random);
    RunsThen(s, replace, u, Crash);
    actions, t := replace + [Crash], Next(u, Crash);
  }

  /** The row update after a replacement under the same name: if it fails, the item is torn exactly
      if the bytes are other ones. */
  lemma RowAfterBytes(s: State, k: Item, row: Row, random: string, saved: bool) returns (actions: seq<Action>, t: State)
    requires Inv(s) && k in s.settled && Enabled(s, Replace(k, row)) && row.ext == s.rows[k].ext
    requires Plain(random) && TempPath(k, random) !in s.temps
    ensures Runs(s, actions, t) && actions != [] && actions[|actions| - 1] == (if saved then CommitRow(k) else FailRow(k))
    ensures k in t.rows && t.rows[k] == (if saved then row else s.rows[k]) && k !in t.tasks
    ensures PathOf(k, row.ext) in t.disk && t.disk[PathOf(k, row.ext)] == row.described
    ensures k in t.torn <==> !saved && row.described != s.rows[k].described
  {
    var replace, u := ReplaceRuns(s, k, row, random);
    var last := if saved then CommitRow(k) else FailRow(k);
    RunsThen(s, replace, u, last);
    actions, t := replace + [last], Next(u, last);
  }

  // ----- what a sweep can take -----

  /** A finished row whose blob is there, and out of every sweep's reach for good. */
  ghost predicate Safe(s: State, k: Item) {
    && k in s.rows && k in s.settled && PathOf(k, s.rows[k].ext) in s.disk && !Exposed(s, k)
    && (Stores(s, k) && s.tasks[k].phase.Written? ==> PathOf(k, s.tasks[k].row.ext) in s.disk)
  }

  lemma SafeRemains(s: State, k: Item, p: Path, t: State)
    requires Safe(s, k) && t.rows == s.rows && t.settled == s.settled && !Exposed(t, k)
    requires forall q :: q in s.disk && q != p ==> q in t.disk
    requires PathOf(k, s.rows[k].ext) != p
    requires Stores(t, k) && t.tasks[k].phase.Written? ==>
               Stores(s, k) && s.tasks[k].phase.Written? && t.tasks[k].row == s.tasks[k].row && PathOf(k, s.tasks[k].row.ext) != p
    ensures Safe(t, k)
  {
  }

  /** Removing a temporary file, or overwriting it. */
  lemma TempSafe(s: State, k: Item, j: Item, a: Action)
    requires Inv(s) && Safe(s, k) && Enabled(s, a) && (a.GiveUp? || a.Write? || a.MakeTemp?) && a.k == j
    ensures Safe(Next(s, a), k)
  {
    assert TaskOk(s, j) && RowOk(s, k);
    if s.tasks[j].phase.Writing? {
      var tmp := s.tasks[j].phase.tmp;
      NotTemp(s, k, s.rows[k].ext, tmp);
      if Stores(s, k) {
        assert TaskOk(s, k);
        NotTemp(s, k, s.tasks[k].row.ext, tmp);
      }
      SafeRemains(s, k, tmp, Next(s, a));
    }
  }

  lemma RenameSafe(s: State, k: Item, j: Item)
    requires Inv(s) && Safe(s, k) && Enabled(s, Rename(j))
    ensures Safe(Next(s, Rename(j)), k)
  {
    assert TaskOk(s, j) && RowOk(s, k);
    var tmp := s.tasks[j].phase.tmp;
    NotTemp(s, k, s.rows[k].ext, tmp);
    if Stores(s, k) {
      assert TaskOk(s, k);
      NotTemp(s, k, s.tasks[k].row.ext, tmp);
    }
  }

  lemma RemoveSafe(s: State, k: Item, j: Item, a: Action)
    requires Inv(s) && Safe(s, k) && Enabled(s, a) && (a.RemoveOld? || a.RemoveBlob?) && a.k == j
    ensures Safe(Next(s, a), k)
  {
    assert TaskOk(s, j);
    var ext := if a.RemoveOld? then s.tasks[j].oldExt else s.tasks[j].ext;
    OthersNotNamed(s, j, ext);
    SafeRemains(s, k, PathOf(j, ext), Next(s, a));
  }

  lemma VisitSafe(s: State, k: Item, kind: string, ok: bool)
    requires Inv(s) && Safe(s, k) && Enabled(s, Visit(kind, ok))
    ensures Safe(Next(s, Visit(kind, ok)), k)
  {
    assert RowOk(s, k);
    var t := Next(s, Visit(kind, ok));
    if Exposed(t, k) { VisitExposes(s, kind, ok, k); }
    if t.disk != s.disk {
      VisitSpares(s, kind, k, s.rows[k].ext);
      if Stores(s, k) {
        assert TaskOk(s, k);
        VisitSpares(s, kind, k, s.tasks[k].row.ext);
      }
      SafeRemains(s, k, s.sweep[kind].files[0], t);
    }
  }

  /** Steps of handlers that leave the disk alone. */
  lemma TaskSafe(s: State, k: Item, a: Action)
    requires Inv(s) && Safe(s, k) && Enabled(s, a) && a != Delete(k)
    requires a.Upload? || a.Replace? || a.FailRow? || a.FinishUpload? || a.Delete? || a.Crash?
    ensures Safe(Next(s, a), k)
  {
    assert RowOk(s, k);
  }

  lemma CommitSafe(s: State, k: Item, j: Item)
    requires Inv(s) && Safe(s, k) && Enabled(s, CommitRow(j))
    ensures Safe(Next(s, CommitRow(j)), k)
  {
    if Exposed(Next(s, CommitRow(j)), k) { CommitExposes(s, j, k); }
  }

  /** Steps of a sweep that only look. */
  lemma LookSafe(s: State, k: Item, a: Action)
    requires Safe(s, k) && Enabled(s, a) && (a.BeginSweep? || a.ListRoot? || a.ListUser? || a.EndSweep?)
    ensures Safe(Next(s, a), k)
  {
    if a.ListUser? && Exposed(Next(s, a), k) { ListUserExposes(s, a.kind, a.files, k); }
  }

  /** Only the item's own deletion ends its safety. */
  lemma StepSafe(s: State, k: Item, a: Action)
    requires Inv(s) && Safe(s, k) && Enabled(s, a) && a != Delete(k)
    ensures Safe(Next(s, a), k)
  {
    match a
    case MakeTemp(j, _) => TempSafe(s, k, j, a);
    case Write(j, _) => TempSafe(s, k, j, a);
    case GiveUp(j, _) => TempSafe(s, k, j, a);
    case Rename(j) => RenameSafe(s, k, j);
    case RemoveOld(j, _) => RemoveSafe(s, k, j, a);
    case RemoveBlob(j, _) => RemoveSafe(s, k, j, a);
    case CommitRow(j) => CommitSafe(s, k, j);
    case Visit(kind, ok) => VisitSafe(s, k, kind, ok);
    case BeginSweep(_) => LookSafe(s, k, a);
    case ListRoot(_, _) => LookSafe(s, k, a);
    case ListUser(_, _) => LookSafe(s, k, a);
    case EndSweep(_) => LookSafe(s, k, a);
    case _ => TaskSafe(s, k, a);
  }

  lemma {:induction false} SafeStays(s: State, k: Item, actions: seq<Action>, t: State)
    requires Inv(s) && Safe(s, k) && Runs(s, actions, t) && Delete(k) !in actions
    ensures Safe(t, k)
    decreases |actions|
  {
    if actions != [] {
      StepKeeps(s, actions[0]);
      StepSafe(s, k, actions[0]);
      assert forall a :: a in actions[1..] ==> a in actions;
      SafeStays(Next(s, actions[0]), k, actions[1..], t);
    }
  }

  /** A finished row without its blob. */
  ghost predicate Lost(s: State, k: Item) {
    k in s.rows && k in s.settled && PathOf(k, s.rows[k].ext) !in s.disk
  }

  /** What the steps of one sweep leave alone. */
  ghost predicate SameBut(s: State, t: State, kind: string) {
    && t.rows == s.rows && t.settled == s.settled && t.tasks == s.tasks
    && kind in s.sweep && kind in t.sweep && t.sweep[kind].keep == s.sweep[kind].keep
  }

  /** The walk goes on through the listed files, p among them. */
  lemma {:induction false} VisitRuns(s: State, kind: string, p: Path, k: Item) returns (actions: seq<Action>, t: State)
    requires kind in s.sweep && p in s.sweep[kind].files && Unkept(s.sweep[kind].keep, p)
    ensures Runs(s, actions, t) && Delete(k) !in actions && SameBut(s, t, kind) && p !in t.disk
    decreases |s.sweep[kind].files|
  {
    var a := Visit(kind, true);
    var u := Next(s, a);
    if s.sweep[kind].files[0] == p {
      RunsOne(s, a);
      actions, t := [a], u;
    } else {
      actions, t := VisitRuns(u, kind, p, k);
      RunsCons(s, a, actions, t);
      actions := [a] + actions;
    }
  }

  /** The walk goes on through the listed files, p not among them. */
  lemma {:induction false} DrainRuns(s: State, kind: string, p: Path, k: Item) returns (actions: seq<Action>, t: State)
    requires kind in s.sweep && p !in s.sweep[kind].files && p in s.disk
    ensures Runs(s, actions, t) && Delete(k) !in actions && SameBut(s, t, kind) && p in t.disk
    ensures t.sweep[kind].files == [] && t.sweep[kind].todo == s.sweep[kind].todo
    decreases |s.sweep[kind].files|
  {
    if s.sweep[kind].files == [] {
      actions, t := [], s;
    } else {
      var a := Visit(kind, true);
      actions, t := DrainRuns(Next(s, a), kind, p, k);
      RunsCons(s, a, actions, t);
      actions := [a] + actions;
    }
  }

  lemma {:induction false} Enumerated<T>(all: set<T>) returns (order: seq<T>)
    ensures (forall x :: x in order <==> x in all) && Distinct(order)
  {
    order := [];
    if all != {} {
      var x :| x in all;
      order := Enumerated(all - {x});
      order := [x] + order;
    }
  }

  /** The walk goes on through the directories, that of p among them. */
  lemma {:induction false} ListRuns(s: State, kind: string, p: Path, k: Item) returns (actions: seq<Action>, t: State)
    requires kind in s.sweep && s.sweep[kind].todo.Some? && |p| == 3 && p[0] == kind && p[1] in s.sweep[kind].todo.value
    requires Unkept(s.sweep[kind].keep, p) && p in s.disk
    ensures Runs(s, actions, t) && Delete(k) !in actions && SameBut(s, t, kind) && p !in t.disk
    decreases |s.sweep[kind].todo.value|
  {
    if p in s.sweep[kind].files {
      actions, t := VisitRuns(s, kind, p, k);
    } else {
      var drain, u := DrainRuns(s, kind, p, k);
      var user := u.sweep[kind].todo.value[0];
      var files := Enumerated(set q | q in u.disk && InDir(q, kind, user));
      var a := ListUser(kind, files);
      var v := Next(u, a);
      var rest;
      if p in files {
        rest, t := VisitRuns(v, kind, p, k);
      } else {
        rest, t := ListRuns(v, kind, p, k);
      }
      RunsCons(u, a, rest, t);
      RunsJoin(s, drain, u, [a] + rest, t);
      actions := drain + ([a] + rest);
    }
  }

  /** A blob that a running sweep has still to come by, and whose item is not in the snapshot, is
      removed if the walk goes on. */
  lemma SweepTakes(s: State, kind: string, p: Path, k: Item) returns (actions: seq<Action>, t: State)
    requires kind in s.sweep && |p| == 3 && p[0] == kind && p in s.disk && Unkept(s.sweep[kind].keep, p)
    requires var w := s.sweep[kind]; w.todo.None? || p[1] in w.todo.value || p in w.files
    ensures Runs(s, actions, t) && Delete(k) !in actions && SameBut(s, t, kind) && p !in t.disk
  {
    if p in s.sweep[kind].files {
      actions, t := VisitRuns(s, kind, p, k);
    } else if s.sweep[kind].todo.Some? {
      actions, t := ListRuns(s, kind, p, k);
    } else {
      var users := Enumerated(set q | q in s.disk && |q| == 3 && q[0] == kind :: q[1]);
      var a := ListRoot(kind, users);
      var u := Next(s, a);
      actions, t := ListRuns(u, kind, p, k);
      RunsCons(s, a, actions, t);
      actions := [a] + actions;
    }
  }

  /** A replacement that nothing gets in the way of, with its row. */
  lemma CommittedRuns(s: State, k: Item, row: Row, random: string) returns (actions: seq<Action>, t: State)
    requires Inv(s) && k in s.settled && Enabled(s, Replace(k, row)) && Plain(random) && TempPath(k, random) !in s.temps
    ensures Runs(s, actions, t) && Delete(k) !in actions && t.sweep == s.sweep
    ensures k in t.rows && t.rows[k] == row && k in t.settled && PathOf(k, row.ext) in t.disk
  {
    var replace, u := ReplaceRuns(s, k, row, random);
    RunsThen(s, replace, u, CommitRow(k));
    actions, t := replace + [CommitRow(k)], Next(u, CommitRow(k));
  }

  /** After any run, the walk can go on. */
  lemma ThenTaken(s: State, first: seq<Action>, u: State, k: Item) returns (actions: seq<Action>, t: State)
    requires Runs(s, first, u) && Delete(k) !in first && k in u.rows && k in u.settled && k.kind in u.sweep
    requires PathOf(k, u.rows[k].ext) in u.disk && Unkept(u.sweep[k.kind].keep, PathOf(k, u.rows[k].ext))
    requires var w := u.sweep[k.kind]; w.todo.None? || k.user in w.todo.value || PathOf(k, u.rows[k].ext) in w.files
    ensures Runs(s, actions, t) && Delete(k) !in actions && Lost(t, k)
  {
    var take;
    take, t := SweepTakes(u, k.kind, PathOf(k, u.rows[k].ext), k);
    RunsJoin(s, first, u, take, t);
    actions := first + take;
  }

  /** An exposed item can lose its blob: to the walk as it is, or, if only another name that its blob
      may have is still listed, after a replacement under that name, by whatever bytes. */
  lemma ExposedCanLose(s: State, k: Item, data: Bytes, random: string) returns (actions: seq<Action>, t: State)
    requires Inv(s) && k in s.rows && k in s.settled && k !in s.tasks && PathOf(k, s.rows[k].ext) in s.disk && Exposed(s, k)
    requires Plain(random) && TempPath(k, random) !in s.temps
    ensures Runs(s, actions, t) && Delete(k) !in actions && Lost(t, k)
  {
    assert RowOk(s, k);
    var w, ext := s.sweep[k.kind], s.rows[k].ext;
    if w.todo.None? || k.user in w.todo.value || PathOf(k, ext) in w.files {
      SnapshotDecides(w.keep, k, ext);
      actions, t := ThenTaken(s, [], s, k);
    } else {
      var p :| p in w.files && IsBlobOf(k, p) && Usable(k.kind, ext, ExtOf(k, p));
      NamedIsPath(k, p);
      SnapshotDecides(w.keep, k, ExtOf(k, p));
      var replace, u := CommittedRuns(s, k, Row(ExtOf(k, p), data), random);
      actions, t := ThenTaken(s, replace, u, k);
    }
  }

  /** Exactly which finished rows can lose their blob without being deleted: those that are not in
      the snapshot of a running sweep while it may still visit a file that is their blob or that
      their handlers can make their blob. All others keep it for ever. The bytes of the
      replacement that this may take can be any. */
  lemma LossExactly(s: State, k: Item, data: Bytes, random: string)
    requires Inv(s) && k in s.rows && k in s.settled && k !in s.tasks && PathOf(k, s.rows[k].ext) in s.disk
    requires Plain(random) && TempPath(k, random) !in s.temps
    ensures Exposed(s, k) <==> exists actions, t :: Runs(s, actions, t) && Delete(k) !in actions && Lost(t, k)
  {
    if Exposed(s, k) {
      var actions, t := ExposedCanLose(s, k, data, random);
    } else {
      NeverLost(s, k);
    }
  }

  /** The other direction: whatever happens, short of its deletion. */
  lemma NeverLost(s: State, k: Item)
    requires Inv(s) && Safe(s, k)
    ensures forall actions, t :: Runs(s, actions, t) && Delete(k) !in actions ==> !Lost(t, k)
  {
    forall actions, t | Runs(s, actions, t) && Delete(k) !in actions ensures !Lost(t, k) { SafeStays(s, k, actions, t); }
  }

  /** An upload that the walk will come by and does not know. */
  lemma UnknownUploadCanLose(s: State, k: Item, row: Row, random: string) returns (actions: seq<Action>, t: State)
    requires Inv(s) && Enabled(s, Upload(k, row)) && Plain(random) && TempPath(k, random) !in s.temps
    requires k.kind in s.sweep && s.sweep[k.kind].todo.None? && k !in s.sweep[k.kind].keep
    ensures Runs(s, actions, t) && Delete(k) !in actions && Lost(t, k)
  {
    TableIsPlain(k.kind, row.ext, row.ext);
    var upload, v := UploadRuns(s, k, row, random);
    SnapshotDecides(v.sweep[k.kind].keep, k, row.ext);
    actions, t := ThenTaken(s, upload, v, k);
  }

  /** The exception in CrashSafety is real: an upload right after the snapshot can finish and then
      lose its blob. */
  lemma RacedUploadCanLoseBlob(s: State, k: Item, row: Row, random: string) returns (actions: seq<Action>, t: State)
    requires Inv(s) && k.kind !in s.sweep && Enabled(s, Upload(k, row))
    requires Plain(random) && TempPath(k, random) !in s.temps
    ensures Runs(s, actions, t) && Delete(k) !in actions && Lost(t, k)
  {
    var begin := BeginSweep(k.kind);
    StepKeeps(s, begin);
    assert k in s.rows ==> RowOk(s, k);
    var u := Next(s, begin);
    actions, t := UnknownUploadCanLose(u, k, row, random);
    RunsCons(s, begin, actions, t);
    actions := [begin] + actions;
  }
}
