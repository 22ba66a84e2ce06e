/** Rows and blobs have no transaction in common. This module runs the handlers of
    internal/httpapi/files_handlers.go and notes_handlers.go in their smallest steps, on any number of
    items at once, next to the startup sweep of cmd/notes/main.go:89-104, with a crash possible
    between any two steps. Handlers on one item are serialised; uploads of new items may race the
    sweep. */
module Protocol {
  import opened Wrappers
  import opened BlobNames
  import opened Blob

  /** A note or file: the kind's directory, the owner and the id. */
  datatype Item = Item(kind: string, user: Id, id: Id)

  /** The columns that describe the blob: its extension, and the data whose size and digest the
      row holds. */
  datatype Row = Row(ext: string, described: Bytes)

  /** How far an atomic write has come: not begun, done bytes in a temporary file, or renamed. */
  datatype Phase = Waiting | Writing(tmp: Path, done: nat) | Written

  /** What a handler has under way on an item: storing the bytes that row describes (for a fresh
      upload, whose row is in place, or to replace others), removing the blob with the old
      extension, or removing the blob of a deleted row. */
  datatype Task =
    | Storing(row: Row, isNew: bool, phase: Phase)
    | Cleaning(oldExt: string)
    | Deleting(ext: string)

  /** A sweep of one kind under way: the snapshot of its rows, the users whose directories it still
      has to list (None until it has listed the kind's root), and the files it has listed and not
      visited. The walk lists every directory once. */
  datatype Sweep = Sweep(keep: set<Item>, todo: Option<seq<Id>>, files: seq<Path>)

  /** Besides the two stores and the tasks: the items whose upload or replacement has finished,
      those whose blob was replaced by other bytes without their row, those uploaded within reach
      of a running sweep, all items and temporary names ever made, the payloads handed to writes,
      and the sweeps under way by kind. */
  datatype State = State(
    rows: map<Item, Row>,
    disk: Disk,
    tasks: map<Item, Task>,
    settled: set<Item>,
    torn: set<Item>,
    raced: set<Item>,
    used: set<Item>,
    temps: set<Path>,
    sent: set<(Path, Bytes)>,
    sweep: map<string, Sweep>)

  function PathOf(k: Item, ext: string): Path {
    [k.kind, k.user, BlobName(k.id, ext)]
  }

  predicate PlainItem(k: Item) {
    PlainId(k.user) && PlainId(k.id)
  }

  function TempPath(k: Item, random: string): Path {
    [k.kind, k.user, TempName(random)]
  }

  /** No item has this name: temporary files are like that. */
  predicate IsTemp(p: Path) {
    |p| == 3 && Stem(p[2]) == ""
  }

  lemma PathNamesItem(k: Item, ext: string, j: Item, ext': string)
    requires PlainItem(k) && Plain(ext)
    ensures !IsTemp(PathOf(k, ext))
    ensures Plain(ext') && PathOf(k, ext) == PathOf(j, ext') ==> k == j && ext == ext'
  {
    StemOfBlob(k.id, ext);
    if Plain(ext') && PathOf(k, ext) == PathOf(j, ext') {
      assert PathOf(k, ext)[0] == k.kind && PathOf(k, ext)[1] == k.user && PathOf(k, ext)[2] == BlobName(k.id, ext);
      assert PathOf(j, ext')[0] == j.kind && PathOf(j, ext')[1] == j.user && PathOf(j, ext')[2] == BlobName(j.id, ext');
      BlobNameInjective(k.id, ext, j.id, ext');
    }
  }

  lemma TempIsTemp(k: Item, random: string)
    requires Plain(random)
    ensures IsTemp(TempPath(k, random))
  {
    StemOfTemp(random);
  }

  /** The snapshot's rows of one kind, as KeepSets gives them to the sweep. */
  function RowsOf(keep: set<Item>, kind: string): set<(Id, Id)> {
    set k | k in keep && k.kind == kind :: (k.user, k.id)
  }

  /** The sweep with this snapshot removes p. */
  predicate Unkept(keep: set<Item>, p: Path) {
    |p| == 3 && Orphan(p[0], KeepSet(RowsOf(keep, p[0])), p)
  }

  /** The sweep removes a blob that it visits if and only if its item is not in the snapshot. */
  lemma SnapshotDecides(keep: set<Item>, k: Item, ext: string)
    requires (forall j :: j in keep ==> PlainItem(j)) && PlainItem(k) && Plain(ext)
    ensures Unkept(keep, PathOf(k, ext)) <==> k !in keep
  {
    var rows := RowsOf(keep, k.kind);
    OrphanExactly(rows, k.kind, k.user, BlobName(k.id, ext));
    StemOfBlob(k.id, ext);
    if (k.user, k.id) in rows {
      var j :| j in keep && j.kind == k.kind && (j.user, j.id) == (k.user, k.id);
      assert j == k;
    }
  }

  // ----- extensions -----

  /** mimeExt of the image types. */
  predicate ImageExt(ext: string) {
    ext == "png" || ext == "jpg" || ext == "gif" || ext == "webp" || ext == "avif"
  }

  /** The names that createNote and uploadFile give. */
  predicate UploadExt(kind: string, ext: string) {
    (kind == "notes" && ext == "md") || (kind == "files" && (ImageExt(ext) || ext == "pdf" || ext == "md"))
  }

  /** The names under which an item's bytes are replaced: updateNote and rotateFileInPlace, which
      turns images only, keep the row's name, and replaceFileBytes takes any image. */
  predicate ReplaceExt(kind: string, was: string, ext: string) {
    (kind == "notes" && ext == was) || (kind == "files" && ImageExt(ext))
  }

  /** The names that the blob of a row may have, now or after replacements. */
  predicate Usable(kind: string, was: string, ext: string) {
    ext == was || ReplaceExt(kind, was, ext)
  }

  lemma TableIsPlain(kind: string, was: string, ext: string)
    ensures UploadExt(kind, ext) ==> Plain(ext)
    ensures ReplaceExt(kind, was, ext) && Plain(was) ==> Plain(ext)
  {
  }

  lemma UsableAgain(kind: string, was: string, now: string, ext: string)
    requires ReplaceExt(kind, was, now) && Usable(kind, now, ext)
    ensures Usable(kind, was, ext)
  {
  }

  /** p is a name for a blob of item k. */
  predicate IsBlobOf(k: Item, p: Path) {
    && |p| == 3 && p[0] == k.kind && p[1] == k.user
    && |k.id| < |p[2]| && p[2][..|k.id| + 1] == k.id + "." && Plain(p[2][|k.id| + 1..])
  }

  function ExtOf(k: Item, p: Path): string
    requires IsBlobOf(k, p)
  {
    p[2][|k.id| + 1..]
  }

  /** The walk may still visit a file that is, or can become, the blob of item k, whose row has
      this extension. */
  predicate Reaches(w: Sweep, k: Item, ext: string) {
    || w.todo.None? || k.user in w.todo.value
    || exists p :: p in w.files && IsBlobOf(k, p) && Usable(k.kind, ext, ExtOf(k, p))
  }

  /** A running sweep may still take item k for an orphan and visit its blob. */
  predicate ExposedAs(s: State, k: Item, ext: string) {
    k.kind in s.sweep && k !in s.sweep[k.kind].keep && Reaches(s.sweep[k.kind], k, ext)
  }

  predicate Exposed(s: State, k: Item) {
    k in s.rows && ExposedAs(s, k, s.rows[k].ext)
  }

  lemma PathIsNamed(k: Item, ext: string)
    requires Plain(ext)
    ensures IsBlobOf(k, PathOf(k, ext)) && ExtOf(k, PathOf(k, ext)) == ext
  {
    assert BlobName(k.id, ext)[..|k.id| + 1] == k.id + ".";
    assert BlobName(k.id, ext)[|k.id| + 1..] == ext;
  }

  lemma NamedIsPath(k: Item, p: Path)
    requires IsBlobOf(k, p)
    ensures Plain(ExtOf(k, p)) && p == PathOf(k, ExtOf(k, p))
  {
    assert p[2] == p[2][..|k.id| + 1] + ExtOf(k, p);
  }

  // ----- steps -----

  datatype Action =
    | Upload(k: Item, row: Row)
    | Replace(k: Item, row: Row)
    | MakeTemp(k: Item, random: string)
    | Write(k: Item, n: nat)
    | Rename(k: Item)
    | GiveUp(k: Item, leaveTemp: bool)
    | CommitRow(k: Item)
    | FailRow(k: Item)
    | FinishUpload(k: Item)
    | RemoveOld(k: Item, ok: bool)
    | Delete(k: Item)
    | RemoveBlob(k: Item, ok: bool)
    | Crash
    | BeginSweep(kind: string)
    | ListRoot(kind: string, users: seq<Id>)
    | ListUser(kind: string, files: seq<Path>)
    | Visit(kind: string, ok: bool)
    | EndSweep(kind: string)

  predicate Stores(s: State, k: Item) {
    k in s.tasks && s.tasks[k].Storing?
  }

  /** The bytes of item k are replaced under the name its row has, and the row is still to follow. */
  predicate MidReplace(s: State, k: Item) {
    && Stores(s, k) && s.tasks[k].phase.Written? && !s.tasks[k].isNew
    && k in s.rows && s.tasks[k].row.ext == s.rows[k].ext
  }

  /** Item k's row would not describe the bytes that have replaced its blob. */
  predicate Stale(s: State, k: Item) {
    MidReplace(s, k) && s.tasks[k].row.described != s.rows[k].described
  }

  /** The torn items once the replacements of some items are cut off. */
  function CutOff(s: State, ks: set<Item>): set<Item> {
    (s.torn - set k | k in ks && MidReplace(s, k)) + set k | k in ks && Stale(s, k)
  }

  /** When a step can happen. One handler works on an item at a time, and ids are fresh. */
  ghost predicate Enabled(s: State, a: Action) {
    match a
    case Upload(k, row) => k !in s.used && PlainItem(k) && UploadExt(k.kind, row.ext)
    case Replace(k, row) => k in s.rows && k !in s.tasks && ReplaceExt(k.kind, s.rows[k].ext, row.ext)
    case MakeTemp(k, random) => Stores(s, k) && s.tasks[k].phase.Waiting? && Plain(random) && TempPath(k, random) !in s.temps
    case Write(k, n) => Stores(s, k) && s.tasks[k].phase.Writing? && s.tasks[k].phase.done <= n <= |s.tasks[k].row.described|
    case Rename(k) => Stores(s, k) && s.tasks[k].phase.Writing? && s.tasks[k].phase.done == |s.tasks[k].row.described|
    case GiveUp(k, _) => Stores(s, k) && !s.tasks[k].phase.Written?
    case CommitRow(k) => Stores(s, k) && s.tasks[k].phase.Written? && !s.tasks[k].isNew && k in s.rows
    case FailRow(k) => Stores(s, k) && s.tasks[k].phase.Written? && !s.tasks[k].isNew
    case FinishUpload(k) => Stores(s, k) && s.tasks[k].phase.Written? && s.tasks[k].isNew
    case RemoveOld(k, _) => k in s.tasks && s.tasks[k].Cleaning?
    case Delete(k) => k in s.rows && k !in s.tasks
    case RemoveBlob(k, _) => k in s.tasks && s.tasks[k].Deleting?
    case Crash => true
    case BeginSweep(kind) => kind !in s.sweep
    // ReadDir gives every directory that holds a file, and maybe empty ones, each once
    case ListRoot(kind, users) =>
      && kind in s.sweep && s.sweep[kind].todo.None? && Distinct(users)
      && forall p :: p in s.disk && |p| == 3 && p[0] == kind ==> p[1] in users
    // and then the files of one directory, after those of the one before
    case ListUser(kind, files) =>
      && kind in s.sweep && s.sweep[kind].todo.Some? && s.sweep[kind].todo.value != [] && s.sweep[kind].files == []
      && Distinct(files)
      && forall p :: p in files <==> p in s.disk && InDir(p, kind, s.sweep[kind].todo.value[0])
    case Visit(kind, _) => kind in s.sweep && s.sweep[kind].files != []
    case EndSweep(kind) => kind in s.sweep
  }

  predicate Distinct<T(==)>(order: seq<T>) {
    forall i, j :: 0 <= i < j < |order| ==> order[i] != order[j]
  }

  predicate InDir(p: Path, kind: string, user: Id) {
    |p| == 3 && p[0] == kind && p[1] == user
  }

  function Advance(s: State, k: Item, phase: Phase): map<Item, Task>
    requires Stores(s, k)
  {
    s.tasks[k := s.tasks[k].(phase := phase)]
  }

  ghost function Next(s: State, a: Action): State
    requires Enabled(s, a)
  {
    match a
    // uploadFile, createNote: the row first (CreateFile, CreateNote), then the blob
    case Upload(k, row) =>
      s.(rows := s.rows[k := row], tasks := s.tasks[k := Storing(row, true, Waiting)], used := s.used + {k},
         sent := s.sent + {(PathOf(k, row.ext), row.described)},
         raced := if ExposedAs(s, k, row.ext) then s.raced + {k} else s.raced)
    // replaceFileBytes, rotateFileInPlace, updateNote: the blob first
    case Replace(k, row) =>
      s.(tasks := s.tasks[k := Storing(row, false, Waiting)], sent := s.sent + {(PathOf(k, row.ext), row.described)})
    // writeAtomic, call by call
    case MakeTemp(k, random) =>
      s.(disk := s.disk[TempPath(k, random) := []], temps := s.temps + {TempPath(k, random)},
         tasks := Advance(s, k, Writing(TempPath(k, random), 0)))
    case Write(k, n) =>
      var tmp := s.tasks[k].phase.tmp;
      s.(disk := if tmp in s.disk then s.disk[tmp := s.tasks[k].row.described[..n]] else s.disk,
         tasks := Advance(s, k, Writing(tmp, n)))
    case Rename(k) =>
      // the rename fails if the sweep has taken the temporary file
      var tmp := s.tasks[k].phase.tmp;
      if tmp !in s.disk then s.(tasks := s.tasks - {k})
      else
        s.(disk := (s.disk - {tmp})[PathOf(k, s.tasks[k].row.ext) := s.disk[tmp]], tasks := Advance(s, k, Written))
    case GiveUp(k, leaveTemp) =>
      s.(disk := if s.tasks[k].phase.Writing? && !leaveTemp then s.disk - {s.tasks[k].phase.tmp} else s.disk,
         tasks := s.tasks - {k})
    // UpdateFile, UpdateNote; then the old blob if the name changed
    case CommitRow(k) =>
      var row := s.tasks[k].row;
      s.(rows := s.rows[k := row], settled := s.settled + {k}, torn := s.torn - {k},
         tasks := if row.ext == s.rows[k].ext then s.tasks - {k} else s.tasks[k := Cleaning(s.rows[k].ext)])
    case FailRow(k) =>
      s.(tasks := s.tasks - {k}, torn := CutOff(s, {k}))
    case FinishUpload(k) => s.(tasks := s.tasks - {k}, settled := s.settled + {k})
    case RemoveOld(k, ok) =>
      s.(disk := if ok then s.disk - {PathOf(k, s.tasks[k].oldExt)} else s.disk, tasks := s.tasks - {k})
    // deleteFile, deleteNote: the row first
    case Delete(k) => s.(rows := s.rows - {k}, tasks := s.tasks[k := Deleting(s.rows[k].ext)])
    case RemoveBlob(k, ok) =>
      s.(disk := if ok then s.disk - {PathOf(k, s.tasks[k].ext)} else s.disk, tasks := s.tasks - {k})
    // the process dies: rows and files stay as they are
    case Crash =>
      s.(tasks := map[], sweep := map[], torn := CutOff(s, s.tasks.Keys))
    // KeepSets, one query for each kind, then SweepOrphans: list a directory, visit its files
    case BeginSweep(kind) =>
      s.(sweep := s.sweep[kind := Sweep((set k | k in s.rows && k.kind == kind), None, [])])
    case ListRoot(kind, users) =>
      s.(sweep := s.sweep[kind := s.sweep[kind].(todo := Some(users))])
    case ListUser(kind, files) =>
      s.(sweep := s.sweep[kind := s.sweep[kind].(todo := Some(s.sweep[kind].todo.value[1..]), files := files)])
    case Visit(kind, ok) =>
      var w := s.sweep[kind];
      s.(disk := if ok && Unkept(w.keep, w.files[0]) then s.disk - {w.files[0]} else s.disk,
         sweep := s.sweep[kind := w.(files := w.files[1..])])
    // the end, or an error that ends the walk
    case EndSweep(kind) => s.(sweep := s.sweep - {kind})
  }

  // ----- the invariant -----

  ghost predicate FileOk(s: State, p: Path)
    requires p in s.disk
  {
    if IsTemp(p) then p in s.temps else (p, s.disk[p]) in s.sent
  }

  ghost predicate TaskOk(s: State, k: Item)
    requires k in s.tasks
  {
    && PlainItem(k) && k in s.used
    && match s.tasks[k]
       case Storing(row, isNew, phase) =>
         && k in s.rows && Plain(row.ext) && (PathOf(k, row.ext), row.described) in s.sent
         && (isNew ==> s.rows[k] == row && k !in s.settled && k !in s.torn)
         && (!isNew ==> ReplaceExt(k.kind, s.rows[k].ext, row.ext))
         && (phase.Writing? ==>
               && IsTemp(phase.tmp) && phase.tmp in s.temps && phase.done <= |row.described|
               && (phase.tmp in s.disk ==> s.disk[phase.tmp] == row.described[..phase.done]))
         && (phase.Written? && k !in s.raced ==> PathOf(k, row.ext) in s.disk)
         && (phase.Written? && PathOf(k, row.ext) in s.disk ==> s.disk[PathOf(k, row.ext)] == row.described)
       case Cleaning(oldExt) => k in s.rows && Plain(oldExt) && oldExt != s.rows[k].ext
       case Deleting(ext) => k !in s.rows && Plain(ext)
  }

  /** An item's row: once it is settled it names an existing blob, unless its upload raced a sweep,
      and describes the blob it names if and only if the item is not torn. */
  ghost predicate RowOk(s: State, k: Item)
    requires k in s.rows
  {
    && PlainItem(k) && Plain(s.rows[k].ext) && k in s.used
    && (k in s.settled ==>
          && (k !in s.raced ==> PathOf(k, s.rows[k].ext) in s.disk)
          && (!MidReplace(s, k) && PathOf(k, s.rows[k].ext) in s.disk ==>
                (k !in s.torn <==> s.disk[PathOf(k, s.rows[k].ext)] == s.rows[k].described)))
    && (Exposed(s, k) ==> k in s.raced)
  }

  ghost predicate TempsApart(s: State) {
    forall j, k {:trigger s.tasks[j], s.tasks[k]} | Stores(s, j) && Stores(s, k) && j != k ::
      s.tasks[j].phase.Writing? && s.tasks[k].phase.Writing? ==> s.tasks[j].phase.tmp != s.tasks[k].phase.tmp
  }

  ghost predicate SweepsOk(s: State) {
    forall kind :: kind in s.sweep ==>
      && (forall k :: k in s.sweep[kind].keep ==> PlainItem(k))
      && (forall p :: p in s.sweep[kind].files ==> |p| == 3 && p[0] == kind)
  }

  ghost predicate Inv(s: State) {
    && (forall p {:trigger FileOk(s, p)} :: p in s.disk ==> FileOk(s, p))
    && (forall k {:trigger TaskOk(s, k)} :: k in s.tasks ==> TaskOk(s, k))
    && (forall k {:trigger RowOk(s, k)} :: k in s.rows ==> RowOk(s, k))
    && TempsApart(s)
    && s.settled <= s.used && s.torn <= s.used && SweepsOk(s)
  }

  /** A server started on an empty data directory. */
  function Init(): State {
    State(map[], map[], map[], {}, {}, {}, {}, {}, {}, map[])
  }

  // ----- every step keeps the invariant -----

  /** Steps that leave the disk alone: the files stay accounted for. */
  lemma FilesKept(s: State, t: State)
    requires Inv(s) && t.disk == s.disk && s.temps <= t.temps && s.sent <= t.sent
    ensures forall p :: p in t.disk ==> FileOk(t, p)
  {
    forall p | p in t.disk ensures FileOk(t, p) { assert FileOk(s, p); }
  }

  lemma UploadKeeps(s: State, k: Item, row: Row)
    requires Inv(s) && Enabled(s, Upload(k, row))
    ensures Inv(Next(s, Upload(k, row)))
  {
    var t := Next(s, Upload(k, row));
    TableIsPlain(k.kind, row.ext, row.ext);
    FilesKept(s, t);
    forall j | j in t.tasks ensures TaskOk(t, j) { if j != k { assert TaskOk(s, j); } }
    forall j | j in t.rows ensures RowOk(t, j) { if j != k { assert RowOk(s, j); } }
    assert k in s.tasks ==> TaskOk(s, k);
  }

  lemma ReplaceKeeps(s: State, k: Item, row: Row)
    requires Inv(s) && Enabled(s, Replace(k, row))
    ensures Inv(Next(s, Replace(k, row)))
  {
    var t := Next(s, Replace(k, row));
    FilesKept(s, t);
    assert RowOk(s, k);
    TableIsPlain(k.kind, s.rows[k].ext, row.ext);
    forall j | j in t.tasks ensures TaskOk(t, j) { if j != k { assert TaskOk(s, j); } }
    forall j | j in t.rows ensures RowOk(t, j) { assert RowOk(s, j); }
  }

  /** A settled row's blob and a stored blob have names of their own, not a temporary one. */
  lemma NotTemp(s: State, k: Item, ext: string, tmp: Path)
    requires PlainItem(k) && Plain(ext) && IsTemp(tmp)
    ensures PathOf(k, ext) != tmp
  {
    PathNamesItem(k, ext, k, ext);
  }

  /** A step of an atomic write that changes nothing but its temporary file. */
  lemma TempStepKeeps(s: State, t: State, k: Item, tmp: Path, done: nat)
    requires Inv(s) && Stores(s, k) && !s.tasks[k].phase.Written? && done <= |s.tasks[k].row.described| && IsTemp(tmp)
    requires t == s.(disk := t.disk, temps := s.temps + {tmp}, tasks := Advance(s, k, Writing(tmp, done)))
    requires forall p :: p != tmp ==> (p in t.disk <==> p in s.disk)
    requires forall p :: p != tmp && p in t.disk ==> t.disk[p] == s.disk[p]
    requires tmp in t.disk ==> t.disk[tmp] == s.tasks[k].row.described[..done]
    requires forall j :: Stores(s, j) && j != k && s.tasks[j].phase.Writing? ==> s.tasks[j].phase.tmp != tmp
    ensures Inv(t)
  {
    forall p | p in t.disk ensures FileOk(t, p) { if p != tmp { assert FileOk(s, p); } }
    forall j | j in t.tasks ensures TaskOk(t, j) {
      assert TaskOk(s, j);
      if Stores(s, j) { NotTemp(s, j, s.tasks[j].row.ext, tmp); }
    }
    forall j | j in t.rows ensures RowOk(t, j) {
      assert RowOk(s, j);
      NotTemp(s, j, s.rows[j].ext, tmp);
    }
  }

  lemma MakeTempKeeps(s: State, k: Item, random: string)
    requires Inv(s) && Enabled(s, MakeTemp(k, random))
    ensures Inv(Next(s, MakeTemp(k, random)))
  {
    var tmp := TempPath(k, random);
    TempIsTemp(k, random);
    forall j | Stores(s, j) && s.tasks[j].phase.Writing? ensures s.tasks[j].phase.tmp != tmp { assert TaskOk(s, j); }
    TempStepKeeps(s, Next(s, MakeTemp(k, random)), k, tmp, 0);
  }

  lemma WriteKeeps(s: State, k: Item, n: nat)
    requires Inv(s) && Enabled(s, Write(k, n))
    ensures Inv(Next(s, Write(k, n)))
  {
    assert TaskOk(s, k);
    TempStepKeeps(s, Next(s, Write(k, n)), k, s.tasks[k].phase.tmp, n);
  }

  /** The item whose blob is put in place. */
  lemma RenamedOk(s: State, k: Item)
    requires Inv(s) && Enabled(s, Rename(k)) && s.tasks[k].phase.tmp in s.disk
    ensures var t := Next(s, Rename(k)); TaskOk(t, k) && RowOk(t, k)
  {
    var tmp, row := s.tasks[k].phase.tmp, s.tasks[k].row;
    assert TaskOk(s, k) && RowOk(s, k);
    assert row.described[..|row.described|] == row.described;
    NotTemp(s, k, s.rows[k].ext, tmp);
    PathNamesItem(k, row.ext, k, s.rows[k].ext);
  }

  lemma RenameKeeps(s: State, k: Item)
    requires Inv(s) && Enabled(s, Rename(k)) && s.tasks[k].phase.tmp in s.disk
    ensures Inv(Next(s, Rename(k)))
  {
    var t, tmp, row := Next(s, Rename(k)), s.tasks[k].phase.tmp, s.tasks[k].row;
    var to := PathOf(k, row.ext);
    assert TaskOk(s, k);
    assert row.described[..|row.described|] == row.described;
    PathNamesItem(k, row.ext, k, row.ext);
    RenamedOk(s, k);
    forall p | p in t.disk ensures FileOk(t, p) { if p != to { assert FileOk(s, p); } }
    forall j | j in t.tasks ensures TaskOk(t, j) {
      if j != k {
        assert TaskOk(s, j);
        if Stores(s, j) {
          NotTemp(s, j, s.tasks[j].row.ext, tmp);
          PathNamesItem(k, row.ext, j, s.tasks[j].row.ext);
        }
      }
    }
    forall j | j in t.rows ensures RowOk(t, j) {
      if j != k {
        assert RowOk(s, j);
        NotTemp(s, j, s.rows[j].ext, tmp);
        PathNamesItem(k, row.ext, j, s.rows[j].ext);
      }
    }
  }

  /** Dropping a task that is not between its blob and its row, with or without a file that no row
      and no stored blob has. */
  lemma DropKeeps(s: State, k: Item, t: State)
    requires Inv(s) && k in s.tasks && !MidReplace(s, k)
    requires t == s.(tasks := s.tasks - {k}, disk := t.disk)
    requires forall p :: p in t.disk ==> p in s.disk && t.disk[p] == s.disk[p]
    requires forall j :: j in s.rows ==> PathOf(j, s.rows[j].ext) in s.disk ==> PathOf(j, s.rows[j].ext) in t.disk
    requires forall j :: Stores(s, j) && j != k ==>
               PathOf(j, s.tasks[j].row.ext) in s.disk ==> PathOf(j, s.tasks[j].row.ext) in t.disk
    ensures Inv(t)
  {
    forall p | p in t.disk ensures FileOk(t, p) { assert FileOk(s, p); }
    forall j | j in t.tasks ensures TaskOk(t, j) { assert TaskOk(s, j) && Stores(t, j) == Stores(s, j); }
    forall j | j in t.rows ensures RowOk(t, j) { assert RowOk(s, j); }
  }

  lemma GiveUpKeeps(s: State, k: Item, leaveTemp: bool)
    requires Inv(s) && Enabled(s, GiveUp(k, leaveTemp))
    ensures Inv(Next(s, GiveUp(k, leaveTemp)))
  {
    assert TaskOk(s, k);
    if s.tasks[k].phase.Writing? {
      var tmp := s.tasks[k].phase.tmp;
      forall j | j in s.rows ensures PathOf(j, s.rows[j].ext) != tmp {
        assert RowOk(s, j);
        NotTemp(s, j, s.rows[j].ext, tmp);
      }
      forall j | Stores(s, j) ensures PathOf(j, s.tasks[j].row.ext) != tmp {
        assert TaskOk(s, j);
        NotTemp(s, j, s.tasks[j].row.ext, tmp);
      }
    }
    DropKeeps(s, k, Next(s, GiveUp(k, leaveTemp)));
  }

  lemma LostTempKeeps(s: State, k: Item)
    requires Inv(s) && Enabled(s, Rename(k)) && s.tasks[k].phase.tmp !in s.disk
    ensures Inv(Next(s, Rename(k)))
  {
    DropKeeps(s, k, Next(s, Rename(k)));
  }

  /** A new extension brings no row within reach that was out of it. */
  lemma CommitExposes(s: State, k: Item, j: Item)
    requires Inv(s) && Enabled(s, CommitRow(k)) && Exposed(Next(s, CommitRow(k)), j)
    ensures Exposed(s, j)
  {
    assert TaskOk(s, k);
    if j == k {
      var was, now := s.rows[k].ext, s.tasks[k].row.ext;
      forall e | Usable(k.kind, now, e) ensures Usable(k.kind, was, e) { UsableAgain(k.kind, was, now, e); }
    }
  }

  /** The item that is committed. */
  lemma CommittedOk(s: State, k: Item)
    requires Inv(s) && Enabled(s, CommitRow(k))
    ensures var t := Next(s, CommitRow(k)); RowOk(t, k) && (k in t.tasks ==> TaskOk(t, k))
  {
    assert TaskOk(s, k) && RowOk(s, k);
    if Exposed(Next(s, CommitRow(k)), k) { CommitExposes(s, k, k); }
  }

  lemma CommitKeeps(s: State, k: Item)
    requires Inv(s) && Enabled(s, CommitRow(k))
    ensures Inv(Next(s, CommitRow(k)))
  {
    var t := Next(s, CommitRow(k));
    FilesKept(s, t);
    CommittedOk(s, k);
    assert TaskOk(s, k);
    forall j | j in t.tasks ensures TaskOk(t, j) { if j != k { assert TaskOk(s, j); } }
    forall j | j in t.rows ensures RowOk(t, j) { if j != k { assert RowOk(s, j); } }
  }

  lemma FailRowKeeps(s: State, k: Item)
    requires Inv(s) && Enabled(s, FailRow(k))
    ensures Inv(Next(s, FailRow(k)))
  {
    var t := Next(s, FailRow(k));
    FilesKept(s, t);
    forall j | j in t.tasks ensures TaskOk(t, j) { assert TaskOk(s, j); }
    forall j | j in t.rows ensures RowOk(t, j) {
      assert RowOk(s, j);
      if j in s.tasks { assert TaskOk(s, j); }
    }
  }

  lemma FinishUploadKeeps(s: State, k: Item)
    requires Inv(s) && Enabled(s, FinishUpload(k))
    ensures Inv(Next(s, FinishUpload(k)))
  {
    var t := Next(s, FinishUpload(k));
    FilesKept(s, t);
    assert TaskOk(s, k);
    forall j | j in t.tasks ensures TaskOk(t, j) { assert TaskOk(s, j); }
    forall j | j in t.rows ensures RowOk(t, j) { assert RowOk(s, j); }
  }

  /** Removing a blob of item k that its row, if any, does not name. */
  lemma OthersNotNamed(s: State, k: Item, ext: string)
    requires Inv(s) && PlainItem(k) && Plain(ext) && (k in s.rows ==> s.rows[k].ext != ext)
    ensures forall j :: j in s.rows ==> PathOf(j, s.rows[j].ext) != PathOf(k, ext)
    ensures forall j :: Stores(s, j) && j != k ==> PathOf(j, s.tasks[j].row.ext) != PathOf(k, ext)
  {
    forall j | j in s.rows ensures PathOf(j, s.rows[j].ext) != PathOf(k, ext) {
      assert RowOk(s, j);
      PathNamesItem(k, ext, j, s.rows[j].ext);
    }
    forall j | Stores(s, j) && j != k ensures PathOf(j, s.tasks[j].row.ext) != PathOf(k, ext) {
      assert TaskOk(s, j);
      PathNamesItem(k, ext, j, s.tasks[j].row.ext);
    }
  }

  lemma RemoveOldKeeps(s: State, k: Item, ok: bool)
    requires Inv(s) && Enabled(s, RemoveOld(k, ok))
    ensures Inv(Next(s, RemoveOld(k, ok)))
  {
    assert TaskOk(s, k);
    OthersNotNamed(s, k, s.tasks[k].oldExt);
    DropKeeps(s, k, Next(s, RemoveOld(k, ok)));
  }

  lemma RemoveBlobKeeps(s: State, k: Item, ok: bool)
    requires Inv(s) && Enabled(s, RemoveBlob(k, ok))
    ensures Inv(Next(s, RemoveBlob(k, ok)))
  {
    assert TaskOk(s, k);
    OthersNotNamed(s, k, s.tasks[k].ext);
    DropKeeps(s, k, Next(s, RemoveBlob(k, ok)));
  }

  lemma DeleteKeeps(s: State, k: Item)
    requires Inv(s) && Enabled(s, Delete(k))
    ensures Inv(Next(s, Delete(k)))
  {
    var t := Next(s, Delete(k));
    FilesKept(s, t);
    assert RowOk(s, k);
    forall j | j in t.tasks ensures TaskOk(t, j) { if j != k { assert TaskOk(s, j); } }
    forall j | j in t.rows ensures RowOk(t, j) { assert RowOk(s, j); }
  }

  lemma CrashKeeps(s: State)
    requires Inv(s)
    ensures Inv(Next(s, Crash))
  {
    var t := Next(s, Crash);
    FilesKept(s, t);
    forall j | j in t.rows ensures RowOk(t, j) {
      assert RowOk(s, j);
      if j in s.tasks { assert TaskOk(s, j); }
    }
  }

  /** Steps of a sweep that only look, and expose no row. */
  lemma LookKeeps(s: State, t: State)
    requires Inv(s) && t == s.(sweep := t.sweep) && SweepsOk(t)
    requires forall k :: k in s.rows && Exposed(t, k) ==> Exposed(s, k)
    ensures Inv(t)
  {
    FilesKept(s, t);
    forall j | j in t.tasks ensures TaskOk(t, j) { assert TaskOk(s, j); }
    forall j | j in t.rows ensures RowOk(t, j) { assert RowOk(s, j); }
  }

  lemma BeginSweepKeeps(s: State, kind: string)
    requires Inv(s) && Enabled(s, BeginSweep(kind))
    ensures Inv(Next(s, BeginSweep(kind)))
  {
    forall k | k in s.rows ensures PlainItem(k) { assert RowOk(s, k); }
    LookKeeps(s, Next(s, BeginSweep(kind)));
  }

  lemma EndSweepKeeps(s: State, kind: string)
    requires Inv(s) && Enabled(s, EndSweep(kind))
    ensures Inv(Next(s, EndSweep(kind)))
  {
    LookKeeps(s, Next(s, EndSweep(kind)));
  }

  lemma ListRootKeeps(s: State, kind: string, users: seq<Id>)
    requires Inv(s) && Enabled(s, ListRoot(kind, users))
    ensures Inv(Next(s, ListRoot(kind, users)))
  {
    LookKeeps(s, Next(s, ListRoot(kind, users)));
  }

  /** Listing a directory brings nobody within reach who was out of it. */
  lemma ListUserExposes(s: State, kind: string, files: seq<Path>, k: Item)
    requires Enabled(s, ListUser(kind, files)) && Exposed(Next(s, ListUser(kind, files)), k)
    ensures Exposed(s, k)
  {
  }

  lemma ListUserKeeps(s: State, kind: string, files: seq<Path>)
    requires Inv(s) && Enabled(s, ListUser(kind, files))
    ensures Inv(Next(s, ListUser(kind, files)))
  {
    var t := Next(s, ListUser(kind, files));
    forall k | Exposed(t, k) ensures Exposed(s, k) { ListUserExposes(s, kind, files, k); }
    LookKeeps(s, t);
  }

  /** The next visit of the sweep does not remove a blob of an item that is not exposed. */
  lemma VisitSpares(s: State, kind: string, k: Item, ext: string)
    requires SweepsOk(s) && Enabled(s, Visit(kind, true)) && PlainItem(k) && Plain(ext)
    requires k in s.rows && Usable(k.kind, s.rows[k].ext, ext) && !Exposed(s, k)
    requires Unkept(s.sweep[kind].keep, s.sweep[kind].files[0])
    ensures s.sweep[kind].files[0] != PathOf(k, ext)
  {
    var w := s.sweep[kind];
    if w.files[0] == PathOf(k, ext) {
      assert w.files[0] in w.files && PathOf(k, ext)[0] == k.kind;
      PathIsNamed(k, ext);
      SnapshotDecides(w.keep, k, ext);
    }
  }

  lemma VisitExposes(s: State, kind: string, ok: bool, k: Item)
    requires Enabled(s, Visit(kind, ok)) && Exposed(Next(s, Visit(kind, ok)), k)
    ensures Exposed(s, k)
  {
  }

  /** Removing a file that is named only by items whose upload raced a sweep. */
  lemma GoneKeeps(s: State, p: Path)
    requires Inv(s)
    requires forall j :: j in s.rows && j !in s.raced ==> PathOf(j, s.rows[j].ext) != p
    requires forall j :: Stores(s, j) && j !in s.raced ==> PathOf(j, s.tasks[j].row.ext) != p
    ensures Inv(s.(disk := s.disk - {p}))
  {
    var t := s.(disk := s.disk - {p});
    forall q | q in t.disk ensures FileOk(t, q) { assert FileOk(s, q); }
    forall j | j in t.tasks ensures TaskOk(t, j) { assert TaskOk(s, j); }
    forall j | j in t.rows ensures RowOk(t, j) { assert RowOk(s, j); }
  }

  /** The sweep removes no blob of an item that is not exposed. */
  lemma UnlinkKeeps(s: State, kind: string)
    requires Inv(s) && Enabled(s, Visit(kind, true)) && Unkept(s.sweep[kind].keep, s.sweep[kind].files[0])
    ensures Inv(s.(disk := s.disk - {s.sweep[kind].files[0]}))
  {
    var p := s.sweep[kind].files[0];
    forall j | j in s.rows && j !in s.raced ensures PathOf(j, s.rows[j].ext) != p {
      assert RowOk(s, j);
      VisitSpares(s, kind, j, s.rows[j].ext);
    }
    forall j | Stores(s, j) && j !in s.raced ensures PathOf(j, s.tasks[j].row.ext) != p {
      assert TaskOk(s, j) && RowOk(s, j);
      VisitSpares(s, kind, j, s.tasks[j].row.ext);
    }
    GoneKeeps(s, p);
  }

  lemma VisitKeeps(s: State, kind: string, ok: bool)
    requires Inv(s) && Enabled(s, Visit(kind, ok))
    ensures Inv(Next(s, Visit(kind, ok)))
  {
    var t := Next(s, Visit(kind, ok));
    forall k | Exposed(t, k) ensures Exposed(s, k) { VisitExposes(s, kind, ok, k); }
    if ok && Unkept(s.sweep[kind].keep, s.sweep[kind].files[0]) {
      UnlinkKeeps(s, kind);
      LookKeeps(s.(disk := t.disk), t);
    } else {
      LookKeeps(s, t);
    }
  }

  lemma StepKeeps(s: State, a: Action)
    requires Inv(s) && Enabled(s, a)
    ensures Inv(Next(s, a))
  {
    match a
    case Upload(k, row) => UploadKeeps(s, k, row);
    case Replace(k, row) => ReplaceKeeps(s, k, row);
    case MakeTemp(k, random) => MakeTempKeeps(s, k, random);
    case Write(k, n) => WriteKeeps(s, k, n);
    case Rename(k) => if s.tasks[k].phase.tmp in s.disk { RenameKeeps(s, k); } else { LostTempKeeps(s, k); }
    case GiveUp(k, leaveTemp) => GiveUpKeeps(s, k, leaveTemp);
    case CommitRow(k) => CommitKeeps(s, k);
    case FailRow(k) => FailRowKeeps(s, k);
    case FinishUpload(k) => FinishUploadKeeps(s, k);
    case RemoveOld(k, ok) => RemoveOldKeeps(s, k, ok);
    case Delete(k) => DeleteKeeps(s, k);
    case RemoveBlob(k, ok) => RemoveBlobKeeps(s, k, ok);
    case Crash => CrashKeeps(s);
    case BeginSweep(kind) => BeginSweepKeeps(s, kind);
    case ListRoot(kind, users) => ListRootKeeps(s, kind, users);
    case ListUser(kind, files) => ListUserKeeps(s, kind, files);
    case Visit(kind, ok) => VisitKeeps(s, kind, ok);
    case EndSweep(kind) => EndSweepKeeps(s, kind);
  }

  // ----- runs -----

  ghost predicate Runs(s: State, actions: seq<Action>, t: State)
    decreases |actions|
  {
    if actions == [] then s == t
    else Enabled(s, actions[0]) && Runs(Next(s, actions[0]), actions[1..], t)
  }

  lemma {:induction false} RunsKeep(s: State, actions: seq<Action>, t: State)
    requires Inv(s) && Runs(s, actions, t)
    ensures Inv(t)
    decreases |actions|
  {
    if actions != [] {
      StepKeeps(s, actions[0]);
      RunsKeep(Next(s, actions[0]), actions[1..], t);
    }
  }

  /** Crash safety: whatever the handlers and the sweep did and wherever the process died, every
      blob under a final name is the complete payload of one write to that name, every row whose
      upload or replacement has finished names an existing blob, unless it was uploaded within
      reach of a running sweep, and a row describes the blob it names if and only if the item is
      not torn. */
  lemma CrashSafety(actions: seq<Action>, s: State)
    requires Runs(Init(), actions, s)
    ensures forall p :: p in s.disk && !IsTemp(p) ==> (p, s.disk[p]) in s.sent
    ensures forall k :: k in s.rows && k in s.settled && k !in s.raced ==> PathOf(k, s.rows[k].ext) in s.disk
    ensures forall k :: k in s.rows && k in s.settled && !MidReplace(s, k) && PathOf(k, s.rows[k].ext) in s.disk ==>
              (k !in s.torn <==> s.disk[PathOf(k, s.rows[k].ext)] == s.rows[k].described)
  {
    RunsKeep(Init(), actions, s);
    forall p | p in s.disk && !IsTemp(p) ensures (p, s.disk[p]) in s.sent { assert FileOk(s, p); }
    forall k | k in s.rows && k in s.settled
      ensures k !in s.raced ==> PathOf(k, s.rows[k].ext) in s.disk
      ensures !MidReplace(s, k) && PathOf(k, s.rows[k].ext) in s.disk ==>
                (k !in s.torn <==> s.disk[PathOf(k, s.rows[k].ext)] == s.rows[k].described)
    {
      assert RowOk(s, k);
    }
  }
}
