/** The blob store of internal/blob/blob.go: names on disk, the atomic write and the orphan sweep. */
module BlobNames {
  type Id = string

  /** Path components below the data directory: kind, user, file name. */
  type Path = seq<string>

  /** filepath.Ext: the suffix from the last dot on. */
  function Ext(name: string): string {
    if name == "" || name[|name| - 1] == '/' then ""
    else if name[|name| - 1] == '.' then "."
    else
      var e := Ext(name[..|name| - 1]);
      if e == "" then "" else e + [name[|name| - 1]]
  }

  lemma {:induction false} ExtIsSuffix(name: string)
    ensures |Ext(name)| <= |name| && name[|name| - |Ext(name)|..] == Ext(name)
  {
    if name != "" && name[|name| - 1] != '/' && name[|name| - 1] != '.' {
      ExtIsSuffix(name[..|name| - 1]);
    }
  }

  /** strings.TrimSuffix(name, filepath.Ext(name)): the id in a blob's name. */
  function Stem(name: string): string {
    ExtIsSuffix(name);
    name[..|name| - |Ext(name)|]
  }

  /** Server-made ids (base64url), and extensions from the fixed table: no dot, slash or NUL. */
  predicate Plain(s: string) {
    '.' !in s && '/' !in s && '\0' !in s
  }

  predicate PlainId(s: string) {
    s != "" && Plain(s)
  }

  /** The on-disk name of a blob. */
  function BlobName(id: Id, ext: string): string {
    id + "." + ext
  }

  /** The name that os.CreateTemp makes for ".tmp-*". */
  function TempName(random: string): string {
    ".tmp-" + random
  }

  lemma {:induction false} ExtOfPlainTail(head: string, tail: string)
    requires Plain(tail)
    ensures Ext(head + "." + tail) == "." + tail
  {
    var name := head + "." + tail;
    if tail == "" {
      assert name == head + ".";
    } else {
      var n := |tail| - 1;
      assert name[..|name| - 1] == head + "." + tail[..n];
      assert name[|name| - 1] == tail[n] && tail[n] in tail;
      ExtOfPlainTail(head, tail[..n]);
      assert "." + tail[..n] + [tail[n]] == "." + tail;
    }
  }

  /** A name without a dot has no extension, and stays as it is. */
  lemma {:induction false} StemOfDotless(name: string)
    requires '.' !in name
    ensures Ext(name) == "" && Stem(name) == name
    decreases |name|
  {
    if name != "" {
      assert name[|name| - 1] in name;
      forall c | c in name[..|name| - 1] ensures c in name { }
      StemOfDotless(name[..|name| - 1]);
    }
  }

  /** Stripping the extension gives back the id. */
  lemma StemOfBlob(id: Id, ext: string)
    requires Plain(ext)
    ensures Stem(BlobName(id, ext)) == id
  {
    ExtOfPlainTail(id, ext);
    assert BlobName(id, ext)[..|id|] == id;
  }

  /** A temporary file's name has no id in it. */
  lemma StemOfTemp(random: string)
    requires Plain(random)
    ensures Stem(TempName(random)) == ""
  {
    var tail := "tmp-" + random;
    assert TempName(random) == "" + "." + tail;
    ExtOfPlainTail("", tail);
  }

  /** Names of blobs are different for different ids or extensions. */
  lemma BlobNameInjective(id: Id, ext: string, id': Id, ext': string)
    requires Plain(ext) && Plain(ext') && BlobName(id, ext) == BlobName(id', ext')
    ensures id == id' && ext == ext'
  {
    StemOfBlob(id, ext);
    StemOfBlob(id', ext');
    assert BlobName(id, ext)[|id| + 1..] == ext && BlobName(id', ext')[|id'| + 1..] == ext';
  }

  /** The keep-set's key for a row. */
  function KeepKey(user: Id, id: Id): string {
    user + "\0" + id
  }

  /** Keys are different for different rows: a user id holds no NUL. */
  lemma KeepKeyInjective(user: Id, id: Id, user': Id, id': Id)
    requires '\0' !in user && '\0' !in user' && KeepKey(user, id) == KeepKey(user', id')
    ensures user == user' && id == id'
  {
    var k := KeepKey(user, id);
    assert k[|user|] == '\0' && k[|user'|] == '\0';
    forall i | 0 <= i < |user| ensures k[i] != '\0' { assert k[i] == user[i] && user[i] in user; }
    forall i | 0 <= i < |user'| ensures k[i] != '\0' { assert k[i] == user'[i] && user'[i] in user'; }
    assert |user| == |user'|;
    assert k[..|user|] == user && k[..|user'|] == user';
    assert k[|user| + 1..] == id && k[|user'| + 1..] == id';
  }
}

module Blob {
  import opened Names
  import opened BlobNames

  type Bytes = seq<byte>

  /** The files below the data directory. */
  type Disk = map<Path, Bytes>

  // ----- the atomic write -----

  /** What goes wrong during a write, if anything: the failing call, and whether removing the
      temporary file then fails, too, which the code ignores. */
  datatype Fault =
    | NoFault
    | CreateFails
    | WriteFails(after: nat, stuck: bool)
    | CloseFails(stuck: bool)
    | ChmodFails(stuck: bool)
    | RenameFails

  /** The temporary file stays behind. */
  predicate Leaves(fault: Fault) {
    fault.RenameFails? || ((fault.WriteFails? || fault.CloseFails? || fault.ChmodFails?) && fault.stuck)
  }

  /** What a write may leave on disk if the process dies on the way: apart from the temporary
      file, everything is as before, or the destination holds the complete data. */
  ghost predicate CrashSafe(before: Disk, d: Disk, tmp: Path, dest: Path, data: Bytes) {
    d - {tmp} == before - {tmp} || d == (before - {tmp})[dest := data]
  }

  class FileSystem {
    var disk: Disk
    /** Every state the disk has been in: a crash can leave any of them. */
    ghost var past: seq<Disk>

    constructor ()
      ensures disk == map[] && past == []
    {
      disk, past := map[], [];
    }

    method Put(p: Path, data: Bytes)
      modifies this
      ensures disk == old(disk)[p := data] && past == old(past) + [disk]
    {
      disk := disk[p := data];
      past := past + [disk];
    }

    method Remove(p: Path)
      modifies this
      ensures disk == old(disk) - {p} && past == old(past) + [disk]
    {
      disk := disk - {p};
      past := past + [disk];
    }

    method Rename(p: Path, q: Path)
      requires p in disk
      modifies this
      ensures disk == (old(disk) - {p})[q := old(disk)[p]] && past == old(past) + [disk]
    {
      disk := (disk - {p})[q := disk[p]];
      past := past + [disk];
    }

    /** The operating system's write: the file grows, and may stop growing on the way. */
    method Append(p: Path, data: Bytes, n: nat)
      requires p in disk && disk[p] == [] && n <= |data|
      modifies this
      ensures disk == old(disk)[p := data[..n]]
      ensures old(past) <= past
      ensures forall k :: |old(past)| <= k < |past| ==> past[k] - {p} == old(disk) - {p}
    {
      var i := 0;
      while i < n
        invariant 0 <= i <= n && disk == old(disk)[p := data[..i]]
        invariant old(past) <= past
        invariant forall k :: |old(past)| <= k < |past| ==> past[k] - {p} == old(disk) - {p}
      {
        i := i + 1;
        Put(p, data[..i]);
      }
    }

    method Discard(tmp: Path, stuck: bool)
      modifies this
      ensures disk == (if stuck then old(disk) else old(disk) - {tmp})
      ensures past == old(past) || past == old(past) + [disk]
    {
      if !stuck {
        Remove(tmp);
      }
    }

    /** The part of writeAtomic before the rename: nothing but the temporary file changes. */
    method FillTemp(tmp: Path, data: Bytes, fault: Fault) returns (ok: bool)
      requires tmp !in disk
      modifies this
      ensures ok <==> fault == NoFault || fault == RenameFails
      ensures disk - {tmp} == old(disk) && (tmp in disk <==> ok || Leaves(fault))
      ensures tmp in disk ==> disk[tmp] <= data && (!fault.WriteFails? ==> disk[tmp] == data)
      ensures old(past) <= past && forall k :: |old(past)| <= k < |past| ==> past[k] - {tmp} == old(disk)
    {
      if fault == CreateFails {
        return false;
      }
      Put(tmp, []);
      if fault.WriteFails? {
        Append(tmp, data, if fault.after <= |data| then fault.after else |data|);
        Discard(tmp, fault.stuck);
        return false;
      }
      Append(tmp, data, |data|);
      assert data[..|data|] == data;
      if fault.CloseFails? || fault.ChmodFails? {
        Discard(tmp, fault.stuck);
        return false;
      }
      return true;
    }

    /** `writeAtomic`, with the random temporary name and the fault, if any. On success the
        destination holds the data and nothing else changed; on failure nothing changed, except
        that the temporary file may stay behind with data as far as it was written. At every
        moment in between the disk is crash safe. */
    method WriteAtomic(dest: Path, data: Bytes, tmp: Path, fault: Fault) returns (ok: bool)
      requires tmp !in disk && tmp != dest
      modifies this
      ensures ok <==> fault == NoFault
      ensures ok ==> disk == old(disk)[dest := data]
      ensures !ok ==> disk - {tmp} == old(disk) && (tmp in disk <==> Leaves(fault))
      ensures !ok && tmp in disk ==> disk[tmp] <= data && (!fault.WriteFails? ==> disk[tmp] == data)
      ensures old(past) <= past
      ensures forall k :: |old(past)| <= k < |past| ==> CrashSafe(old(disk), past[k], tmp, dest, data)
    {
      ok := FillTemp(tmp, data, fault);
      if !ok || fault == RenameFails {
        return false;
      }
      Rename(tmp, dest);
    }

    /** `SweepOrphans`: the files below one kind's directory, in the order of the walk. The walk
        ignores that files in stuck cannot be removed; a directory that cannot be read ends it
        after so many files. */
    method SweepOrphans(kind: string, keep: set<string>, walk: seq<Path>, stuck: set<Path>, ends: nat)
      requires forall p :: p in walk <==> p in disk && p != [] && p[0] == kind
      requires ends <= |walk|
      modifies this
      ensures disk == map p | p in old(disk) && !(p in walk[..ends] && Orphan(kind, keep, p) && p !in stuck) :: old(disk)[p]
      ensures ends == |walk| && stuck == {} ==> disk == Swept(old(disk), kind, keep)
    {
      var k := 0;
      while k < ends
        invariant 0 <= k <= ends
        invariant forall p :: p in disk <==> p in old(disk) && !(p in walk[..k] && Orphan(kind, keep, p) && p !in stuck)
        invariant forall p :: p in disk ==> disk[p] == old(disk)[p]
      {
        var path := walk[k];
        assert walk[..k + 1] == walk[..k] + [path];
        if |path| == 3 {
          var id := Stem(path[2]);
          if KeepKey(path[1], id) !in keep && path !in stuck {
            Remove(path);
          }
        }
        k := k + 1;
      }
      assert walk[..|walk|] == walk;
    }
  }

  // ----- what the sweep removes -----

  /** A file that the sweep removes. */
  predicate Orphan(kind: string, keep: set<string>, p: Path) {
    |p| == 3 && p[0] == kind && KeepKey(p[1], Stem(p[2])) !in keep
  }

  /** The disk after a sweep that could remove everything it wanted to. */
  function Swept(disk: Disk, kind: string, keep: set<string>): Disk {
    map p | p in disk && !Orphan(kind, keep, p) :: disk[p]
  }

  /** `KeepSets` for one kind: the keys of the rows whose user exists. */
  function KeepSet(rows: set<(Id, Id)>): set<string> {
    set r | r in rows :: KeepKey(r.0, r.1)
  }

  /** The loop of KeepSets over the answer's rows. */
  method FillKeepSet(rows: seq<(Id, Id)>) returns (keep: set<string>)
    ensures keep == KeepSet(set r | r in rows)
  {
    keep := {};
    var k := 0;
    while k < |rows|
      invariant 0 <= k <= |rows|
      invariant keep == KeepSet(set r | r in rows[..k])
    {
      assert rows[..k + 1] == rows[..k] + [rows[k]];
      keep := keep + {KeepKey(rows[k].0, rows[k].1)};
      k := k + 1;
    }
    assert rows[..k] == rows;
  }

  /** Rows with ids and users that the server made. */
  ghost predicate PlainRows(rows: set<(Id, Id)>) {
    forall r :: r in rows ==> PlainId(r.0) && PlainId(r.1)
  }

  /** A file in a user's directory is an orphan if and only if its name carries no id of a row of
      that user. */
  lemma OrphanExactly(rows: set<(Id, Id)>, kind: string, user: Id, name: string)
    requires PlainRows(rows) && PlainId(user)
    ensures Orphan(kind, KeepSet(rows), [kind, user, name]) <==> (user, Stem(name)) !in rows
  {
    if KeepKey(user, Stem(name)) in KeepSet(rows) {
      var r :| r in rows && KeepKey(user, Stem(name)) == KeepKey(r.0, r.1);
      KeepKeyInjective(user, Stem(name), r.0, r.1);
    }
  }

  /** The sweep keeps a blob, whatever its extension, if and only if its row was in the snapshot;
      it removes every temporary file; and it keeps what is not a blob of this kind. */
  lemma SweepExactly(disk: Disk, rows: set<(Id, Id)>, kind: string, user: Id, id: Id, ext: string, random: string, p: Path)
    requires PlainRows(rows) && PlainId(user) && Plain(ext) && Plain(random)
    ensures [kind, user, BlobName(id, ext)] in disk ==>
              ([kind, user, BlobName(id, ext)] in Swept(disk, kind, KeepSet(rows)) <==> (user, id) in rows)
    ensures [kind, user, TempName(random)] !in Swept(disk, kind, KeepSet(rows))
    ensures p in disk && (|p| != 3 || p[0] != kind) ==> p in Swept(disk, kind, KeepSet(rows))
    ensures p in Swept(disk, kind, KeepSet(rows)) ==> p in disk && Swept(disk, kind, KeepSet(rows))[p] == disk[p]
  {
    OrphanExactly(rows, kind, user, BlobName(id, ext));
    StemOfBlob(id, ext);
    OrphanExactly(rows, kind, user, TempName(random));
    StemOfTemp(random);
  }

  /** After a sweep with nothing else going on, every file of the kind carries the id of a row, and
      a second sweep changes nothing. */
  lemma SweepLeavesOnlyLive(disk: Disk, rows: set<(Id, Id)>, kind: string)
    requires PlainRows(rows)
    ensures forall p :: p in Swept(disk, kind, KeepSet(rows)) && |p| == 3 && p[0] == kind && PlainId(p[1]) ==>
              (p[1], Stem(p[2])) in rows
    ensures Swept(Swept(disk, kind, KeepSet(rows)), kind, KeepSet(rows)) == Swept(disk, kind, KeepSet(rows))
  {
    forall p | p in Swept(disk, kind, KeepSet(rows)) && |p| == 3 && p[0] == kind && PlainId(p[1])
      ensures (p[1], Stem(p[2])) in rows
    {
      OrphanExactly(rows, kind, p[1], p[2]);
      assert p == [kind, p[1], p[2]];
    }
  }
}
