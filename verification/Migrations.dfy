/** The migration runner of internal/store/store.go:56-98. One migration and its version record are
    one transaction. */
module Migrations {
  import opened Wrappers

  /** The database as the runner sees it: the scripts that took effect, in order, and the recorded
      schema_version (no row at first). */
  datatype Schema = Schema(applied: seq<int>, version: Option<int>)

  /** COALESCE(MAX(value), 0). */
  function Current(s: Schema): int {
    if s.version.None? then 0 else s.version.value
  }

  /** The entries before the given one, as far as they are newer than the version that the start
      read once, applied in order. stop is where the start ends: an entry that fails or that a
      crash keeps from committing, or the number of entries if the start completes. */
  function Ran(s: Schema, current: int, entries: seq<int>, stop: nat): Schema
    requires stop <= |entries|
  {
    if stop == 0 then s
    else
      var t := Ran(s, current, entries, stop - 1);
      if entries[stop - 1] <= current then t
      else Schema(t.applied + [entries[stop - 1]], Some(entries[stop - 1]))
  }

  function Start(s: Schema, entries: seq<int>, stop: nat): Schema
    requires stop <= |entries|
  {
    Ran(s, Current(s), entries, stop)
  }

  class Migrator {
    var schema: Schema

    constructor ()
      ensures schema == Schema([], None)
    {
      schema := Schema([], None);
    }

    /** `migrate`, where the statements of entry number stop (if there is one) fail. */
    method Migrate(entries: seq<int>, stop: nat) returns (ok: bool)
      modifies this
      ensures schema == Start(old(schema), entries, if stop < |entries| && entries[stop] > Current(old(schema)) then stop else |entries|)
      ensures ok <==> stop >= |entries| || entries[stop] <= Current(old(schema))
    {
      var current := Current(schema);
      var i := 0;
      while i < |entries|
        invariant 0 <= i <= |entries| && schema == Ran(old(schema), current, entries, i)
        invariant stop < i ==> entries[stop] <= current
      {
        if entries[i] <= current {
          i := i + 1;
          continue;
        }
        if i == stop {
          return false;
        }
        schema := Schema(schema.applied + [entries[i]], Some(entries[i]));
        i := i + 1;
      }
      return true;
    }
  }

  /** The migrations ever released: numbered upwards from above zero. */
  ghost predicate Released(all: seq<int>) {
    && (forall i :: 0 <= i < |all| ==> 0 < all[i])
    && (forall i, j :: 0 <= i < j < |all| ==> all[i] < all[j])
  }

  /** The first k migrations were applied, each once and in order, and the last is recorded. */
  ghost predicate AtVersion(s: Schema, all: seq<int>, k: nat) {
    k <= |all| && s.applied == all[..k] && s.version == if k == 0 then None else Some(all[k - 1])
  }

  function Later(j: nat, k: nat): nat {
    if j <= k then k else j
  }

  /** A start applies exactly the migrations that are missing before the place where it stops. */
  lemma {:induction false} RanReaches(s: Schema, all: seq<int>, k: nat, stop: nat)
    requires Released(all) && AtVersion(s, all, k) && stop <= |all|
    ensures AtVersion(Ran(s, Current(s), all, stop), all, Later(k, stop))
  {
    if stop > 0 {
      RanReaches(s, all, k, stop - 1);
      if stop > k {
        assert all[..stop] == all[..stop - 1] + [all[stop - 1]];
      }
    }
  }

  /** One program start: the number of migrations its release knows, and where it stops. */
  datatype Launch = Launch(known: nat, stop: nat)

  ghost predicate Launches(all: seq<int>, launches: seq<Launch>) {
    forall i :: 0 <= i < |launches| ==> launches[i].stop <= launches[i].known <= |all|
  }

  /** The database after a sequence of starts of older and newer releases, each of which may
      complete, fail or crash. */
  function After(s: Schema, all: seq<int>, launches: seq<Launch>): Schema
    requires Launches(all, launches)
  {
    if launches == [] then s
    else
      var l := launches[|launches| - 1];
      Start(After(s, all, launches[..|launches| - 1]), all[..l.known], l.stop)
  }

  /** How far the furthest start came. */
  function Furthest(launches: seq<Launch>): nat {
    if launches == [] then 0
    else Later(Furthest(launches[..|launches| - 1]), launches[|launches| - 1].stop)
  }

  /** Knowing only the first migrations makes no difference before the place where a start stops. */
  lemma {:induction false} RanPrefix(s: Schema, current: int, all: seq<int>, known: nat, stop: nat)
    requires stop <= known <= |all|
    ensures Ran(s, current, all[..known], stop) == Ran(s, current, all, stop)
  {
    if stop > 0 {
      RanPrefix(s, current, all, known, stop - 1);
    }
  }

  /** Exactly once and in order: after any starts, failures and crashes the applied migrations are
      the first so many of the released ones, up to where the furthest start came, and the recorded
      version is the last applied one. */
  lemma {:induction false} ExactlyOnce(all: seq<int>, launches: seq<Launch>)
    requires Released(all) && Launches(all, launches)
    ensures AtVersion(After(Schema([], None), all, launches), all, Furthest(launches))
    decreases |launches|
  {
    if launches != [] {
      var was, l := launches[..|launches| - 1], launches[|launches| - 1];
      var s := After(Schema([], None), all, was);
      ExactlyOnce(all, was);
      RanPrefix(s, Current(s), all, l.known, l.stop);
      RanReaches(s, all, Furthest(was), l.stop);
    }
  }

  /** Once a start has completed, later starts of that release or an older one change nothing. */
  lemma CompletedStartsAreFinal(all: seq<int>, launches: seq<Launch>, known: nat, next: Launch)
    requires Released(all) && Launches(all, launches + [Launch(known, known), next]) && next.known <= known
    ensures Launches(all, launches + [Launch(known, known)])
    ensures After(Schema([], None), all, launches + [Launch(known, known), next])
         == After(Schema([], None), all, launches + [Launch(known, known)])
  {
    var one := launches + [Launch(known, known)];
    var two := launches + [Launch(known, known), next];
    assert two[..|two| - 1] == one && two[|two| - 1] == next;
    assert one[..|one| - 1] == launches && one[|one| - 1] == Launch(known, known);
    assert Launches(all, one);
    ExactlyOnce(all, one);
    ExactlyOnce(all, two);
  }
}
