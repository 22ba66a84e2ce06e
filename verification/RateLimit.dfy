/** The fixed-window limiter of internal/httpapi/ratelimit.go. Times are in nanoseconds. */
module RateLimit {
  import opened Wrappers

  type Key = string

  const MINUTE := 60_000_000_000

  datatype Window = Window(count: nat, start: int)

  datatype Config = Config(limit: int, window: int, maxKeys: nat)

  datatype Table = Table(hits: map<Key, Window>, lastGC: int)

  predicate Expired(c: Config, w: Window, now: int) {
    now - w.start >= c.window
  }

  /** The windows that have not run out. */
  function Live(c: Config, hits: map<Key, Window>, now: int): map<Key, Window> {
    map k | k in hits && !Expired(c, hits[k], now) :: hits[k]
  }

  /** `gcLocked`. */
  function Collected(c: Config, t: Table, now: int): Table {
    if now - t.lastGC < MINUTE && |t.hits| < c.maxKeys / 2 then t else Table(Live(c, t.hits, now), now)
  }

  /** The decision on one call, once expired windows are collected. */
  function Decide(c: Config, t: Table, key: Key, now: int): (Table, bool) {
    if key !in t.hits || Expired(c, t.hits[key], now) then
      if key !in t.hits && |t.hits| >= c.maxKeys then (t, false)
      else (t.(hits := t.hits[key := Window(1, now)]), true)
    else
      var w := t.hits[key].(count := t.hits[key].count + 1);
      (t.(hits := t.hits[key := w]), w.count <= c.limit)
  }

  /** `allow`. */
  function Admit(c: Config, t: Table, key: Key, now: int): (Table, bool) {
    Decide(c, Collected(c, t, now), key, now)
  }

  /** The limiter as the handlers use it: every method is one locked call. */
  class RateLimiter {
    const config: Config
    var hits: map<Key, Window>
    var lastGC: int

    constructor (config: Config, now: int)
      ensures this.config == config && Contents() == Table(map[], now)
    {
      this.config := config;
      hits, lastGC := map[], now;
    }

    function Contents(): Table
      reads this
    {
      Table(hits, lastGC)
    }

    method GcLocked(now: int)
      modifies this
      ensures Contents() == Collected(config, old(Contents()), now)
    {
      if now - lastGC < MINUTE && |hits| < config.maxKeys / 2 {
        return;
      }
      var keys := hits.Keys;
      while keys != {}
        invariant keys <= hits.Keys
        invariant forall k :: k in hits <==> k in old(hits) && (k in keys || !Expired(config, old(hits)[k], now))
        invariant forall k :: k in hits ==> hits[k] == old(hits)[k]
        decreases keys
      {
        var k :| k in keys;
        if now - hits[k].start >= config.window {
          hits := hits - {k};
        }
        keys := keys - {k};
      }
      lastGC := now;
    }

    method Allow(key: Key, now: int) returns (ok: bool)
      modifies this
      ensures (Contents(), ok) == Admit(config, old(Contents()), key, now)
    {
      GcLocked(now);
      if key !in hits || now - hits[key].start >= config.window {
        if key !in hits && |hits| >= config.maxKeys {
          return false;
        }
        hits := hits[key := Window(1, now)];
        return true;
      }
      hits := hits[key := hits[key].(count := hits[key].count + 1)];
      return hits[key].count <= config.limit;
    }
  }

  // ----- runs -----

  datatype Call = Call(key: Key, now: int)

  /** The time of the last call, or of the limiter's creation. */
  function Clock(t0: int, calls: seq<Call>): int {
    if calls == [] then t0 else calls[|calls| - 1].now
  }

  /** Calls on a clock that does not go back. */
  ghost predicate Timely(t0: int, calls: seq<Call>) {
    forall i :: 0 <= i < |calls| ==> Clock(t0, calls[..i]) <= calls[i].now
  }

  lemma TimelyPrefix(t0: int, calls: seq<Call>)
    requires calls != [] && Timely(t0, calls)
    ensures Timely(t0, calls[..|calls| - 1]) && Clock(t0, calls[..|calls| - 1]) <= calls[|calls| - 1].now
  {
    var n := |calls| - 1;
    forall i | 0 <= i < n ensures calls[..n][..i] == calls[..i] { }
  }

  ghost function After(c: Config, t0: int, calls: seq<Call>): Table {
    if calls == [] then Table(map[], t0)
    else
      var n := |calls| - 1;
      Admit(c, After(c, t0, calls[..n]), calls[n].key, calls[n].now).0
  }

  /** The reply to the last call of a run. */
  ghost function LastReply(c: Config, t0: int, calls: seq<Call>): bool
    requires calls != []
  {
    var n := |calls| - 1;
    Admit(c, After(c, t0, calls[..n]), calls[n].key, calls[n].now).1
  }

  /** How many calls for the key were let through in the half-open interval from a to b. */
  ghost function Granted(c: Config, t0: int, calls: seq<Call>, key: Key, a: int, b: int): nat {
    if calls == [] then 0
    else
      var n := |calls| - 1;
      Granted(c, t0, calls[..n], key, a, b)
      + (if calls[n].key == key && a <= calls[n].now < b && LastReply(c, t0, calls) then 1 else 0)
  }

  // ----- the rate bound -----

  /** Call number i is one that Granted counts. */
  ghost predicate Counted(c: Config, t0: int, calls: seq<Call>, key: Key, a: int, b: int, i: int)
    requires 0 <= i < |calls|
  {
    calls[i].key == key && a <= calls[i].now < b && LastReply(c, t0, calls[..i + 1])
  }

  ghost function CountedCalls(c: Config, t0: int, calls: seq<Call>, key: Key, a: int, b: int): set<int> {
    set i | 0 <= i < |calls| && Counted(c, t0, calls, key, a, b, i)
  }

  lemma CountedBefore(c: Config, t0: int, calls: seq<Call>, key: Key, a: int, b: int, i: int)
    requires 0 <= i < |calls| - 1
    ensures Counted(c, t0, calls[..|calls| - 1], key, a, b, i) <==> Counted(c, t0, calls, key, a, b, i)
  {
    assert calls[..|calls| - 1][..i + 1] == calls[..i + 1];
  }

  lemma CountedLast(c: Config, t0: int, calls: seq<Call>, key: Key, a: int, b: int)
    requires calls != []
    ensures var n := |calls| - 1;
            CountedCalls(c, t0, calls, key, a, b)
            == CountedCalls(c, t0, calls[..n], key, a, b) + if Counted(c, t0, calls, key, a, b, n) then {n} else {}
  {
    forall i | 0 <= i < |calls| - 1
      ensures Counted(c, t0, calls[..|calls| - 1], key, a, b, i) <==> Counted(c, t0, calls, key, a, b, i)
    {
      CountedBefore(c, t0, calls, key, a, b, i);
    }
  }

  lemma {:induction false} GrantedCounts(c: Config, t0: int, calls: seq<Call>, key: Key, a: int, b: int)
    ensures Granted(c, t0, calls, key, a, b) == |CountedCalls(c, t0, calls, key, a, b)|
    decreases |calls|
  {
    if calls != [] {
      GrantedCounts(c, t0, calls[..|calls| - 1], key, a, b);
      CountedLast(c, t0, calls, key, a, b);
      assert calls[..|calls|] == calls;
    }
  }

  /** The first call of a window is let through even under a limit of zero. */
  function Cap(c: Config): nat {
    if c.limit < 1 then 1 else c.limit
  }

  function Least(a: int, b: int): int {
    if a <= b then a else b
  }

  /** What the calls so far allow: last is the key's last window, collected or not, and m full
      windows fit between a and its start. */
  ghost predicate Tracks(c: Config, t: Table, clock: int, key: Key, a: int, g: nat, last: Option<Window>, m: nat) {
    && (key in t.hits ==> last == Some(t.hits[key]))
    && (last.Some? ==> last.value.start <= clock && 1 <= last.value.count)
    && (last.Some? && key !in t.hits ==> Expired(c, last.value, clock))
    && (last.None? ==> g == 0)
    && (clock < a ==> g == 0)
    && (last.Some? && last.value.start < a ==> g <= Least(last.value.count, Cap(c)))
    && (last.Some? && a <= last.value.start ==>
          a + m * c.window <= last.value.start && g <= (m + 1) * Cap(c) + Least(last.value.count, Cap(c)))
  }

  lemma CollectTracks(c: Config, t: Table, clock: int, now: int, key: Key, a: int, g: nat, last: Option<Window>, m: nat)
    requires Tracks(c, t, clock, key, a, g, last, m) && clock <= now
    ensures Tracks(c, Collected(c, t, now), now, key, a, g, last, m)
  {
  }

  /** A call for the key opens a window, or counts in the one it has. */
  lemma CallTracks(c: Config, t: Table, now: int, key: Key, a: int, b: int, g: nat, last: Option<Window>, m: nat)
    returns (last': Option<Window>, m': nat)
    requires c.window >= 1 && Tracks(c, t, now, key, a, g, last, m)
    ensures var (t', ok) := Decide(c, t, key, now);
            Tracks(c, t', now, key, a, g + if a <= now < b && ok then 1 else 0, last', m')
  {
    var (t', ok) := Decide(c, t, key, now);
    last', m' := last, m;
    if key in t.hits && !Expired(c, t.hits[key], now) {
      last' := Some(t'.hits[key]);
    } else if key in t'.hits {
      last' := Some(Window(1, now));
      if last.Some? && a <= last.value.start {
        m' := m + 1;
        assert m' * c.window == m * c.window + c.window;
        assert (m' + 1) * Cap(c) == (m + 1) * Cap(c) + Cap(c);
      } else {
        m' := 0;
      }
    }
  }

  lemma OtherCallTracks(c: Config, t: Table, now: int, other: Key, key: Key, a: int, g: nat, last: Option<Window>, m: nat)
    requires Tracks(c, t, now, key, a, g, last, m) && other != key
    ensures Tracks(c, Decide(c, t, other, now).0, now, key, a, g, last, m)
  {
  }

  lemma {:induction false} RunTracks(c: Config, t0: int, calls: seq<Call>, key: Key, a: int, b: int)
    returns (last: Option<Window>, m: nat)
    requires c.window >= 1 && Timely(t0, calls)
    ensures Tracks(c, After(c, t0, calls), Clock(t0, calls), key, a, Granted(c, t0, calls, key, a, b), last, m)
    decreases |calls|
  {
    if calls == [] {
      last, m := None, 0;
    } else {
      var n := |calls| - 1;
      var q, t := calls[n], After(c, t0, calls[..n]);
      TimelyPrefix(t0, calls);
      last, m := RunTracks(c, t0, calls[..n], key, a, b);
      CollectTracks(c, t, Clock(t0, calls[..n]), q.now, key, a, Granted(c, t0, calls[..n], key, a, b), last, m);
      if q.key == key {
        last, m := CallTracks(c, Collected(c, t, q.now), q.now, key, a, b, Granted(c, t0, calls[..n], key, a, b), last, m);
      } else {
        OtherCallTracks(c, Collected(c, t, q.now), q.now, q.key, key, a, Granted(c, t0, calls[..n], key, a, b), last, m);
      }
    }
  }

  lemma {:induction false} MulMonotone(x: int, y: int, z: nat)
    requires x <= y
    ensures x * z <= y * z
  {
    if z > 0 {
      MulMonotone(x, y, z - 1);
      assert x * z == x * (z - 1) + x && y * z == y * (z - 1) + y;
    }
  }

  /** What the tracked windows amount to when the clock is still in the interval. */
  lemma TracksBound(c: Config, t: Table, clock: int, key: Key, a: int, g: nat, last: Option<Window>, m: nat, k: nat)
    requires c.window >= 1 && Tracks(c, t, clock, key, a, g, last, m) && clock < a + k * c.window
    ensures g <= (k + 1) * Cap(c)
  {
    assert (k + 1) * Cap(c) == k * Cap(c) + Cap(c);
    MulMonotone(0, k, Cap(c));
    if last.Some? && a <= last.value.start {
      if k <= m {
        MulMonotone(k, m, c.window);
        assert false;
      }
      MulMonotone(m + 1, k, Cap(c));
    }
  }

  /** The rate bound: in any half-open interval of k window lengths, at most (k + 1) times the
      limit calls for one key are let through, whatever else the limiter is asked. */
  lemma {:induction false} RateBound(c: Config, t0: int, calls: seq<Call>, key: Key, a: int, b: int, k: nat)
    requires Timely(t0, calls) && b == a + k * c.window
    ensures Granted(c, t0, calls, key, a, b) <= (k + 1) * Cap(c)
    decreases |calls|
  {
    if calls == [] || b <= a {
      MulMonotone(0, k + 1, Cap(c));
      NothingGranted(c, t0, calls, key, a, b);
    } else if c.window < 1 {
      MulMonotone(c.window, 0, k);
      assert false;
    } else if calls[|calls| - 1].now >= b {
      var n := |calls| - 1;
      TimelyPrefix(t0, calls);
      RateBound(c, t0, calls[..n], key, a, b, k);
    } else {
      var last, m := RunTracks(c, t0, calls, key, a, b);
      TracksBound(c, After(c, t0, calls), Clock(t0, calls), key, a, Granted(c, t0, calls, key, a, b), last, m, k);
    }
  }

  lemma {:induction false} NothingGranted(c: Config, t0: int, calls: seq<Call>, key: Key, a: int, b: int)
    requires calls == [] || b <= a
    ensures Granted(c, t0, calls, key, a, b) == 0
    decreases |calls|
  {
    if calls != [] {
      NothingGranted(c, t0, calls[..|calls| - 1], key, a, b);
    }
  }

  /** Collection is due once a minute and whenever the table is half full; it then takes every
      expired window, and otherwise none goes. */
  lemma CollectsWhenDue(c: Config, t: Table, key: Key, now: int, other: Key)
    requires other != key
    ensures var due := now - t.lastGC >= 60_000_000_000 || 2 * (|t.hits| + 1) > c.maxKeys;
            other in Admit(c, t, key, now).0.hits <==> other in t.hits && (due ==> now - t.hits[other].start < c.window)
    ensures other in Admit(c, t, key, now).0.hits ==> Admit(c, t, key, now).0.hits[other] == t.hits[other]
    ensures var due := now - t.lastGC >= 60_000_000_000 || 2 * (|t.hits| + 1) > c.maxKeys;
            Admit(c, t, key, now).0.lastGC == if due then now else t.lastGC
  {
  }

  // ----- slow clients -----

  /** How many calls for the key came after time a. */
  ghost function Asked(calls: seq<Call>, key: Key, a: int): nat {
    if calls == [] then 0
    else
      var n := |calls| - 1;
      Asked(calls[..n], key, a) + if calls[n].key == key && calls[n].now > a then 1 else 0
  }

  ghost function AskedCalls(calls: seq<Call>, key: Key, a: int): set<int> {
    set i | 0 <= i < |calls| && calls[i].key == key && calls[i].now > a
  }

  lemma AskedLast(calls: seq<Call>, key: Key, a: int)
    requires calls != []
    ensures var n := |calls| - 1;
            AskedCalls(calls, key, a) == AskedCalls(calls[..n], key, a) + if calls[n].key == key && calls[n].now > a then {n} else {}
  {
  }

  lemma {:induction false} AskedCounts(calls: seq<Call>, key: Key, a: int)
    ensures Asked(calls, key, a) == |AskedCalls(calls, key, a)|
    decreases |calls|
  {
    if calls != [] {
      AskedCounts(calls[..|calls| - 1], key, a);
      AskedLast(calls, key, a);
    }
  }

  /** A window that began after a holds only calls that came after a. */
  ghost predicate CountsAsked(t: Table, clock: int, calls: seq<Call>, key: Key, a: int) {
    key in t.hits ==> t.hits[key].start <= clock && (t.hits[key].start > a ==> t.hits[key].count <= Asked(calls, key, a))
  }

  lemma {:induction false} RunCountsAsked(c: Config, t0: int, calls: seq<Call>, key: Key, a: int)
    requires Timely(t0, calls)
    ensures CountsAsked(After(c, t0, calls), Clock(t0, calls), calls, key, a)
    decreases |calls|
  {
    if calls != [] {
      var n := |calls| - 1;
      TimelyPrefix(t0, calls);
      RunCountsAsked(c, t0, calls[..n], key, a);
    }
  }

  /** Nobody is refused for asking seldom: a key that asked less often than the limit within the
      last window length is let through, unless the cap refuses it. */
  lemma SlowClientsPass(c: Config, t0: int, calls: seq<Call>, key: Key, now: int)
    requires Timely(t0, calls) && Clock(t0, calls) <= now && !Refused(c, After(c, t0, calls), key, now)
    requires Asked(calls, key, now - c.window) < c.limit
    ensures Admit(c, After(c, t0, calls), key, now).1
  {
    RunCountsAsked(c, t0, calls, key, now - c.window);
  }

  // ----- the cap -----

  /** A call refused because the table is full. */
  predicate Refused(c: Config, t: Table, key: Key, now: int) {
    key !in Collected(c, t, now).hits && |Collected(c, t, now).hits| >= c.maxKeys
  }

  lemma LiveIsFewer(c: Config, hits: map<Key, Window>, now: int)
    ensures |Live(c, hits, now)| <= |hits|
  {
    var live := Live(c, hits, now);
    assert live.Keys <= hits.Keys;
    SubsetSize(live.Keys, hits.Keys);
    assert |live| == |live.Keys| && |hits| == |hits.Keys|;
  }

  lemma {:induction false} SubsetSize<T>(a: set<T>, b: set<T>)
    requires a <= b
    ensures |a| <= |b|
  {
    if a != {} {
      var x :| x in a;
      SubsetSize(a - {x}, b - {x});
    }
  }

  /** The cap refuses exactly the keys without an unexpired window while maxKeys of these are
      tracked. */
  lemma RefusedExactly(c: Config, t: Table, key: Key, now: int)
    ensures Refused(c, t, key, now) <==> key !in Live(c, t.hits, now) && |Live(c, t.hits, now)| >= c.maxKeys
    ensures Refused(c, t, key, now) ==> !Admit(c, t, key, now).1 && Admit(c, t, key, now).0.hits == Live(c, t.hits, now)
  {
    LiveIsFewer(c, t.hits, now);
  }

  /** The table never holds more than maxKeys windows. */
  lemma {:induction false} TableBounded(c: Config, t0: int, calls: seq<Call>)
    ensures |After(c, t0, calls).hits| <= c.maxKeys
    decreases |calls|
  {
    if calls != [] {
      var n := |calls| - 1;
      var t, q := After(c, t0, calls[..n]), calls[n];
      TableBounded(c, t0, calls[..n]);
      LiveIsFewer(c, t.hits, q.now);
      var d := Collected(c, t, q.now);
      assert |d.hits| <= c.maxKeys;
      if q.key in d.hits {
        assert d.hits[q.key := Window(1, q.now)].Keys == d.hits.Keys;
        assert After(c, t0, calls).hits.Keys == d.hits.Keys;
        assert |After(c, t0, calls).hits| == |After(c, t0, calls).hits.Keys| == |d.hits.Keys| == |d.hits|;
      }
    }
  }

  // ----- the limiter refines one that never collects and has no cap -----

  /** The simple limiter: one window per key, kept for ever. */
  function Simple(c: Config, hits: map<Key, Window>, key: Key, now: int): (map<Key, Window>, bool) {
    if key !in hits || Expired(c, hits[key], now) then (hits[key := Window(1, now)], true)
    else
      var w := hits[key].(count := hits[key].count + 1);
      (hits[key := w], w.count <= c.limit)
  }

  ghost function SimpleAfter(c: Config, calls: seq<Call>): map<Key, Window> {
    if calls == [] then map[]
    else
      var n := |calls| - 1;
      Simple(c, SimpleAfter(c, calls[..n]), calls[n].key, calls[n].now).0
  }

  /** The two tables agree, but for expired windows that were collected. */
  ghost predicate Agree(c: Config, t: Table, hits: map<Key, Window>, clock: int) {
    && (forall k :: k in t.hits ==> k in hits && hits[k] == t.hits[k])
    && (forall k :: k in hits && k !in t.hits ==> Expired(c, hits[k], clock))
  }

  lemma AgreeStep(c: Config, t: Table, hits: map<Key, Window>, clock: int, key: Key, now: int)
    requires Agree(c, t, hits, clock) && clock <= now && !Refused(c, t, key, now)
    ensures Admit(c, t, key, now).1 == Simple(c, hits, key, now).1
    ensures Agree(c, Admit(c, t, key, now).0, Simple(c, hits, key, now).0, now)
  {
    assert Agree(c, Collected(c, t, now), hits, now);
  }

  /** No call of the run is refused by the cap. */
  ghost predicate NeverFull(c: Config, t0: int, calls: seq<Call>) {
    forall i :: 0 <= i < |calls| ==> !Refused(c, After(c, t0, calls[..i]), calls[i].key, calls[i].now)
  }

  lemma {:induction false} RunsAgree(c: Config, t0: int, calls: seq<Call>)
    requires Timely(t0, calls) && NeverFull(c, t0, calls)
    ensures Agree(c, After(c, t0, calls), SimpleAfter(c, calls), Clock(t0, calls))
    decreases |calls|
  {
    if calls != [] {
      var n := |calls| - 1;
      PrefixRun(c, t0, calls);
      RunsAgree(c, t0, calls[..n]);
      AgreeStep(c, After(c, t0, calls[..n]), SimpleAfter(c, calls[..n]), Clock(t0, calls[..n]), calls[n].key, calls[n].now);
    }
  }

  lemma PrefixRun(c: Config, t0: int, calls: seq<Call>)
    requires calls != [] && Timely(t0, calls) && NeverFull(c, t0, calls)
    ensures Timely(t0, calls[..|calls| - 1]) && NeverFull(c, t0, calls[..|calls| - 1])
  {
    var n := |calls| - 1;
    forall i | 0 <= i < n ensures calls[..n][..i] == calls[..i] { }
  }

  /** Refinement: while the cap refuses nobody, every reply is the simple limiter's. */
  lemma RefinesSimple(c: Config, t0: int, calls: seq<Call>)
    requires calls != [] && Timely(t0, calls) && NeverFull(c, t0, calls)
    ensures var n := |calls| - 1;
            LastReply(c, t0, calls) == Simple(c, SimpleAfter(c, calls[..n]), calls[n].key, calls[n].now).1
  {
    var n := |calls| - 1;
    PrefixRun(c, t0, calls);
    RunsAgree(c, t0, calls[..n]);
    AgreeStep(c, After(c, t0, calls[..n]), SimpleAfter(c, calls[..n]), Clock(t0, calls[..n]), calls[n].key, calls[n].now);
  }
}
