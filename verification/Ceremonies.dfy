/** The in-memory table of WebAuthn ceremonies, internal/webauthn/service.go:80-117. Times are in
    nanoseconds; every locked call reads the clock once. */
module Ceremonies {
  import opened Wrappers
  import opened Names

  type Id = string

  const MINUTE := 60_000_000_000
  const CEREMONY_TTL := MINUTE

  datatype Kind = Register | Login | AddKey

  /** What a begin call remembers; session is the library's challenge state. */
  datatype Ceremony = Ceremony(kind: Kind, username: Text, userId: Id, inviteHash: Text, session: string)

  datatype Entry = Entry(ceremony: Ceremony, expires: int)

  datatype Table = Table(live: map<Id, Entry>, lastGC: int)

  /** `gcLocked`. */
  function Collected(t: Table, now: int): Table {
    if now - t.lastGC < MINUTE then t
    else Table(map id | id in t.live && now <= t.live[id].expires :: t.live[id], now)
  }

  /** `put`, with the random id it draws. */
  function Put(t: Table, id: Id, c: Ceremony, now: int): Table {
    var d := Collected(t, now);
    d.(live := d.live[id := Entry(c, now + CEREMONY_TTL)])
  }

  /** `take`: whatever it answers, the entry is gone. */
  function Take(t: Table, id: Id, kind: Kind, now: int): (Table, Option<Ceremony>) {
    (t.(live := t.live - {id}),
     if id in t.live && t.live[id].ceremony.kind == kind && now <= t.live[id].expires
     then Some(t.live[id].ceremony) else None)
  }

  class CeremonyTable {
    var live: map<Id, Entry>
    var lastGC: int

    constructor (now: int)
      ensures Contents() == Table(map[], now)
    {
      live, lastGC := map[], now;
    }

    function Contents(): Table
      reads this
    {
      Table(live, lastGC)
    }

    method GcLocked(now: int)
      modifies this
      ensures Contents() == Collected(old(Contents()), now)
    {
      if now - lastGC < MINUTE {
        return;
      }
      var ids := live.Keys;
      while ids != {}
        invariant ids <= live.Keys
        invariant forall id :: id in live <==> id in old(live) && (id in ids || now <= old(live)[id].expires)
        invariant forall id :: id in live ==> live[id] == old(live)[id]
        decreases ids
      {
        var id :| id in ids;
        if now > live[id].expires {
          live := live - {id};
        }
        ids := ids - {id};
      }
      lastGC := now;
    }

    method Begin(id: Id, c: Ceremony, now: int)
      modifies this
      ensures Contents() == Put(old(Contents()), id, c, now)
    {
      GcLocked(now);
      live := live[id := Entry(c, now + CEREMONY_TTL)];
    }

    method Finish(id: Id, kind: Kind, now: int) returns (r: Option<Ceremony>)
      modifies this
      ensures (Contents(), r) == Take(old(Contents()), id, kind, now)
    {
      if id !in live || live[id].ceremony.kind != kind || now > live[id].expires {
        live := live - {id};
        return None;
      }
      r := Some(live[id].ceremony);
      live := live - {id};
    }
  }

  // ----- runs -----

  datatype Event =
    | Began(id: Id, ceremony: Ceremony, now: int)
    | Asked(id: Id, kind: Kind, now: int)
    | Restarted(now: int)

  function After(t0: int, events: seq<Event>): Table {
    if events == [] then Table(map[], t0)
    else
      var t := After(t0, events[..|events| - 1]);
      match events[|events| - 1]
      case Began(id, c, now) => Put(t, id, c, now)
      case Asked(id, kind, now) => Take(t, id, kind, now).0
      case Restarted(now) => Table(map[], now)
  }

  /** The event puts an end to the ceremony with this id, if there is one. */
  predicate Ends(e: Event, id: Id) {
    e.Restarted? || (e.Asked? && e.id == id)
  }

  function Clock(t0: int, events: seq<Event>): int {
    if events == [] then t0 else events[|events| - 1].now
  }

  /** A clock that does not go back, and ids that are drawn once. */
  ghost predicate Proper(t0: int, events: seq<Event>) {
    && (forall i :: 0 <= i < |events| ==> Clock(t0, events[..i]) <= events[i].now)
    && (forall i, j :: 0 <= i < j < |events| && events[i].Began? && events[j].Began? ==> events[i].id != events[j].id)
  }

  /** The history knows an open ceremony: begun at p, and since then nobody has asked for its id and
      the server was not restarted. */
  ghost predicate Open(events: seq<Event>, id: Id, p: int) {
    && 0 <= p < |events| && events[p].Began? && events[p].id == id
    && (forall j :: p < j < |events| ==> !Ends(events[j], id))
  }

  /** The table against the history, for one id. */
  ghost predicate Reflects(t: Table, clock: int, events: seq<Event>, id: Id) {
    && (forall p :: Open(events, id, p) ==>
          if id in t.live then t.live[id] == Entry(events[p].ceremony, events[p].now + CEREMONY_TTL)
          else clock > events[p].now + CEREMONY_TTL)
    && (id in t.live ==> exists p :: Open(events, id, p))
  }

  lemma ProperPrefix(t0: int, events: seq<Event>)
    requires events != [] && Proper(t0, events)
    ensures Proper(t0, events[..|events| - 1])
  {
    var n := |events| - 1;
    forall i | 0 <= i < n ensures Clock(t0, events[..n][..i]) <= events[..n][i].now { assert events[..n][..i] == events[..i]; }
  }

  /** How the open ceremonies of a run follow from those before its last event. */
  lemma OpenLast(events: seq<Event>, id: Id, p: int)
    requires events != []
    ensures var n := |events| - 1;
            Open(events, id, p) <==>
              || (p == n && events[n].Began? && events[n].id == id)
              || (Open(events[..n], id, p) && !Ends(events[n], id))
  {
  }

  lemma {:induction false} HistoryReflected(t0: int, events: seq<Event>, id: Id)
    requires Proper(t0, events)
    ensures Reflects(After(t0, events), Clock(t0, events), events, id)
    decreases |events|
  {
    if events != [] {
      var n := |events| - 1;
      var t, e := After(t0, events[..n]), events[n];
      ProperPrefix(t0, events);
      HistoryReflected(t0, events[..n], id);
      forall p ensures Open(events, id, p) <==>
                         || (p == n && e.Began? && e.id == id)
                         || (Open(events[..n], id, p) && !Ends(e, id)) {
        OpenLast(events, id, p);
      }
      if e.Began? && e.id == id {
        assert Open(events, id, n);
      } else if id in After(t0, events).live {
        var p :| Open(events[..n], id, p);
        assert Open(events, id, p);
      }
    }
  }

  /** Single use, and collection is invisible: `take` succeeds if and only if the id was put with
      that kind, has not passed its expiry, and since then nobody has asked for it and the server
      was not restarted; it returns the ceremony that was put. A wrong-kind attempt counts as
      asking. */
  lemma TakeExact(t0: int, events: seq<Event>, id: Id, kind: Kind, now: int)
    requires Proper(t0, events) && Clock(t0, events) <= now
    ensures var r := Take(After(t0, events), id, kind, now).1;
            && (r.Some? <==> exists p :: Open(events, id, p) && events[p].ceremony.kind == kind
                                      && now <= events[p].now + 60_000_000_000)
            && (r.Some? ==> exists p :: Open(events, id, p) && events[p].ceremony == r.value)
  {
    HistoryReflected(t0, events, id);
  }

  /** Kept entries are never older than the last collection allows. */
  ghost predicate Young(t: Table, clock: int) {
    t.lastGC <= clock && forall id :: id in t.live ==> t.lastGC <= t.live[id].expires
  }

  lemma {:induction false} RunsStayYoung(t0: int, events: seq<Event>)
    requires Proper(t0, events)
    ensures Young(After(t0, events), Clock(t0, events))
    decreases |events|
  {
    if events != [] {
      ProperPrefix(t0, events);
      RunsStayYoung(t0, events[..|events| - 1]);
    }
  }

  /** Abandoned ceremonies do not pile up: after a put every entry was put at most its lifetime
      and one minute ago. */
  lemma EntriesAreRecent(t0: int, events: seq<Event>, id: Id, c: Ceremony, now: int)
    requires Proper(t0, events) && Clock(t0, events) <= now
    ensures var t := Put(After(t0, events), id, c, now);
            && (forall k :: k in t.live ==> now - (t.live[k].expires - CEREMONY_TTL) <= 120_000_000_000)
            && now - t.lastGC < 60_000_000_000
  {
    RunsStayYoung(t0, events);
  }
}
