/** Sliding sessions: internal/store/sessions.go behind `auth`, `issueSession` and `handleLogout`.
    Times are in seconds; a request looks its session up and touches it at one reading of the
    clock. The user may not be found, and a touch may fail, which `auth` ignores. */
module Sessions {
  import opened Wrappers

  type Id = string

  datatype Session = Session(user: Id, created: int, expires: int, lastSeen: int)

  type Table = map<Id, Session>

  /** CreateSession, as issueSession calls it. */
  function Issue(t: Table, id: Id, user: Id, ttl: int, now: int): Table {
    if id in t then t else t[id := Session(user, now, now + ttl, now)]
  }

  /** SessionByID. */
  function Lookup(t: Table, id: Id, now: int): Option<Session> {
    if id in t && t[id].expires > now then Some(t[id]) else None
  }

  /** TouchSession. */
  function Touch(t: Table, id: Id, ttl: int, now: int): Table {
    if id in t then t[id := t[id].(lastSeen := now, expires := now + ttl)] else t
  }

  /** `auth`: check, find the user, then slide the expiry if the statement succeeds. */
  function Authenticate(t: Table, id: Id, ttl: int, now: int, found: bool, touched: bool): (Table, bool) {
    if Lookup(t, id, now).None? || !found then (t, false)
    else (if touched then Touch(t, id, ttl, now) else t, true)
  }

  /** `handleLogout` behind `auth`: deleted tells whether its statement succeeds. */
  function Logout(t: Table, id: Id, ttl: int, now: int, found: bool, touched: bool, deleted: bool): Table {
    var (u, ok) := Authenticate(t, id, ttl, now, found, touched);
    if ok && deleted then u - {id} else u
  }

  /** DeleteExpiredSessions. */
  function Cleanup(t: Table, now: int): Table {
    map id | id in t && t[id].expires > now :: t[id]
  }

  class SessionStore {
    var sessions: Table
    const ttl: int

    constructor (ttl: int)
      ensures this.ttl == ttl && sessions == map[]
    {
      this.ttl := ttl;
      sessions := map[];
    }

    method IssueSession(id: Id, user: Id, now: int) returns (ok: bool)
      modifies this
      ensures sessions == Issue(old(sessions), id, user, ttl, now) && ok == (id !in old(sessions))
    {
      if id in sessions {
        return false;
      }
      sessions := sessions[id := Session(user, now, now + ttl, now)];
      return true;
    }

    method Auth(id: Id, now: int, found: bool, touched: bool) returns (ok: bool)
      modifies this
      ensures (sessions, ok) == Authenticate(old(sessions), id, ttl, now, found, touched)
    {
      if id !in sessions || sessions[id].expires <= now {
        return false;
      }
      if !found {
        return false;
      }
      if touched {
        sessions := sessions[id := sessions[id].(lastSeen := now, expires := now + ttl)];
      }
      return true;
    }

    method HandleLogout(id: Id, now: int, found: bool, touched: bool, deleted: bool)
      modifies this
      ensures sessions == Logout(old(sessions), id, ttl, now, found, touched, deleted)
    {
      var ok := Auth(id, now, found, touched);
      if ok && deleted {
        sessions := sessions - {id};
      }
    }

    method DeleteExpired(now: int) returns (n: nat)
      modifies this
      ensures sessions == Cleanup(old(sessions), now) && sessions.Keys <= old(sessions).Keys
      ensures n == |old(sessions).Keys - sessions.Keys|
    {
      var was := sessions.Keys;
      sessions := map id | id in sessions && sessions[id].expires > now :: sessions[id];
      n := |was - sessions.Keys|;
    }
  }

  // ----- runs -----

  datatype Event =
    | Issued(id: Id, user: Id, now: int)
    | Used(id: Id, now: int, found: bool, touched: bool)
    | LoggedOut(id: Id, now: int, found: bool, touched: bool, deleted: bool)
    | Cleaned(now: int)

  function After(events: seq<Event>, ttl: int): Table {
    if events == [] then map[]
    else
      var t := After(events[..|events| - 1], ttl);
      match events[|events| - 1]
      case Issued(id, user, now) => Issue(t, id, user, ttl, now)
      case Used(id, now, found, touched) => Authenticate(t, id, ttl, now, found, touched).0
      case LoggedOut(id, now, found, touched, deleted) => Logout(t, id, ttl, now, found, touched, deleted)
      case Cleaned(now) => Cleanup(t, now)
  }

  /** The session that an event is about. */
  predicate About(e: Event, id: Id) {
    match e
    case Issued(i, _, _) => i == id
    case Used(i, _, _, _) => i == id
    case LoggedOut(i, _, _, _, _) => i == id
    case Cleaned(_) => false
  }

  /** A clock that does not go back, and ids that nobody names before they are issued, once. */
  ghost predicate Proper(events: seq<Event>) {
    && (forall i, j :: 0 <= i < j < |events| ==> events[i].now <= events[j].now)
    && (forall i, j :: 0 <= i < j < |events| && events[j].Issued? ==> !About(events[i], events[j].id))
  }

  /** The event leaves the session with a fresh expiry, if it is live. */
  predicate Slides(e: Event) {
    match e
    case Issued(_, _, _) => true
    case Used(_, _, found, touched) => found && touched
    case LoggedOut(_, _, found, touched, deleted) => found && touched && !deleted
    case Cleaned(_) => false
  }

  /** A logout that got through. */
  predicate Ends(e: Event) {
    e.LoggedOut? && e.found && e.deleted
  }

  /** The times at which the session was issued or touched. */
  function Times(events: seq<Event>, id: Id): seq<int> {
    if events == [] then []
    else
      var e := events[|events| - 1];
      Times(events[..|events| - 1], id) + if About(e, id) && Slides(e) then [e.now] else []
  }

  ghost predicate IssuedIn(events: seq<Event>, id: Id) {
    exists i :: 0 <= i < |events| && events[i].Issued? && events[i].id == id
  }

  ghost predicate LoggedOutIn(events: seq<Event>, id: Id) {
    exists i :: 0 <= i < |events| && Ends(events[i]) && events[i].id == id
  }

  /** All gaps are strictly shorter than the lifetime. */
  ghost predicate ShortGaps(times: seq<int>, ttl: int) {
    forall j :: 0 <= j < |times| - 1 ==> times[j + 1] - times[j] < ttl
  }

  /** The history's verdict: issued, not logged out, and never idle for the lifetime or longer. */
  ghost predicate Alive(events: seq<Event>, id: Id, ttl: int) {
    IssuedIn(events, id) && !LoggedOutIn(events, id) && ShortGaps(Times(events, id), ttl)
  }

  function Clock(events: seq<Event>, t0: int): int {
    if events == [] then t0 else events[|events| - 1].now
  }

  /** The table against the history: an alive session expires a lifetime after its last use and
      may only be gone once it has; any other session is gone or has expired. */
  ghost predicate Reflects(t: Table, clock: int, events: seq<Event>, id: Id, ttl: int) {
    var times := Times(events, id);
    if Alive(events, id, ttl) then
      && times != []
      && (if id in t then t[id].expires == times[|times| - 1] + ttl else times[|times| - 1] + ttl <= clock)
    else
      id in t ==> t[id].expires <= clock
  }

  lemma ProperPrefix(events: seq<Event>)
    requires events != [] && Proper(events)
    ensures Proper(events[..|events| - 1])
  {
  }

  lemma NotNamedYet(events: seq<Event>, id: Id)
    requires forall i :: 0 <= i < |events| ==> !About(events[i], id)
    ensures Times(events, id) == [] && !IssuedIn(events, id) && !LoggedOutIn(events, id)
  {
    if events != [] {
      NotNamedYet(events[..|events| - 1], id);
    }
  }

  /** The history's facts after one more event. */
  lemma HistoryGrows(events: seq<Event>, id: Id)
    requires events != []
    ensures var (was, e) := (events[..|events| - 1], events[|events| - 1]);
            && (IssuedIn(events, id) <==> IssuedIn(was, id) || (e.Issued? && e.id == id))
            && (LoggedOutIn(events, id) <==> LoggedOutIn(was, id) || (Ends(e) && e.id == id))
  {
    var was, e := events[..|events| - 1], events[|events| - 1];
    assert events[|was|] == e;
    if IssuedIn(was, id) {
      var i :| 0 <= i < |was| && was[i].Issued? && was[i].id == id;
      assert events[i].Issued? && events[i].id == id;
    }
    if LoggedOutIn(was, id) {
      var i :| 0 <= i < |was| && Ends(was[i]) && was[i].id == id;
      assert Ends(events[i]) && events[i].id == id;
    }
  }

  lemma GapsGrow(times: seq<int>, now: int, ttl: int)
    ensures ShortGaps(times + [now], ttl) <==> ShortGaps(times, ttl) && (times != [] ==> now - times[|times| - 1] < ttl)
  {
    var more := times + [now];
    assert forall j :: 0 <= j < |times| ==> more[j] == times[j];
    if ShortGaps(more, ttl) && times != [] {
      assert more[|times| - 1 + 1] - more[|times| - 1] < ttl;
    }
  }

  /** An event about another session, or a cleanup. */
  lemma OtherReflected(events: seq<Event>, id: Id, ttl: int, clock: int)
    requires events != [] && clock <= events[|events| - 1].now && !About(events[|events| - 1], id)
    requires Reflects(After(events[..|events| - 1], ttl), clock, events[..|events| - 1], id, ttl)
    ensures Reflects(After(events, ttl), events[|events| - 1].now, events, id, ttl)
  {
    HistoryGrows(events, id);
    assert Times(events, id) == Times(events[..|events| - 1], id);
  }

  lemma IssueReflected(events: seq<Event>, id: Id, ttl: int)
    requires events != [] && Proper(events) && events[|events| - 1].Issued? && events[|events| - 1].id == id
    ensures Reflects(After(events, ttl), events[|events| - 1].now, events, id, ttl)
  {
    HistoryGrows(events, id);
    NotNamedYet(events[..|events| - 1], id);
    NeverInTable(events[..|events| - 1], id, ttl);
    assert Times(events, id) == [events[|events| - 1].now];
  }

  /** A request whose touch succeeds. */
  lemma SlideReflected(events: seq<Event>, id: Id, ttl: int, clock: int)
    requires events != [] && clock <= events[|events| - 1].now
    requires About(events[|events| - 1], id) && !events[|events| - 1].Issued? && Slides(events[|events| - 1])
    requires Reflects(After(events[..|events| - 1], ttl), clock, events[..|events| - 1], id, ttl)
    ensures Reflects(After(events, ttl), events[|events| - 1].now, events, id, ttl)
  {
    var times, now := Times(events[..|events| - 1], id), events[|events| - 1].now;
    HistoryGrows(events, id);
    GapsGrow(times, now, ttl);
    assert Times(events, id) == times + [now] && (times + [now])[|times|] == now;
  }

  /** A request whose touch fails, or that is refused, and a logout that gets through. */
  lemma NoSlideReflected(events: seq<Event>, id: Id, ttl: int, clock: int)
    requires events != [] && clock <= events[|events| - 1].now
    requires About(events[|events| - 1], id) && !events[|events| - 1].Issued? && !Slides(events[|events| - 1])
    requires Reflects(After(events[..|events| - 1], ttl), clock, events[..|events| - 1], id, ttl)
    ensures Reflects(After(events, ttl), events[|events| - 1].now, events, id, ttl)
  {
    HistoryGrows(events, id);
    assert Times(events, id) == Times(events[..|events| - 1], id);
  }

  lemma {:induction false} NeverInTable(events: seq<Event>, id: Id, ttl: int)
    requires forall i :: 0 <= i < |events| ==> !About(events[i], id)
    ensures id !in After(events, ttl)
    decreases |events|
  {
    if events != [] {
      NeverInTable(events[..|events| - 1], id, ttl);
    }
  }

  lemma {:induction false} HistoryReflected(events: seq<Event>, id: Id, ttl: int, t0: int)
    requires Proper(events) && (events != [] ==> t0 <= events[0].now)
    ensures Reflects(After(events, ttl), Clock(events, t0), events, id, ttl)
    decreases |events|
  {
    if events == [] {
      assert !IssuedIn(events, id);
    } else {
      ProperPrefix(events);
      HistoryReflected(events[..|events| - 1], id, ttl, t0);
      var e, clock := events[|events| - 1], Clock(events[..|events| - 1], t0);
      if !About(e, id) {
        OtherReflected(events, id, ttl, clock);
      } else if e.Issued? {
        IssueReflected(events, id, ttl);
      } else if Slides(e) {
        SlideReflected(events, id, ttl, clock);
      } else {
        NoSlideReflected(events, id, ttl, clock);
      }
    }
  }

  /** The session was issued, was not logged out, and every gap since between touches, up to now
      included, is strictly shorter than the lifetime. */
  ghost predicate InUse(events: seq<Event>, id: Id, ttl: int, now: int) {
    var times := Times(events, id);
    Alive(events, id, ttl) && times != [] && now - times[|times| - 1] < ttl
  }

  /** A request is authenticated if and only if its user is found and its session was issued, was
      not logged out, and every gap between the moments it was touched, up to this one, is
      strictly shorter than the lifetime. */
  lemma AuthenticatedExactly(events: seq<Event>, id: Id, ttl: int, now: int, found: bool, touched: bool)
    requires Proper(events) && (events != [] ==> events[|events| - 1].now <= now)
    ensures Authenticate(After(events, ttl), id, ttl, now, found, touched).1
       <==> found && InUse(events, id, ttl, now)
  {
    HistoryReflected(events, id, ttl, if events == [] then now else events[0].now);
  }

  /** The session is the one that was issued, with that user and time, and expires a lifetime after
      it was last seen. */
  ghost predicate IsAsIssued(events: seq<Event>, id: Id, session: Session, ttl: int) {
    && session.expires == session.lastSeen + ttl
    && exists i :: 0 <= i < |events| && events[i] == Issued(id, session.user, session.created)
  }

  lemma {:induction false} SessionsAsIssued(events: seq<Event>, id: Id, ttl: int)
    requires Proper(events)
    ensures id in After(events, ttl) ==> IsAsIssued(events, id, After(events, ttl)[id], ttl)
    decreases |events|
  {
    if events != [] {
      var n := |events| - 1;
      var was, e, t := After(events[..n], ttl), events[n], After(events, ttl);
      ProperPrefix(events);
      SessionsAsIssued(events[..n], id, ttl);
      if id in t && id in was {
        var i :| 0 <= i < n && events[..n][i] == Issued(id, was[id].user, was[id].created);
        assert events[i] == Issued(id, was[id].user, was[id].created);
      } else if id in t {
        assert e == Issued(id, t[id].user, t[id].created);
      }
    }
  }

  /** Whom a request is let in as: a session that is found has the user and the creation time that
      were issued under its id, and was last seen at its last touch. */
  lemma FoundAsIssued(events: seq<Event>, id: Id, ttl: int, now: int)
    requires Proper(events) && (events != [] ==> events[|events| - 1].now <= now)
    ensures var r := Lookup(After(events, ttl), id, now);
            r.Some? ==>
              && (exists i :: 0 <= i < |events| && events[i] == Issued(id, r.value.user, r.value.created))
              && Times(events, id) != [] && r.value.lastSeen == Times(events, id)[|Times(events, id)| - 1]
              && r.value.expires == r.value.lastSeen + ttl
  {
    SessionsAsIssued(events, id, ttl);
    HistoryReflected(events, id, ttl, if events == [] then now else events[0].now);
  }

  /** The cleanup keeps exactly the sessions that a lookup would find. */
  lemma CleanupExactly(t: Table, now: int, id: Id)
    ensures id in Cleanup(t, now) <==> Lookup(t, id, now).Some?
    ensures id in Cleanup(t, now) ==> Cleanup(t, now)[id] == t[id]
  {
  }

  /** The run without its cleanups. */
  function WithoutCleanups(events: seq<Event>): seq<Event> {
    if events == [] then []
    else
      var e := events[|events| - 1];
      WithoutCleanups(events[..|events| - 1]) + if e.Cleaned? then [] else [e]
  }

  lemma {:induction false} WithoutAreEvents(events: seq<Event>)
    ensures forall e :: e in WithoutCleanups(events) ==> e in events
    decreases |events|
  {
    if events != [] {
      WithoutAreEvents(events[..|events| - 1]);
      assert forall e :: e in events[..|events| - 1] ==> e in events;
    }
  }

  /** The last event comes no earlier than the others, and issues no id that they name. */
  lemma LastFits(events: seq<Event>, e: Event)
    requires events != [] && Proper(events) && e in events[..|events| - 1]
    ensures e.now <= events[|events| - 1].now
    ensures events[|events| - 1].Issued? ==> !About(e, events[|events| - 1].id)
  {
    var n := |events| - 1;
    var j :| 0 <= j < n && events[..n][j] == e;
    assert events[j] == e;
  }

  lemma {:induction false} StillProper(events: seq<Event>)
    requires Proper(events)
    ensures Proper(WithoutCleanups(events))
    decreases |events|
  {
    if events != [] {
      var was := events[..|events| - 1];
      StillProper(was);
      WithoutAreEvents(was);
      forall e | e in WithoutCleanups(was)
        ensures e.now <= events[|events| - 1].now
        ensures events[|events| - 1].Issued? ==> !About(e, events[|events| - 1].id)
      {
        LastFits(events, e);
      }
    }
  }

  lemma {:induction false} SameHistory(events: seq<Event>, id: Id)
    ensures var w := WithoutCleanups(events);
            && Times(w, id) == Times(events, id) && (IssuedIn(w, id) <==> IssuedIn(events, id))
            && (LoggedOutIn(w, id) <==> LoggedOutIn(events, id))
    decreases |events|
  {
    if events != [] {
      var was, e := events[..|events| - 1], events[|events| - 1];
      SameHistory(was, id);
      HistoryGrows(events, id);
      var w := WithoutCleanups(events);
      if e.Cleaned? {
        assert w == WithoutCleanups(was);
        assert Times(events, id) == Times(was, id);
      } else {
        assert w[..|w| - 1] == WithoutCleanups(was) && w[|w| - 1] == e;
        HistoryGrows(w, id);
      }
    }
  }

  lemma NoLaterWithout(events: seq<Event>, now: int)
    requires Proper(events) && (events != [] ==> events[|events| - 1].now <= now)
    ensures var w := WithoutCleanups(events); Proper(w) && (w != [] ==> w[|w| - 1].now <= now)
  {
    StillProper(events);
    WithoutAreEvents(events);
    var w := WithoutCleanups(events);
    if w != [] {
      assert w[|w| - 1] in events;
      var i :| 0 <= i < |events| && events[i] == w[|w| - 1];
      assert i == |events| - 1 || events[i].now <= events[|events| - 1].now;
    }
  }

  lemma SameVerdict(events: seq<Event>, id: Id, ttl: int, now: int)
    ensures InUse(WithoutCleanups(events), id, ttl, now) <==> InUse(events, id, ttl, now)
  {
    SameHistory(events, id);
  }

  /** Running the expiry cleanup, at whatever moments, never changes an answer. */
  lemma CleanupInvisible(events: seq<Event>, id: Id, ttl: int, now: int, found: bool, touched: bool)
    requires Proper(events) && (events != [] ==> events[|events| - 1].now <= now)
    ensures Authenticate(After(WithoutCleanups(events), ttl), id, ttl, now, found, touched).1
         == Authenticate(After(events, ttl), id, ttl, now, found, touched).1
  {
    NoLaterWithout(events, now);
    AuthenticatedExactly(events, id, ttl, now, found, touched);
    AuthenticatedExactly(WithoutCleanups(events), id, ttl, now, found, touched);
    SameVerdict(events, id, ttl, now);
  }
}
