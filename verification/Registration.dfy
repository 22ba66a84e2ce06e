/** Accounts, invite codes and passkeys: internal/store/store.go:120-199, invite.go, passkeys.go, and
    the begin and finish calls of internal/webauthn/service.go. Verification by the WebAuthn
    library is an arbitrary yes (with a credential id) or no. */
module Accounts {
  import opened Names

  type Id = string

  datatype Outcome = Done | NotFound | Conflict | Invalid | Rejected

  /** Invite codes by hash, with whether they are used; user names by id; passkeys by credential
      id, with their owner. */
  datatype Accounts = Accounts(invites: map<Text, bool>, users: map<Id, Text>, keys: map<Text, Id>)

  predicate NameTaken(a: Accounts, name: Text) {
    exists u :: u in a.users && Fold(a.users[u]) == Fold(name)
  }

  /** `consumeInviteCodeTx`. */
  function Consume(a: Accounts, hash: Text): (Accounts, Outcome) {
    if hash !in a.invites then (a, NotFound)
    else if a.invites[hash] then (a, Conflict)
    else (a.(invites := a.invites[hash := true]), Done)
  }

  /** `insertUserTx`. */
  function InsertUser(a: Accounts, id: Id, name: Text): (Accounts, Outcome) {
    if id in a.users || NameTaken(a, name) then (a, Conflict)
    else (a.(users := a.users[id := name]), Done)
  }

  /** `insertPasskeyTx`. */
  function InsertKey(a: Accounts, cred: Text, user: Id): (Accounts, Outcome) {
    if cred in a.keys || user !in a.users then (a, Rejected)
    else (a.(keys := a.keys[cred := user]), Done)
  }

  /** `RegisterWithPasskey`: the three statements, or none of them. */
  function Register(a: Accounts, id: Id, name: Text, hash: Text, cred: Text): (Accounts, Outcome) {
    var (b, r) := Consume(a, hash);
    if r != Done then (a, r) else
    var (c, s) := InsertUser(b, id, name);
    if s != Done then (a, s) else
    var (d, t) := InsertKey(c, cred, id);
    if t != Done then (a, t) else (d, Done)
  }

  /** `CreateInviteCode`. */
  function Mint(a: Accounts, hash: Text): Accounts {
    if hash in a.invites then a else a.(invites := a.invites[hash := false])
  }

  /** `CheckInviteCode`. */
  function Check(a: Accounts, hash: Text): Outcome {
    if hash !in a.invites then NotFound else if a.invites[hash] then Conflict else Done
  }

  function KeysOf(a: Accounts, user: Id): set<Text> {
    set k | k in a.keys && a.keys[k] == user
  }

  /** `handlePasskeyDelete`: count, then delete; the two statements run without another passkey
      request of the user in between. */
  function DropKey(a: Accounts, user: Id, cred: Text): (Accounts, Outcome) {
    if |KeysOf(a, user)| <= 1 then (a, Conflict)
    else if cred !in a.keys || a.keys[cred] != user then (a, NotFound)
    else (a.(keys := a.keys - {cred}), Done)
  }

  class AccountStore {
    var db: Accounts

    constructor ()
      ensures db == Accounts(map[], map[], map[])
    {
      db := Accounts(map[], map[], map[]);
    }

    method ConsumeInviteCode(hash: Text) returns (r: Outcome)
      modifies this
      ensures (db, r) == Consume(old(db), hash)
    {
      if hash !in db.invites {
        return NotFound;
      }
      if db.invites[hash] {
        return Conflict;
      }
      db := db.(invites := db.invites[hash := true]);
      return Done;
    }

    /** The deferred rollback runs on every way out but the last. */
    method RegisterWithPasskey(id: Id, name: Text, hash: Text, cred: Text) returns (r: Outcome)
      modifies this
      ensures (db, r) == Register(old(db), id, name, hash, cred)
    {
      var begun := db;
      r := ConsumeInviteCode(hash);
      if r != Done {
        db := begun;
        return;
      }
      if id in db.users || NameTaken(db, name) {
        db := begun;
        return Conflict;
      }
      db := db.(users := db.users[id := name]);
      if cred in db.keys {
        db := begun;
        return Rejected;
      }
      db := db.(keys := db.keys[cred := id]);
    }

    method CreateInviteCode(hash: Text)
      modifies this
      ensures db == Mint(old(db), hash)
    {
      if hash !in db.invites {
        db := db.(invites := db.invites[hash := false]);
      }
    }

    method CreatePasskey(cred: Text, user: Id) returns (r: Outcome)
      modifies this
      ensures (db, r) == InsertKey(old(db), cred, user)
    {
      if cred in db.keys || user !in db.users {
        return Rejected;
      }
      db := db.(keys := db.keys[cred := user]);
      return Done;
    }

    method HandlePasskeyDelete(user: Id, cred: Text) returns (r: Outcome)
      modifies this
      ensures (db, r) == DropKey(old(db), user, cred)
    {
      var n := |KeysOf(db, user)|;
      if n <= 1 {
        return Conflict;
      }
      if cred !in db.keys || db.keys[cred] != user {
        return NotFound;
      }
      db := db.(keys := db.keys - {cred});
      return Done;
    }
  }

  // ----- what the transactions keep -----

  ghost function UsedCodes(a: Accounts): set<Text> {
    set h | h in a.invites && a.invites[h]
  }

  /** Every user has a passkey, and every passkey a user. */
  ghost predicate Reachable(a: Accounts) {
    && (forall u :: u in a.users ==> KeysOf(a, u) != {})
    && (forall k :: k in a.keys ==> a.keys[k] in a.users)
  }

  /** Registering uses up the code and adds one user with one passkey, or changes nothing. */
  lemma RegisterExact(a: Accounts, id: Id, name: Text, hash: Text, cred: Text)
    ensures var (d, r) := Register(a, id, name, hash, cred);
            && (r != Done ==> d == a)
            && (r == Done <==> hash in a.invites && !a.invites[hash] && id !in a.users && !NameTaken(a, name) && cred !in a.keys)
            && (r == Done ==> UsedCodes(d) == UsedCodes(a) + {hash} && hash !in UsedCodes(a))
            && (r == Done ==> d.users == a.users[id := name] && d.keys == a.keys[cred := id] && d.invites == a.invites[hash := true])
            && (r == NotFound <==> hash !in a.invites)
            && (r == Conflict <==> hash in a.invites && (a.invites[hash] || id in a.users || NameTaken(a, name)))
  {
  }

  /** A name is taken if and only if some user's name differs from it at most in the case of letters. */
  lemma NameTakenExactly(a: Accounts, name: Text)
    ensures NameTaken(a, name) <==> exists u :: u in a.users && SameUpToCase(a.users[u], name)
  {
    forall u | u in a.users ensures Fold(a.users[u]) == Fold(name) <==> SameUpToCase(a.users[u], name) {
      FoldExactly(a.users[u], name);
    }
  }

  /** No two users have names that differ at most in case. */
  ghost predicate NamesUnique(a: Accounts) {
    forall u, v :: u in a.users && v in a.users && SameUpToCase(a.users[u], a.users[v]) ==> u == v
  }

  lemma RegisterUnique(a: Accounts, id: Id, name: Text, hash: Text, cred: Text)
    requires NamesUnique(a)
    ensures NamesUnique(Register(a, id, name, hash, cred).0)
  {
    var (d, r) := Register(a, id, name, hash, cred);
    if r == Done {
      NameTakenExactly(a, name);
      forall u | u in a.users ensures !SameUpToCase(a.users[u], name) && !SameUpToCase(name, a.users[u]) {
        FoldExactly(a.users[u], name);
        FoldExactly(name, a.users[u]);
      }
    }
  }

  /** Minting makes a new code usable and leaves every other as it was, used or not. */
  lemma MintExactly(a: Accounts, hash: Text, other: Text)
    ensures var d := Mint(a, hash);
            && (Check(d, other) == Done <==> Check(a, other) == Done || (other == hash && hash !in a.invites))
            && (Check(d, other) == Conflict <==> Check(a, other) == Conflict)
            && d.users == a.users && d.keys == a.keys
    ensures Check(a, other) == Done <==> other in a.invites && other !in UsedCodes(a)
    ensures Check(a, other) == Conflict <==> other in UsedCodes(a)
  {
  }

  /** A passkey is stored if and only if its credential is new and its user exists. */
  lemma InsertKeyExactly(a: Accounts, cred: Text, user: Id)
    ensures var (d, r) := InsertKey(a, cred, user);
            && (r == Done <==> cred !in a.keys && user in a.users)
            && (r != Done ==> r == Rejected && d == a)
            && (r == Done ==> d.keys == a.keys[cred := user] && d.users == a.users && d.invites == a.invites)
  {
  }

  lemma AtLeastTwo(keys: set<Text>, cred: Text)
    ensures |keys| <= 1 <==> forall k, l :: k in keys && l in keys ==> k == l
    ensures cred in keys ==> (|keys| >= 2 <==> exists other :: other in keys && other != cred)
  {
    if keys != {} {
      var k :| k in keys;
      assert |keys - {k}| == |keys| - 1;
      if |keys| > 1 {
        assert keys - {k} != {};
        var l :| l in keys - {k};
        assert k in keys && l in keys && k != l;
        assert cred in keys && cred != k ==> k in keys && k != cred;
        assert cred == k ==> l in keys && l != cred;
      } else {
        assert keys - {k} == {};
        assert keys == {k};
      }
    }
  }

  /** A passkey is deleted if and only if it is the user's and the user has another; then it goes and
      nothing else. With at most one the answer is a conflict, whatever passkey is named. */
  lemma DropKeyExactly(a: Accounts, user: Id, cred: Text)
    ensures var (d, r) := DropKey(a, user, cred);
            && (r == Done <==>
                  && cred in a.keys && a.keys[cred] == user
                  && exists other :: other in a.keys && a.keys[other] == user && other != cred)
            && (r == Conflict <==>
                  forall k, l :: k in a.keys && l in a.keys && a.keys[k] == user && a.keys[l] == user ==> k == l)
            && (r == Done || r == Conflict || r == NotFound)
            && (r == Done ==> d == a.(keys := a.keys - {cred}))
            && (r != Done ==> d == a)
  {
    AtLeastTwo(KeysOf(a, user), cred);
    if cred in a.keys && a.keys[cred] == user {
      assert cred in KeysOf(a, user);
      if other :| other in a.keys && a.keys[other] == user && other != cred {
        assert other in KeysOf(a, user);
      }
    }
    if k, l :| k in a.keys && l in a.keys && a.keys[k] == user && a.keys[l] == user && k != l {
      assert k in KeysOf(a, user) && l in KeysOf(a, user);
    }
  }

  lemma RegisterConserves(a: Accounts, id: Id, name: Text, hash: Text, cred: Text)
    ensures var d := Register(a, id, name, hash, cred).0;
            |UsedCodes(d)| - |d.users| == |UsedCodes(a)| - |a.users|
  {
    RegisterExact(a, id, name, hash, cred);
  }

  lemma RegisterKeeps(a: Accounts, id: Id, name: Text, hash: Text, cred: Text)
    requires Reachable(a)
    ensures Reachable(Register(a, id, name, hash, cred).0)
  {
    var (d, r) := Register(a, id, name, hash, cred);
    if r == Done {
      forall u | u in d.users ensures KeysOf(d, u) != {} {
        if u == id {
          assert cred in KeysOf(d, u);
        } else {
          var k :| k in KeysOf(a, u);
          assert k in KeysOf(d, u);
        }
      }
    }
  }

  lemma InsertKeyKeeps(a: Accounts, cred: Text, user: Id)
    requires Reachable(a)
    ensures Reachable(InsertKey(a, cred, user).0)
  {
    var d := InsertKey(a, cred, user).0;
    forall u | u in d.users ensures KeysOf(d, u) != {} {
      var k :| k in KeysOf(a, u);
      assert k in KeysOf(d, u);
    }
  }

  /** The last passkey cannot be deleted. */
  lemma DropKeyKeeps(a: Accounts, user: Id, cred: Text)
    requires Reachable(a)
    ensures Reachable(DropKey(a, user, cred).0)
  {
    var (d, r) := DropKey(a, user, cred);
    if r == Done {
      forall u | u in d.users ensures KeysOf(d, u) != {} {
        assert KeysOf(d, u) == KeysOf(a, u) - {cred};
        if u == user {
          assert |KeysOf(d, u)| == |KeysOf(a, u)| - 1;
        }
      }
    }
  }
}

module Registration {
  import opened Wrappers
  import opened Names
  import A = Accounts
  import C = Ceremonies

  type Id = string

  datatype System = System(accounts: A.Accounts, table: C.Table)

  /** `validUsername`. */
  predicate NameChar(b: byte) {
    b == 45 || b == 95 || b == 46 || 97 <= b <= 122 || 65 <= b <= 90 || 48 <= b <= 57
  }

  predicate ValidName(name: Text) {
    3 <= |name| <= 32 && forall b :: b in name ==> NameChar(b)
  }

  /** `BeginRegister`: check the code, the name and that it is free, then fix the user id; session is
      what the library begins, if it does. */
  function BeginRegister(s: System, name: Text, hash: Text, cid: Id, uid: Id, session: Option<string>, now: int):
    (System, A.Outcome)
  {
    var checked := A.Check(s.accounts, hash);
    if checked != A.Done then (s, checked)
    else if !ValidName(name) then (s, A.Invalid)
    else if A.NameTaken(s.accounts, name) then (s, A.Conflict)
    else if session.None? then (s, A.Rejected)
    else (s.(table := C.Put(s.table, cid, C.Ceremony(C.Register, name, uid, hash, session.value), now)), A.Done)
  }

  /** `FinishRegister`: the ceremony is spent whatever happens next. */
  function FinishRegister(s: System, cid: Id, verified: Option<Text>, now: int): (System, A.Outcome, Id) {
    var (t, c) := C.Take(s.table, cid, C.Register, now);
    if c.None? || verified.None? then (s.(table := t), A.Invalid, "")
    else
      var (d, r) := A.Register(s.accounts, c.value.userId, c.value.username, c.value.inviteHash, verified.value);
      (System(d, t), r, c.value.userId)
  }

  /** `FinishAddPasskey`. */
  function FinishAdd(s: System, cid: Id, user: Id, verified: Option<Text>, now: int): (System, A.Outcome) {
    var (t, c) := C.Take(s.table, cid, C.AddKey, now);
    if c.None? then (s.(table := t), A.Invalid)
    else if user !in s.accounts.users then (s.(table := t), A.NotFound)
    else if verified.None? then (s.(table := t), A.Invalid)
    else
      var (d, r) := A.InsertKey(s.accounts, verified.value, user);
      (System(d, t), r)
  }

  /** The service: the ceremony table in memory and the store behind it. */
  class Service {
    const store: A.AccountStore
    const table: C.CeremonyTable

    constructor (store: A.AccountStore, table: C.CeremonyTable)
      ensures this.store == store && this.table == table
    {
      this.store, this.table := store, table;
    }

    function State(): System
      reads store, table
    {
      System(store.db, table.Contents())
    }

    method Begin(name: Text, hash: Text, cid: Id, uid: Id, session: Option<string>, now: int) returns (r: A.Outcome)
      modifies table
      ensures (State(), r) == BeginRegister(old(State()), name, hash, cid, uid, session, now)
    {
      r := A.Check(store.db, hash);
      if r != A.Done {
        return;
      }
      if !ValidName(name) {
        return A.Invalid;
      }
      if A.NameTaken(store.db, name) {
        return A.Conflict;
      }
      if session.None? {
        return A.Rejected;
      }
      table.Begin(cid, C.Ceremony(C.Register, name, uid, hash, session.value), now);
    }

    method Finish(cid: Id, verified: Option<Text>, now: int) returns (r: A.Outcome, created: Id)
      modifies store, table
      ensures (State(), r, created) == FinishRegister(old(State()), cid, verified, now)
    {
      var c := table.Finish(cid, C.Register, now);
      if c.None? || verified.None? {
        return A.Invalid, "";
      }
      created := c.value.userId;
      r := store.RegisterWithPasskey(c.value.userId, c.value.username, c.value.inviteHash, verified.value);
    }

    method FinishAddPasskey(cid: Id, user: Id, verified: Option<Text>, now: int) returns (r: A.Outcome)
      modifies store, table
      ensures (State(), r) == FinishAdd(old(State()), cid, user, verified, now)
    {
      var c := table.Finish(cid, C.AddKey, now);
      if c.None? {
        return A.Invalid;
      }
      if user !in store.db.users {
        return A.NotFound;
      }
      if verified.None? {
        return A.Invalid;
      }
      r := store.CreatePasskey(verified.value, user);
    }
  }

  // ----- single calls -----

  /** A user name has 3 to 32 letters, digits, dashes, underscores and dots. */
  lemma ValidNameExactly(name: Text)
    ensures ValidName(name)
       <==> && 3 <= |name| && |name| <= 32
            && forall b :: b in name ==> || b in Ascii("ABCDEFGHIJKLMNOPQRSTUVWXYZ") || b in Ascii("abcdefghijklmnopqrstuvwxyz")
                                         || b in Ascii("0123456789") || b in Ascii("-_.")
  {
    forall b: byte
      ensures NameChar(b) <==> || b in Ascii("ABCDEFGHIJKLMNOPQRSTUVWXYZ") || b in Ascii("abcdefghijklmnopqrstuvwxyz")
                               || b in Ascii("0123456789") || b in Ascii("-_.")
    {
      CapitalsAre(b);
      SmallLettersAre(b);
      DigitsAre(b);
      MarksAre(b);
    }
  }

  /** A registration begins if and only if its code is unused, its name valid and free, and the
      library begins; the accounts stay as they are, and what is put can be taken. */
  lemma BeginExactly(s: System, name: Text, hash: Text, cid: Id, uid: Id, session: Option<string>, now: int)
    ensures var (t, r) := BeginRegister(s, name, hash, cid, uid, session, now);
            && t.accounts == s.accounts && (r != A.Done ==> t == s)
            && (r == A.Done <==>
                  && hash in s.accounts.invites && !s.accounts.invites[hash] && ValidName(name)
                  && (forall u :: u in s.accounts.users ==> !SameUpToCase(s.accounts.users[u], name)) && session.Some?)
            && (r == A.NotFound <==> hash !in s.accounts.invites)
            && (r == A.Done ==>
                  C.Take(t.table, cid, C.Register, now).1 == Some(C.Ceremony(C.Register, name, uid, hash, session.value)))
  {
    A.NameTakenExactly(s.accounts, name);
  }

  /** A registration that was begun can be finished within a minute, if its code is still unused and
      its name free: the account is there with the id that was fixed, the name and its passkey, and
      the code is used up. Whatever the outcome, the ceremony is spent, and a failure leaves the
      accounts alone. */
  lemma FinishExactly(s: System, cid: Id, c: C.Ceremony, begun: int, verified: Option<Text>, now: int)
    requires cid in s.table.live && s.table.live[cid] == C.Entry(c, begun + 60_000_000_000)
    ensures var (t, r, uid) := FinishRegister(s, cid, verified, now);
            && cid !in t.table.live && (r != A.Done ==> t.accounts == s.accounts)
            && (r == A.Done <==>
                  && c.kind == C.Register && now <= begun + 60_000_000_000 && verified.Some?
                  && c.inviteHash in s.accounts.invites && !s.accounts.invites[c.inviteHash]
                  && c.userId !in s.accounts.users && !A.NameTaken(s.accounts, c.username)
                  && verified.value !in s.accounts.keys)
            && (r == A.Done ==>
                  && uid == c.userId && t.accounts.users == s.accounts.users[c.userId := c.username]
                  && t.accounts.keys == s.accounts.keys[verified.value := c.userId]
                  && t.accounts.invites == s.accounts.invites[c.inviteHash := true])
  {
    if verified.Some? {
      A.RegisterExact(s.accounts, c.userId, c.username, c.inviteHash, verified.value);
    }
  }

  /** A passkey ceremony that was begun adds the passkey to the user who asks, if there is one and
      the credential is new. */
  lemma FinishAddExactly(s: System, cid: Id, c: C.Ceremony, begun: int, user: Id, verified: Option<Text>, now: int)
    requires cid in s.table.live && s.table.live[cid] == C.Entry(c, begun + 60_000_000_000)
    ensures var (t, r) := FinishAdd(s, cid, user, verified, now);
            && cid !in t.table.live && (r != A.Done ==> t.accounts == s.accounts)
            && (r == A.Done <==>
                  && c.kind == C.AddKey && now <= begun + 60_000_000_000 && user in s.accounts.users
                  && verified.Some? && verified.value !in s.accounts.keys)
            && (r == A.Done ==> t.accounts == s.accounts.(keys := s.accounts.keys[verified.value := user]))
  {
    if verified.Some? {
      A.InsertKeyExactly(s.accounts, verified.value, user);
    }
  }

  // ----- runs -----

  datatype Event =
    | Minted(hash: Text)
    | BeganRegister(cid: Id, name: Text, hash: Text, uid: Id, session: Option<string>, now: int)
    | FinishedRegister(cid: Id, verified: Option<Text>, now: int)
    | BeganOther(cid: Id, ceremony: C.Ceremony, now: int)
    | FinishedLogin(cid: Id, now: int)
    | FinishedAdd(cid: Id, user: Id, verified: Option<Text>, now: int)
    | DroppedKey(user: Id, cred: Text)
    | Restarted(now: int)

  /** Login and add ceremonies begin without touching the accounts. */
  ghost predicate Sensible(events: seq<Event>) {
    forall i :: 0 <= i < |events| && events[i].BeganOther? ==> events[i].ceremony.kind != C.Register
  }

  function Step(s: System, e: Event): System {
    match e
    case Minted(hash) => s.(accounts := A.Mint(s.accounts, hash))
    case BeganRegister(cid, name, hash, uid, session, now) => BeginRegister(s, name, hash, cid, uid, session, now).0
    case FinishedRegister(cid, verified, now) => FinishRegister(s, cid, verified, now).0
    case BeganOther(cid, c, now) => s.(table := C.Put(s.table, cid, c, now))
    case FinishedLogin(cid, now) => s.(table := C.Take(s.table, cid, C.Login, now).0)
    case FinishedAdd(cid, user, verified, now) => FinishAdd(s, cid, user, verified, now).0
    case DroppedKey(user, cred) => s.(accounts := A.DropKey(s.accounts, user, cred).0)
    // the accounts stay, the ceremonies are forgotten
    case Restarted(now) => s.(table := C.Table(map[], now))
  }

  function After(s: System, events: seq<Event>): System {
    if events == [] then s else Step(After(s, events[..|events| - 1]), events[|events| - 1])
  }

  /** The event creates an account with the given code. */
  predicate Creates(s: System, e: Event, hash: Text) {
    && e.FinishedRegister?
    && FinishRegister(s, e.cid, e.verified, e.now).1 == A.Done
    && s.table.live[e.cid].ceremony.inviteHash == hash
  }

  /** How many accounts a run creates with one code. */
  function Created(s: System, events: seq<Event>, hash: Text): nat {
    if events == [] then 0
    else
      var n := |events| - 1;
      var t := After(s, events[..n]);
      Created(s, events[..n], hash) + if Creates(t, events[n], hash) then 1 else 0
  }

  /** One event keeps used codes minus users, and marks a code used exactly when it creates an
      account with it. */
  lemma StepConserves(s: System, e: Event, hash: Text)
    ensures |A.UsedCodes(Step(s, e).accounts)| - |Step(s, e).accounts.users|
         == |A.UsedCodes(s.accounts)| - |s.accounts.users|
    ensures hash in A.UsedCodes(Step(s, e).accounts) <==> hash in A.UsedCodes(s.accounts) || Creates(s, e, hash)
    ensures Creates(s, e, hash) ==> hash !in A.UsedCodes(s.accounts)
  {
    match e
    case Minted(h) => assert A.UsedCodes(A.Mint(s.accounts, h)) == A.UsedCodes(s.accounts);
    case FinishedRegister(cid, verified, now) => FinishConserves(s, cid, verified, now, hash);
    case _ =>
  }

  lemma FinishConserves(s: System, cid: Id, verified: Option<Text>, now: int, hash: Text)
    ensures var (e, d) := (FinishedRegister(cid, verified, now), FinishRegister(s, cid, verified, now).0.accounts);
            && |A.UsedCodes(d)| - |d.users| == |A.UsedCodes(s.accounts)| - |s.accounts.users|
            && (hash in A.UsedCodes(d) <==> hash in A.UsedCodes(s.accounts) || Creates(s, e, hash))
            && (Creates(s, e, hash) ==> hash !in A.UsedCodes(s.accounts))
  {
    var c := C.Take(s.table, cid, C.Register, now).1;
    if c.Some? && verified.Some? {
      A.RegisterConserves(s.accounts, c.value.userId, c.value.username, c.value.inviteHash, verified.value);
      A.RegisterExact(s.accounts, c.value.userId, c.value.username, c.value.inviteHash, verified.value);
    }
  }

  /** Conservation: over any run, used invite codes minus users stays the same. */
  lemma {:induction false} RegistrationConserves(s: System, events: seq<Event>)
    ensures |A.UsedCodes(After(s, events).accounts)| - |After(s, events).accounts.users|
         == |A.UsedCodes(s.accounts)| - |s.accounts.users|
    decreases |events|
  {
    if events != [] {
      RegistrationConserves(s, events[..|events| - 1]);
      StepConserves(After(s, events[..|events| - 1]), events[|events| - 1], []);
    }
  }

  /** However many ceremonies are begun with a code, it creates at most one account: one if and
      only if it was free at the start and is used at the end, none otherwise. */
  lemma {:induction false} OneAccountPerCode(s: System, events: seq<Event>, hash: Text)
    ensures Created(s, events, hash)
         == if hash in A.UsedCodes(After(s, events).accounts) && hash !in A.UsedCodes(s.accounts) then 1 else 0
    ensures hash in A.UsedCodes(s.accounts) ==> hash in A.UsedCodes(After(s, events).accounts)
    decreases |events|
  {
    if events != [] {
      OneAccountPerCode(s, events[..|events| - 1], hash);
      StepConserves(After(s, events[..|events| - 1]), events[|events| - 1], hash);
    }
  }

  /** Everyone can still sign in: every user has a passkey after any run. */
  lemma {:induction false} EveryUserHasKey(s: System, events: seq<Event>)
    requires A.Reachable(s.accounts)
    ensures A.Reachable(After(s, events).accounts)
    ensures var a := After(s, events).accounts; forall u :: u in a.users ==> exists k :: k in a.keys && a.keys[k] == u
    decreases |events|
  {
    if events != [] {
      var t := After(s, events[..|events| - 1]);
      EveryUserHasKey(s, events[..|events| - 1]);
      match events[|events| - 1]
      case FinishedRegister(cid, verified, now) =>
        var c := C.Take(t.table, cid, C.Register, now).1;
        if c.Some? && verified.Some? {
          A.RegisterKeeps(t.accounts, c.value.userId, c.value.username, c.value.inviteHash, verified.value);
        }
      case FinishedAdd(cid, user, verified, now) =>
        if verified.Some? {
          A.InsertKeyKeeps(t.accounts, verified.value, user);
        }
      case DroppedKey(user, cred) => A.DropKeyKeeps(t.accounts, user, cred);
      case Minted(hash) => assert forall u :: A.KeysOf(A.Mint(t.accounts, hash), u) == A.KeysOf(t.accounts, u);
      case _ =>
    }
  }

  /** After any run no two users have names that differ at most in case. */
  lemma {:induction false} NamesStayUnique(s: System, events: seq<Event>)
    requires A.NamesUnique(s.accounts)
    ensures A.NamesUnique(After(s, events).accounts)
    decreases |events|
  {
    if events != [] {
      var t, e := After(s, events[..|events| - 1]), events[|events| - 1];
      NamesStayUnique(s, events[..|events| - 1]);
      if e.FinishedRegister? {
        var c := C.Take(t.table, e.cid, C.Register, e.now).1;
        if c.Some? && e.verified.Some? {
          A.RegisterUnique(t.accounts, c.value.userId, c.value.username, c.value.inviteHash, e.verified.value);
        }
      } else {
        OthersAddNobody(t, e);
      }
    }
  }

  lemma OthersAddNobody(s: System, e: Event)
    requires !e.FinishedRegister?
    ensures Step(s, e).accounts.users == s.accounts.users
  {
  }

  /** A register ceremony in the table was begun at p with these details, after the last restart. */
  ghost predicate BegunAt(events: seq<Event>, p: int, cid: Id, c: C.Ceremony) {
    && 0 <= p < |events| && events[p].BeganRegister? && events[p].cid == cid
    && events[p].name == c.username && events[p].hash == c.inviteHash && events[p].uid == c.userId
    && forall j :: p < j < |events| ==> !events[j].Restarted?
  }

  lemma {:induction false} CeremoniesWereBegun(s: System, events: seq<Event>, cid: Id)
    requires s.table.live == map[] && Sensible(events)
    ensures var t := After(s, events).table;
            cid in t.live && t.live[cid].ceremony.kind == C.Register ==>
              exists p :: BegunAt(events, p, cid, t.live[cid].ceremony)
    decreases |events|
  {
    if events != [] {
      var n := |events| - 1;
      CeremoniesWereBegun(s, events[..n], cid);
      var was, t := After(s, events[..n]).table, After(s, events).table;
      if cid in t.live && t.live[cid].ceremony.kind == C.Register {
        if cid in was.live && was.live[cid] == t.live[cid] {
          var p :| BegunAt(events[..n], p, cid, was.live[cid].ceremony);
          assert BegunAt(events, p, cid, t.live[cid].ceremony);
        } else {
          assert BegunAt(events, n, cid, t.live[cid].ceremony);
        }
      }
    }
  }

  /** The id of a created account, its name and the code it used up are the ones fixed when its
      ceremony began, which was after the last restart. */
  lemma CreatedAsBegun(s: System, events: seq<Event>, cid: Id, verified: Option<Text>, now: int)
    requires s.table.live == map[] && Sensible(events)
    ensures var t := After(s, events);
            var (u, r, uid) := FinishRegister(t, cid, verified, now);
            r == A.Done ==>
              exists p :: 0 <= p < |events| && events[p].BeganRegister? && events[p].cid == cid && events[p].uid == uid
                       && (forall j :: p < j < |events| ==> !events[j].Restarted?)
                       && u.accounts.users == t.accounts.users[uid := events[p].name]
                       && events[p].hash in A.UsedCodes(u.accounts) && events[p].hash !in A.UsedCodes(t.accounts)
  {
    var t := After(s, events);
    var (u, r, uid) := FinishRegister(t, cid, verified, now);
    if r == A.Done {
      CeremoniesWereBegun(s, events, cid);
      var c := t.table.live[cid].ceremony;
      var p :| BegunAt(events, p, cid, c);
      A.RegisterExact(t.accounts, c.userId, c.username, c.inviteHash, verified.value);
    }
  }

  // ----- a run from beginning to end -----

  lemma AfterThen(s: System, events: seq<Event>, e: Event)
    ensures After(s, events + [e]) == Step(After(s, events), e)
  {
    assert (events + [e])[..|events|] == events;
  }

  /** With a new code a new name is registered: mint, begin, finish. */
  lemma NewcomerRegisters(s: System, hash: Text, cid: Id, name: Text, uid: Id, session: string, cred: Text, t: int, t': int)
    returns (events: seq<Event>)
    requires hash !in s.accounts.invites && ValidName(name) && !A.NameTaken(s.accounts, name)
    requires uid !in s.accounts.users && cred !in s.accounts.keys && t' <= t + 60_000_000_000
    ensures events == [Minted(hash)] + [BeganRegister(cid, name, hash, uid, Some(session), t)] + [FinishedRegister(cid, Some(cred), t')]
    ensures var a := After(s, events).accounts;
            && a.users == s.accounts.users[uid := name] && a.keys == s.accounts.keys[cred := uid]
            && a.invites == s.accounts.invites[hash := true]
  {
    var minted, began, finished := Minted(hash), BeganRegister(cid, name, hash, uid, Some(session), t), FinishedRegister(cid, Some(cred), t');
    events := [minted] + [began] + [finished];
    assert [] + [minted] == [minted];
    AfterThen(s, [], minted);
    AfterThen(s, [minted], began);
    AfterThen(s, [minted] + [began], finished);
    var u := After(s, [minted]);
    var v := After(s, [minted] + [began]);
    A.MintExactly(s.accounts, hash, hash);
    assert !A.NameTaken(u.accounts, name);
    var c := C.Ceremony(C.Register, name, uid, hash, session);
    assert v.accounts == u.accounts && v.table.live[cid] == C.Entry(c, t + 60_000_000_000);
    FinishExactly(v, cid, c, t, Some(cred), t');
  }

  /** A user adds a passkey and drops the old one: begin, finish, drop. */
  lemma KeyIsExchanged(s: System, user: Id, old': Text, cid: Id, c: C.Ceremony, cred: Text, t: int, t': int) returns (events: seq<Event>)
    requires user in s.accounts.users && old' in s.accounts.keys && s.accounts.keys[old'] == user && cred !in s.accounts.keys
    requires c.kind == C.AddKey && t' <= t + 60_000_000_000
    ensures events == [BeganOther(cid, c, t)] + [FinishedAdd(cid, user, Some(cred), t')] + [DroppedKey(user, old')]
    ensures var a := After(s, events).accounts;
            && a.users == s.accounts.users && a.keys == s.accounts.keys[cred := user] - {old'} && a.invites == s.accounts.invites
  {
    var began, added, dropped := BeganOther(cid, c, t), FinishedAdd(cid, user, Some(cred), t'), DroppedKey(user, old');
    events := [began] + [added] + [dropped];
    assert [] + [began] == [began];
    AfterThen(s, [], began);
    AfterThen(s, [began], added);
    AfterThen(s, [began] + [added], dropped);
    var u := After(s, [began]);
    assert u.accounts == s.accounts && u.table.live[cid] == C.Entry(c, t + 60_000_000_000);
    FinishAddExactly(u, cid, c, t, user, Some(cred), t');
    var v := After(s, [began] + [added]);
    A.DropKeyExactly(v.accounts, user, old');
    assert v.accounts.keys[cred] == user && cred != old';
  }

  /** Logging in spends the ceremony and leaves the accounts alone; a restart spends them all. */
  lemma LoginSpends(s: System, cid: Id, other: Id, now: int)
    ensures Step(s, FinishedLogin(cid, now)).accounts == s.accounts && cid !in Step(s, FinishedLogin(cid, now)).table.live
    ensures other != cid ==> (other in Step(s, FinishedLogin(cid, now)).table.live <==> other in s.table.live)
    ensures Step(s, Restarted(now)).accounts == s.accounts && other !in Step(s, Restarted(now)).table.live
  {
  }
}
