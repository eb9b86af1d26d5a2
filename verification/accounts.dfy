/** The account manager: registration under the two unique constraints,
    login, lookups, partial update, deletion, and closing a session. */
module Accounts {
  import opened Wrappers
  import opened Schema
  import Sessions

  /** Another account than `id` already uses this username. */
  predicate UsernameHeldByOther(m: map<Id, Account>, id: Id, name: string) {
    exists k :: k in m && k != id && m[k].username == name
  }

  /** Another account than `id` already uses this email. */
  predicate EmailHeldByOther(m: map<Id, Account>, id: Id, email: string) {
    exists k :: k in m && k != id && m[k].email == email
  }

  /** Registers an account. A username or email already in use breaks a
      unique constraint: the insert is rolled back and the call fails. */
  function Create(s: Store, id: Id, now: Time, username: string, email: string, passwordHash: string, role: string): (r: Outcome<Account>)
    requires id !in s.accounts
    ensures r.Failed? <==> UsernameTaken(s.accounts, username) || EmailTaken(s.accounts, email)
    ensures r.Failed? ==> r.error == DuplicateKey
    ensures r.Done? ==>
      && r.value.id == id && r.value.registeredAt == now
      && r.value.username == username && r.value.email == email
      && r.value.passwordHash == passwordHash && r.value.role == role
      && r.store.accounts == s.accounts[id := r.value]
      && r.store == s.(accounts := r.store.accounts)
    ensures r.Done? && Valid(s) ==> Valid(r.store)
  {
    if UsernameTaken(s.accounts, username) || EmailTaken(s.accounts, email) then
      Failed(DuplicateKey)
    else
      var a := Account(id, username, email, passwordHash, role, now);
      Done(s.(accounts := s.accounts[id := a]), a)
  }

  /** The account with this id, if there is one. */
  function GetById(s: Store, id: Id): (r: Option<Account>)
    ensures r.Some? <==> id in s.accounts
    ensures r.Some? ==> r.value == s.accounts[id]
  {
    if id in s.accounts then Some(s.accounts[id]) else None
  }

  /** The account registered under this email, if there is one. Emails are
      unique, so at most one row matches. */
  function GetByEmail(s: Store, email: string): (r: Option<Account>)
    requires Valid(s)
    ensures r.Some? <==> EmailTaken(s.accounts, email)
    ensures r.Some? ==> r.value.email == email && r.value.id in s.accounts && s.accounts[r.value.id] == r.value
  {
    if EmailTaken(s.accounts, email) then
      var k :| k in s.accounts && s.accounts[k].email == email;
      Some(s.accounts[k])
    else
      None
  }

  /** Logs in: opens a session for the account with this email when its
      stored password hash equals `passwordHash` exactly. Otherwise nothing
      is stored and no session is returned; an unknown email and a wrong
      password look the same. */
  function Login(s: Store, sid: Id, now: Time, email: string, passwordHash: string): (r: Outcome<Option<Session>>)
    requires Valid(s)
    requires sid !in s.sessions
    ensures r.Done?
    ensures r.value.Some? <==>
      exists k :: k in s.accounts && s.accounts[k].email == email && s.accounts[k].passwordHash == passwordHash
    ensures r.value.Some? ==>
      && var ses := r.value.value;
      && ses.id == sid && ses.startedAt == now && ses.endedAt == None && ses.ip == None
      && ses.owner.Some? && ses.owner.value in s.accounts && s.accounts[ses.owner.value].email == email
      && r.store == s.(sessions := s.sessions[sid := ses])
    ensures r.value.None? ==> r.store == s
    ensures Valid(r.store)
  {
    match GetByEmail(s, email)
    case Some(a) =>
      if a.passwordHash == passwordHash then
        var o := Sessions.Create(s, sid, now, Some(a.id), None);
        Done(o.store, Some(o.value))
      else
        Done(s, None)
    case None => Done(s, None)
  }

  /** Updates the supplied, non-empty fields of an account. An unknown id
      changes nothing and yields no account. A new username or email that
      another account already uses breaks a unique constraint and fails. */
  function Update(s: Store, id: Id, username: Option<string>, email: Option<string>,
                  passwordHash: Option<string>, role: Option<string>): (r: Outcome<Option<Account>>)
    requires Valid(s)
    ensures id !in s.accounts ==> r == Done(s, None)
    ensures id in s.accounts ==>
      (r.Failed? <==>
        || (Supplied(username) && UsernameHeldByOther(s.accounts, id, username.value))
        || (Supplied(email) && EmailHeldByOther(s.accounts, id, email.value)))
    ensures r.Failed? ==> r.error == DuplicateKey
    ensures r.Done? && id in s.accounts ==>
      && r.value.Some?
      && var before, after := s.accounts[id], r.value.value;
      && Assigned(username, before.username, after.username)
      && Assigned(email, before.email, after.email)
      && Assigned(passwordHash, before.passwordHash, after.passwordHash)
      && Assigned(role, before.role, after.role)
      && after.id == id && after.registeredAt == before.registeredAt
      && r.store == s.(accounts := s.accounts[id := after])
    ensures r.Done? ==> Valid(r.store)
  {
    match GetById(s, id)
    case None => Done(s, None)
    case Some(a) =>
      var a' := a.(username := Pick(username, a.username), email := Pick(email, a.email),
                   passwordHash := Pick(passwordHash, a.passwordHash), role := Pick(role, a.role));
      if UsernameHeldByOther(s.accounts, id, a'.username) || EmailHeldByOther(s.accounts, id, a'.email) then
        Failed(DuplicateKey)
      else
        Done(s.(accounts := s.accounts[id := a']), Some(a'))
  }

  /** Deletes an account and yields it; an unknown id changes nothing and
      yields no account. What happens to the account's sessions and
      credentials is left open. */
  function Delete(s: Store, id: Id): (r: Outcome<Option<Account>>)
    ensures r.Done?
    ensures id !in s.accounts ==> r.store == s && r.value == None
    ensures id in s.accounts ==> r.value == Some(s.accounts[id])
    ensures r.store.accounts.Keys == s.accounts.Keys - {id}
    ensures forall k :: k in r.store.accounts ==> r.store.accounts[k] == s.accounts[k]
    ensures r.store.tags == s.tags && r.store.links == s.links
    ensures Valid(s) ==> Valid(r.store)
  {
    match GetById(s, id)
    case None => Done(s, None)
    case Some(a) => Done(s.(accounts := s.accounts - {id}), Some(a))
  }

  /** Closes a session: stamps its end time with `now` and keeps every other
      field. An unknown session id fails. Closing twice overwrites the end time. */
  function CloseSession(s: Store, sid: Id, now: Time): (r: Outcome<Session>)
    ensures r.Failed? <==> sid !in s.sessions
    ensures r.Failed? ==> r.error == NotFound
    ensures r.Done? ==>
      && var before := s.sessions[sid];
      && r.value.endedAt == Some(now)
      && r.value.id == before.id && r.value.startedAt == before.startedAt
      && r.value.ip == before.ip && r.value.owner == before.owner
      && r.store == s.(sessions := s.sessions[sid := r.value])
    ensures r.Done? && Valid(s) ==> Valid(r.store)
  {
    match Sessions.Get(s, sid)
    case None => Failed(NotFound)
    case Some(ses) =>
      var closed := ses.(endedAt := Some(now));
      Done(s.(sessions := s.sessions[sid := closed]), closed)
  }

  /** A second registration with an email already in use fails and leaves the store as it was. */
  lemma DuplicateEmailRejected(s: Store, id1: Id, id2: Id, now: Time,
                               u1: string, u2: string, email: string, h1: string, h2: string, r1: string, r2: string)
    requires id1 !in s.accounts && id2 !in s.accounts && id1 != id2
    requires Create(s, id1, now, u1, email, h1, r1).Done?
    ensures Create(Create(s, id1, now, u1, email, h1, r1).store, id2, now, u2, email, h2, r2).Failed?
  {
    var a := Create(s, id1, now, u1, email, h1, r1);
    assert a.store.accounts[id1].email == email;
  }

  /** Registering and then logging in with the same email and hash succeeds
      and opens a session owned by the new account. */
  lemma LoginAfterCreate(s: Store, id: Id, sid: Id, t0: Time, t1: Time,
                         username: string, email: string, passwordHash: string, role: string)
    requires Valid(s)
    requires id !in s.accounts && sid !in s.sessions
    requires Create(s, id, t0, username, email, passwordHash, role).Done?
    ensures var a := Create(s, id, t0, username, email, passwordHash, role);
      var l := Login(a.store, sid, t1, email, passwordHash);
      l.value.Some? && l.value.value.owner == Some(id) && l.value.value.endedAt == None
  {
    var a := Create(s, id, t0, username, email, passwordHash, role);
    assert a.store.accounts[id].email == email && a.store.accounts[id].passwordHash == passwordHash;
  }

  /** Closing a session twice leaves the second end time and the original start time. */
  lemma CloseTwiceOverwrites(s: Store, sid: Id, t1: Time, t2: Time)
    requires sid in s.sessions
    ensures var c1 := CloseSession(s, sid, t1);
      var c2 := CloseSession(c1.store, sid, t2);
      c2.Done? && c2.value.endedAt == Some(t2) && c2.value.startedAt == s.sessions[sid].startedAt
  {
  }

  /** A deleted account can no longer be looked up. */
  lemma GetAfterDelete(s: Store, id: Id)
    ensures GetById(Delete(s, id).store, id) == None
  {
  }
}
