/** The vault as a whole: every store operation as one step of a trace, and
    the facts that hold of every trace, chiefly that no sequence of
    operations can break the schema's constraints. */
module Vault {
  import opened Wrappers
  import opened Schema
  import Accounts
  import Sessions
  import Credentials
  import Tags
  import Links

  /** One call into the store, with the time it happens at and, for an
      insert, the id the database hands out. */
  datatype Op =
    | Register(id: Id, now: Time, username: string, email: string, passwordHash: string, role: string)
    | Login(id: Id, now: Time, email: string, passwordHash: string)
    | UpdateAccount(id: Id, newUsername: Option<string>, newEmail: Option<string>,
                    newPasswordHash: Option<string>, newRole: Option<string>)
    | DeleteAccount(id: Id)
    | CloseSession(id: Id, now: Time)
    | AddCredential(id: Id, now: Time, service: string, serviceUsername: string,
                    secret: string, owner: Option<Id>, note: Option<string>)
    | EditCredential(id: Id, now: Time, newSecret: Option<string>, newNote: Option<string>)
    | DeleteCredential(id: Id)
    | AddTag(id: Id, name: string)
    | UpdateTag(id: Id, newName: Patch<string>)
    | DeleteTag(id: Id)
    | OpenSession(id: Id, now: Time, owner: Option<Id>, ip: Option<string>)
    | UpdateSession(id: Id, newIp: Patch<Option<string>>, newEndedAt: Patch<Option<Time>>)
    | DeleteSession(id: Id)
    | AddLink(id: Id, credential: Option<Id>, tag: Option<Id>)
    | DeleteLink(id: Id)

  /** An insert names an id the table does not hold yet, as the database's
      id allocation guarantees. Every other operation is always enabled. */
  predicate Enabled(s: Store, op: Op) {
    match op
    case Register(id, _, _, _, _, _) => id !in s.accounts
    case Login(id, _, _, _) => id !in s.sessions
    case AddCredential(id, _, _, _, _, _, _) => id !in s.credentials
    case AddTag(id, _) => id !in s.tags
    case OpenSession(id, _, _, _) => id !in s.sessions
    case AddLink(id, _, _) => id !in s.links
    case _ => true
  }

  /** The store after one operation; a failed operation leaves it unchanged. */
  function Apply(s: Store, op: Op): (r: Store)
    requires Valid(s) && Enabled(s, op)
    ensures Valid(r)
  {
    match op
    case Register(id, now, u, e, h, role) => After(s, Accounts.Create(s, id, now, u, e, h, role))
    case Login(id, now, e, h) => After(s, Accounts.Login(s, id, now, e, h))
    case UpdateAccount(id, u, e, h, role) => After(s, Accounts.Update(s, id, u, e, h, role))
    case DeleteAccount(id) => After(s, Accounts.Delete(s, id))
    case CloseSession(id, now) => After(s, Accounts.CloseSession(s, id, now))
    case AddCredential(id, now, svc, su, sec, owner, note) =>
      After(s, Credentials.Create(s, id, now, svc, su, sec, owner, note))
    case EditCredential(id, now, sec, note) => After(s, Credentials.Edit(s, id, now, sec, note))
    case DeleteCredential(id) => After(s, Credentials.Delete(s, id))
    case AddTag(id, name) => After(s, Tags.Create(s, id, name))
    case UpdateTag(id, name) => After(s, Tags.Update(s, id, name))
    case DeleteTag(id) => After(s, Tags.Delete(s, id))
    case OpenSession(id, now, owner, ip) => After(s, Sessions.Create(s, id, now, owner, ip))
    case UpdateSession(id, ip, ended) => After(s, Sessions.Update(s, id, ip, ended))
    case DeleteSession(id) => After(s, Sessions.Delete(s, id))
    case AddLink(id, c, t) => After(s, Links.Create(s, id, c, t))
    case DeleteLink(id) => After(s, Links.Delete(s, id))
  }

  /** Runs a trace of operations from `s`. The result is absent when some
      insert names an id already in use, which no real run can do. Every
      store a run reaches meets the schema's constraints. */
  function Run(s: Store, ops: seq<Op>): (r: Option<Store>)
    requires Valid(s)
    ensures r.Some? ==> Valid(r.value)
    decreases |ops|
  {
    if ops == [] then Some(s)
    else if !Enabled(s, ops[0]) then None
    else Run(Apply(s, ops[0]), ops[1..])
  }

  /** Registration, login, storing, editing and deleting a credential, end to end. */
  lemma AliceScenario()
    ensures
      var a := Accounts.Create(Empty, 1, 100, "alice", "alice@x.com", "secret1", "user");
      && a.Done?
      && var l := Accounts.Login(a.store, 7, 101, "alice@x.com", "secret1");
      && l.value.Some? && l.value.value.owner == Some(a.value.id) && l.value.value.endedAt == None
      && var c := Credentials.Create(l.store, 3, 102, "github", "alice_gh", "p@ss", Some(a.value.id), None);
      && Credentials.OwnedIds(c.store, Some(a.value.id)) == {3}
      && c.store.credentials[3].service == "github" && c.store.credentials[3].serviceUsername == "alice_gh"
      && c.store.credentials[3].secret == "p@ss" && c.store.credentials[3].lastModified == None
      && var e := Credentials.Edit(c.store, 3, 103, Some("p@ss2"), None);
      && e.Done? && e.value.secret == "p@ss2" && e.value.lastModified.Some?
      && Credentials.OwnedIds(e.store, Some(a.value.id)) == {3}
      && var d := Credentials.Delete(e.store, 3);
      && d.Done? && Credentials.OwnedIds(d.store, Some(a.value.id)) == {}
  {
    EmptyValid();
    var a := Accounts.Create(Empty, 1, 100, "alice", "alice@x.com", "secret1", "user");
    assert a.store.accounts[1].email == "alice@x.com" && a.store.accounts[1].passwordHash == "secret1";
  }
}
