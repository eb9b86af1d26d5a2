/** The credential store: create, list by owner, edit and delete stored
    service credentials. Edit and delete fail on an unknown id. */
module Credentials {
  import opened Wrappers
  import opened Schema

  /** Ids of the credentials owned by `owner`: what a list by owner must return. */
  ghost function OwnedIds(s: Store, owner: Option<Id>): set<Id> {
    set k | k in s.credentials && s.credentials[k].owner == owner
  }

  /** Stores a new credential, created at `now`, never modified yet, with the
      note as given. Several credentials may share a service and an owner;
      the owner id is not checked against the accounts, and may be absent. */
  function Create(s: Store, id: Id, now: Time, service: string, serviceUsername: string,
                  secret: string, owner: Option<Id>, note: Option<string>): (r: Outcome<Credential>)
    requires id !in s.credentials
    ensures r.Done?
    ensures r.value.id == id && r.value.owner == owner
    ensures r.value.service == service && r.value.serviceUsername == serviceUsername && r.value.secret == secret
    ensures r.value.createdAt == now && r.value.lastModified == None && r.value.note == note
    ensures r.store.credentials == s.credentials[id := r.value]
    ensures r.store == s.(credentials := r.store.credentials)
    ensures Valid(s) ==> Valid(r.store)
  {
    var c := Credential(id, service, serviceUsername, secret, now, None, note, owner);
    Done(s.(credentials := s.credentials[id := c]), c)
  }

  /** All credentials whose owner column equals `owner` (for an absent owner,
      the rows without one), each exactly once, in no promised order. */
  method ListByOwner(s: Store, owner: Option<Id>) returns (rows: seq<Credential>)
    requires CredentialsKeyed(s.credentials)
    ensures forall i :: 0 <= i < |rows| ==> rows[i].id in s.credentials && s.credentials[rows[i].id] == rows[i]
    ensures forall i :: 0 <= i < |rows| ==> rows[i].owner == owner
    ensures forall i, j :: 0 <= i < j < |rows| ==> rows[i].id != rows[j].id
    ensures forall k :: k in s.credentials && s.credentials[k].owner == owner ==> s.credentials[k] in rows
    ensures forall k :: k in OwnedIds(s, owner) <==> exists i :: 0 <= i < |rows| && rows[i].id == k
  {
    rows := [];
    var todo := s.credentials.Keys;
    ghost var seen: set<Id> := {};
    while todo != {}
      invariant todo <= s.credentials.Keys
      invariant seen == OwnedIds(s, owner) - todo
      invariant forall i :: 0 <= i < |rows| ==> rows[i].id in seen && s.credentials[rows[i].id] == rows[i]
      invariant forall i, j :: 0 <= i < j < |rows| ==> rows[i].id != rows[j].id
      invariant forall k :: k in seen ==> s.credentials[k] in rows
      decreases todo
    {
      var k :| k in todo;
      if s.credentials[k].owner == owner {
        rows := rows + [s.credentials[k]];
        seen := seen + {k};
      }
      todo := todo - {k};
    }
  }

  /** Replaces the secret and the note when they are supplied and non-empty,
      and always stamps the modification time with `now`. An unknown id fails. */
  function Edit(s: Store, id: Id, now: Time, secret: Option<string>, note: Option<string>): (r: Outcome<Credential>)
    ensures r.Failed? <==> id !in s.credentials
    ensures r.Failed? ==> r.error == NotFound
    ensures r.Done? ==>
      && var before := s.credentials[id];
      && Assigned(secret, before.secret, r.value.secret)
      && (Supplied(note) ==> r.value.note == note)
      && (!Supplied(note) ==> r.value.note == before.note)
      && r.value.lastModified == Some(now)
      && r.value.id == before.id && r.value.owner == before.owner && r.value.service == before.service
      && r.value.serviceUsername == before.serviceUsername && r.value.createdAt == before.createdAt
      && r.store == s.(credentials := s.credentials[id := r.value])
    ensures r.Done? && Valid(s) ==> Valid(r.store)
  {
    if id !in s.credentials then
      Failed(NotFound)
    else
      var c := s.credentials[id];
      var c' := c.(secret := Pick(secret, c.secret),
                   note := if Supplied(note) then note else c.note,
                   lastModified := Some(now));
      Done(s.(credentials := s.credentials[id := c']), c')
  }

  /** Removes exactly the credential with this id. An unknown id fails.
      Accounts, sessions and tags are untouched. */
  function Delete(s: Store, id: Id): (r: Outcome<()>)
    ensures r.Failed? <==> id !in s.credentials
    ensures r.Failed? ==> r.error == NotFound
    ensures r.Done? ==>
      && r.store.credentials.Keys == s.credentials.Keys - {id}
      && (forall k :: k in r.store.credentials ==> r.store.credentials[k] == s.credentials[k])
      && r.store.accounts == s.accounts && r.store.sessions == s.sessions && r.store.tags == s.tags
    ensures r.Done? && Valid(s) ==> Valid(r.store)
  {
    if id !in s.credentials then
      Failed(NotFound)
    else
      Done(s.(credentials := s.credentials - {id}), ())
  }

  /** A new credential joins its owner's list and no one else's. */
  lemma OwnedAfterCreate(s: Store, id: Id, now: Time, service: string, serviceUsername: string,
                         secret: string, owner: Option<Id>, note: Option<string>, other: Option<Id>)
    requires id !in s.credentials
    ensures var r := Create(s, id, now, service, serviceUsername, secret, owner, note);
      && OwnedIds(r.store, owner) == OwnedIds(s, owner) + {id}
      && (other != owner ==> OwnedIds(r.store, other) == OwnedIds(s, other))
  {
  }

  /** Editing changes no owner, so every account's list keeps the same ids. */
  lemma OwnedAfterEdit(s: Store, id: Id, now: Time, secret: Option<string>, note: Option<string>, owner: Option<Id>)
    requires id in s.credentials
    ensures OwnedIds(Edit(s, id, now, secret, note).store, owner) == OwnedIds(s, owner)
  {
  }

  /** A deleted credential leaves its owner's list and nothing else changes there. */
  lemma OwnedAfterDelete(s: Store, id: Id, owner: Option<Id>)
    requires id in s.credentials
    ensures OwnedIds(Delete(s, id).store, owner) == OwnedIds(s, owner) - {id}
  {
  }
}
