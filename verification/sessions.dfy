/** Session rows as the session manager handles them: open, look up,
    field update and delete. Unknown ids are tolerated (the lookup is empty). */
module Sessions {
  import opened Wrappers
  import opened Schema

  /** Opens a session for `owner`: it starts at `now`, has no end time yet,
      and records the given source address. */
  function Create(s: Store, id: Id, now: Time, owner: Option<Id>, ip: Option<string>): (r: Outcome<Session>)
    requires id !in s.sessions
    ensures r.Done?
    ensures r.value.id == id && r.value.owner == owner && r.value.ip == ip
    ensures r.value.startedAt == now && r.value.endedAt == None
    ensures r.store.sessions == s.sessions[id := r.value]
    ensures r.store == s.(sessions := r.store.sessions)
    ensures Valid(s) ==> Valid(r.store)
  {
    var ses := Session(id, now, None, ip, owner);
    Done(s.(sessions := s.sessions[id := ses]), ses)
  }

  /** The session with this id, if there is one. */
  function Get(s: Store, id: Id): (r: Option<Session>)
    ensures r.Some? <==> id in s.sessions
    ensures r.Some? ==> r.value == s.sessions[id]
  {
    if id in s.sessions then Some(s.sessions[id]) else None
  }

  /** Assigns the supplied fields of a session; an unknown id changes nothing
      and yields no session. */
  function Update(s: Store, id: Id, ip: Patch<Option<string>>, endedAt: Patch<Option<Time>>): (r: Outcome<Option<Session>>)
    ensures r.Done?
    ensures id !in s.sessions ==> r.store == s && r.value == None
    ensures id in s.sessions ==>
      && r.value.Some?
      && var before, after := s.sessions[id], r.value.value;
      && after.ip == ip.Apply(before.ip)
      && after.endedAt == endedAt.Apply(before.endedAt)
      && after.id == before.id && after.owner == before.owner && after.startedAt == before.startedAt
      && r.store == s.(sessions := s.sessions[id := after])
    ensures Valid(s) ==> Valid(r.store)
  {
    match Get(s, id)
    case None => Done(s, None)
    case Some(ses) =>
      var ses' := ses.(ip := ip.Apply(ses.ip), endedAt := endedAt.Apply(ses.endedAt));
      Done(s.(sessions := s.sessions[id := ses']), Some(ses'))
  }

  /** Removes a session and yields it; an unknown id changes nothing and yields no session. */
  function Delete(s: Store, id: Id): (r: Outcome<Option<Session>>)
    ensures r.Done?
    ensures id !in s.sessions ==> r.store == s && r.value == None
    ensures id in s.sessions ==> r.value == Some(s.sessions[id])
    ensures r.store.sessions.Keys == s.sessions.Keys - {id}
    ensures forall k :: k in r.store.sessions ==> r.store.sessions[k] == s.sessions[k]
    ensures r.store == s.(sessions := r.store.sessions)
    ensures Valid(s) ==> Valid(r.store)
  {
    match Get(s, id)
    case None => Done(s, None)
    case Some(ses) => Done(s.(sessions := s.sessions - {id}), Some(ses))
  }

  /** A session just opened can be read back with the owner and address it was opened with. */
  lemma GetAfterCreate(s: Store, id: Id, now: Time, owner: Option<Id>, ip: Option<string>)
    requires id !in s.sessions
    ensures var r := Create(s, id, now, owner, ip);
      Get(r.store, id) == Some(r.value) && r.value.owner == owner && r.value.ip == ip
  {
  }

  /** A new address given to a session is the one read back, and the rest of the session is kept. */
  lemma UpdateIpThenGet(s: Store, id: Id, ip: Option<string>)
    requires id in s.sessions
    ensures var r := Update(s, id, Set(ip), Keep);
      && Get(r.store, id).Some? && Get(r.store, id).value.ip == ip
      && Get(r.store, id).value.owner == s.sessions[id].owner
      && Get(r.store, id).value.endedAt == s.sessions[id].endedAt
  {
  }

  /** Deleting a session returns the row that was stored, and a later lookup finds nothing. */
  lemma GetAfterDelete(s: Store, id: Id)
    requires id in s.sessions
    ensures var r := Delete(s, id);
      r.value == Get(s, id) && Get(r.store, id) == None
  {
  }
}
