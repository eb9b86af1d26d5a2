/** The tag manager. Creation rejects an empty name; lookup, update and
    delete fail on an unknown id. */
module Tags {
  import opened Wrappers
  import opened Schema

  /** Creates a tag. An empty name is rejected. */
  function Create(s: Store, id: Id, name: string): (r: Outcome<Tag>)
    requires id !in s.tags
    ensures r.Failed? <==> name == ""
    ensures r.Failed? ==> r.error == InvalidArgument
    ensures r.Done? ==>
      && r.value.id == id && r.value.name == name
      && r.store.tags == s.tags[id := r.value]
      && r.store == s.(tags := r.store.tags)
    ensures r.Done? && Valid(s) ==> Valid(r.store)
  {
    if name == "" then
      Failed(InvalidArgument)
    else
      var t := Tag(id, name);
      Done(s.(tags := s.tags[id := t]), t)
  }

  /** The tag with this id; an unknown id fails. */
  function Get(s: Store, id: Id): (r: Result<Tag, Error>)
    ensures r.Failure? <==> id !in s.tags
    ensures r.Failure? ==> r.error == NotFound
    ensures r.Success? ==> r.value == s.tags[id]
  {
    if id in s.tags then Success(s.tags[id]) else Failure(NotFound)
  }

  /** Assigns the name when one is given; no emptiness check is made here.
      An unknown id fails. */
  function Update(s: Store, id: Id, name: Patch<string>): (r: Outcome<Tag>)
    ensures r.Failed? <==> id !in s.tags
    ensures r.Failed? ==> r.error == NotFound
    ensures r.Done? ==>
      && r.value.id == s.tags[id].id
      && (name.Set? ==> r.value.name == name.value)
      && (name.Keep? ==> r.value == s.tags[id])
      && r.store == s.(tags := s.tags[id := r.value])
    ensures r.Done? && Valid(s) ==> Valid(r.store)
  {
    match Get(s, id)
    case Failure(e) => Failed(e)
    case Success(t) =>
      var t' := t.(name := name.Apply(t.name));
      Done(s.(tags := s.tags[id := t']), t')
  }

  /** Removes a tag and yields the removed row unchanged; an unknown id fails.
      Accounts, sessions and credentials are untouched. */
  function Delete(s: Store, id: Id): (r: Outcome<Tag>)
    ensures r.Failed? <==> id !in s.tags
    ensures r.Failed? ==> r.error == NotFound
    ensures r.Done? ==>
      && r.value == s.tags[id]
      && r.store.tags.Keys == s.tags.Keys - {id}
      && (forall k :: k in r.store.tags ==> r.store.tags[k] == s.tags[k])
      && r.store.accounts == s.accounts && r.store.sessions == s.sessions && r.store.credentials == s.credentials
    ensures r.Done? && Valid(s) ==> Valid(r.store)
  {
    match Get(s, id)
    case Failure(e) => Failed(e)
    case Success(t) => Done(s.(tags := s.tags - {id}), t)
  }

  /** A created tag can be read back, and deleting it returns it with the name it was created with. */
  lemma DeleteReturnsCreated(s: Store, id: Id, name: string)
    requires id !in s.tags && name != ""
    ensures var c := Create(s, id, name);
      && Get(c.store, id) == Success(c.value)
      && var d := Delete(c.store, id);
      && d.Done? && d.value.name == name && Get(d.store, id).Failure?
  {
  }

  /** Only creation checks the name: an update may leave a tag with an empty name. */
  lemma UpdateMayEmptyName(s: Store, id: Id)
    requires id in s.tags
    ensures var r := Update(s, id, Set(""));
      r.Done? && r.value.name == "" && Get(r.store, id) == Success(r.value)
  {
  }
}
