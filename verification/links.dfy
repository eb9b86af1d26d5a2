/** Rows of the credential-tag association table. Creation checks nothing;
    deleting an unknown id is tolerated. */
module Links {
  import opened Wrappers
  import opened Schema

  /** Links a credential to a tag. Neither id is checked, and the same pair
      may be linked any number of times. */
  function Create(s: Store, id: Id, credential: Option<Id>, tag: Option<Id>): (r: Outcome<Link>)
    requires id !in s.links
    ensures r.Done?
    ensures r.value.id == id && r.value.credential == credential && r.value.tag == tag
    ensures r.store.links == s.links[id := r.value]
    ensures r.store == s.(links := r.store.links)
    ensures Valid(s) ==> Valid(r.store)
  {
    var l := Link(id, credential, tag);
    Done(s.(links := s.links[id := l]), l)
  }

  /** Removes a link and yields it; an unknown id changes nothing and yields no link. */
  function Delete(s: Store, id: Id): (r: Outcome<Option<Link>>)
    ensures r.Done?
    ensures id !in s.links ==> r.store == s && r.value == None
    ensures id in s.links ==> r.value == Some(s.links[id])
    ensures r.store.links.Keys == s.links.Keys - {id}
    ensures forall k :: k in r.store.links ==> r.store.links[k] == s.links[k]
    ensures r.store == s.(links := r.store.links)
    ensures Valid(s) ==> Valid(r.store)
  {
    if id in s.links then Done(s.(links := s.links - {id}), Some(s.links[id])) else Done(s, None)
  }

  /** Linking the same credential and tag twice stores two distinct rows. */
  lemma DuplicateLinksAllowed(s: Store, id1: Id, id2: Id, credential: Option<Id>, tag: Option<Id>)
    requires id1 !in s.links && id2 !in s.links && id1 != id2
    ensures var a := Create(s, id1, credential, tag);
      var b := Create(a.store, id2, credential, tag);
      && b.store.links[id1].credential == b.store.links[id2].credential == credential
      && b.store.links[id1].tag == b.store.links[id2].tag == tag
  {
  }

  /** After a link is deleted its id is no longer in the table. */
  lemma GoneAfterDelete(s: Store, id: Id)
    requires id in s.links
    ensures var r := Delete(s, id);
      r.value.Some? && r.value.value.id == s.links[id].id && id !in r.store.links
  {
  }
}
