/** The five tables of the vault database, the records stored in them, and
    the constraints the schema declares on them. */
module Schema {
  import opened Wrappers

  /** A primary key. */
  type Id = nat

  /** A point in time; the store rules never compare two of them. */
  type Time = nat

  /** A registered user. `username` and `email` are unique across accounts. */
  datatype Account = Account(
    id: Id,
    username: string,
    email: string,
    passwordHash: string,
    role: string,
    registeredAt: Time)

  /** A stored service credential, normally owned by one account. The secret
      is an opaque string. Foreign-key columns are nullable, so the owner,
      like a session's owner and a link's two ids, is an `Option`. */
  datatype Credential = Credential(
    id: Id,
    service: string,
    serviceUsername: string,
    secret: string,
    createdAt: Time,
    lastModified: Option<Time>,
    note: Option<string>,
    owner: Option<Id>)

  /** A free-form label. */
  datatype Tag = Tag(id: Id, name: string)

  /** One login of an account: open while `endedAt` is absent. */
  datatype Session = Session(
    id: Id,
    startedAt: Time,
    endedAt: Option<Time>,
    ip: Option<string>,
    owner: Option<Id>)

  /** A row of the credential-tag association table. Nothing makes the
      (credential, tag) pair unique. */
  datatype Link = Link(id: Id, credential: Option<Id>, tag: Option<Id>)

  /** The whole database: one id-keyed map per table. */
  datatype Store = Store(
    accounts: map<Id, Account>,
    sessions: map<Id, Session>,
    credentials: map<Id, Credential>,
    tags: map<Id, Tag>,
    links: map<Id, Link>)

  /** The freshly created database. */
  const Empty: Store := Store(map[], map[], map[], map[], map[])

  /** The ways an operation on the store can fail. */
  datatype Error =
    | DuplicateKey     // a unique constraint on accounts would be broken
    | NotFound         // a strict operation named an id that has no row
    | InvalidArgument  // a tag name was empty

  /** The result of an operation: the new store and a returned value, or an
      error, in which case the store is left as it was. */
  datatype Outcome<+T> = Done(store: Store, value: T) | Failed(error: Error)

  /** The store after an operation: unchanged when it failed. */
  function After<T>(s: Store, o: Outcome<T>): Store {
    if o.Done? then o.store else s
  }

  // Every row is filed under its own primary key.

  ghost predicate AccountsKeyed(m: map<Id, Account>) {
    forall k :: k in m ==> m[k].id == k
  }

  ghost predicate SessionsKeyed(m: map<Id, Session>) {
    forall k :: k in m ==> m[k].id == k
  }

  ghost predicate CredentialsKeyed(m: map<Id, Credential>) {
    forall k :: k in m ==> m[k].id == k
  }

  ghost predicate TagsKeyed(m: map<Id, Tag>) {
    forall k :: k in m ==> m[k].id == k
  }

  ghost predicate LinksKeyed(m: map<Id, Link>) {
    forall k :: k in m ==> m[k].id == k
  }

  /** Some account already uses this username. */
  predicate UsernameTaken(m: map<Id, Account>, name: string) {
    exists k :: k in m && m[k].username == name
  }

  /** Some account already uses this email. */
  predicate EmailTaken(m: map<Id, Account>, email: string) {
    exists k :: k in m && m[k].email == email
  }

  /** No two accounts share a username. */
  ghost predicate UniqueUsernames(m: map<Id, Account>) {
    forall i, j :: i in m && j in m && m[i].username == m[j].username ==> i == j
  }

  /** No two accounts share an email. */
  ghost predicate UniqueEmails(m: map<Id, Account>) {
    forall i, j :: i in m && j in m && m[i].email == m[j].email ==> i == j
  }

  /** The constraints the schema declares: primary keys and the two unique columns. */
  ghost predicate Valid(s: Store) {
    && AccountsKeyed(s.accounts)
    && SessionsKeyed(s.sessions)
    && CredentialsKeyed(s.credentials)
    && TagsKeyed(s.tags)
    && LinksKeyed(s.links)
    && UniqueUsernames(s.accounts)
    && UniqueEmails(s.accounts)
  }

  /** The empty database meets every constraint. */
  lemma EmptyValid()
    ensures Valid(Empty)
  {
  }
}
