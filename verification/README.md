# PassKeeper vault store: a Dafny model

This project models the persistence layer of PassKeeper, a desktop password
vault. The store has five tables: accounts (`Usuario`), login sessions (`Sesion`),
stored service credentials (`Contrasenia`), tags (`Etiqueta`) and
credential–tag links (`ContraseniaEtiqueta`). Each table is a map from a
primary key to a record (`Schema.Store`). Every operation that writes to the
store is a pure function from a store to an `Outcome`. An `Outcome` is either
`Done(newStore, value)` or `Failed(error)`. After a failure the caller keeps
the old store, just as the database rolls back. Lookups do not change the
store: `Accounts.GetById`, `Accounts.GetByEmail` and `Sessions.Get` return an
`Option`, `Tags.Get` returns a `Result` that fails on an unknown id, and
`Credentials.ListByOwner` is a method returning a sequence of rows.

The current time (`now`) and the id the database hands out for an insert are
parameters. An insert requires that its id is not in the table yet.
Login, lookup by email and account update require a valid store
(`Schema.Valid`). The database always keeps its constraints, so at most one
row matches an email.

Modules follow the source:

- `Wrappers`: `Option`, `Result`, `Patch` (an explicit "keep or set" field
  update), and `Supplied`. `Supplied` is Python truthiness for an optional
  text argument: `None` and `""` both mean "not supplied".
- `Schema` (`src/modelo/modelo.py`): the record types, the store, the error
  kinds, and `Valid`. `Valid` says every row is filed under its own id and no
  two accounts share a username or an email. The required text columns
  (`nullable=False`) have type `string`, so they are always present. Present
  does not mean non-empty. Note, ip, `ultima_modificacion` and `fecha_fin`
  are `Option`s. So are the foreign-key columns, which the schema leaves
  nullable: a credential's and a session's owner, and a link's credential
  and tag ids.
- `Accounts` (`UsuarioCRUD`): registration, login, lookups, partial update,
  delete, and closing a session.
- `Sessions` (`SesionCRUD`), `Credentials` (`Contraseniacrud`), `Tags`
  (`EtiquetaCRUD`), `Links` (`ContraseniaEtiquetaCRUD`).
- `Vault`: each of the 16 operations that write to the store as one step
  (`Op`, `Apply`), and whole traces of such steps (`Run`). A run from a valid store only reaches valid stores.

Missing ids are handled in two ways, as in the source:

- **Strict.** These fail with `NotFound` on an unknown id: session close,
  credential edit and delete, and tag get, update and delete.
- **Lenient.** These return `Done(s, None)` on an unknown id: account
  update and delete, session update and delete, and link delete.

Behaviour of the code worth noting:

- The code enforces no non-empty checks on account or credential fields.
  Only tag creation rejects an empty name, and a tag update may still set
  one (`Tags.UpdateMayEmptyName`).
- A session's end time can be set more than once. A second close overwrites
  it, and a session update may assign any end time, including none.
- No uniqueness is checked on (service, owner) for credentials. The check in
  `create_contrasenia` is commented out, so a test expecting a failure there
  does not match the code.

## Model

| member | source | states |
|---|---|---|
| Schema.EmptyValid | src/modelo/modelo.py:17-24 | a freshly created database meets the primary-key and the username/email uniqueness constraints |
| Accounts.Create | src/logica/CRUD.py:14-28 | registration fails with a duplicate-key error exactly when the username or the email is already in use, and the store is then unchanged; otherwise exactly one account is added with the given fields, registered at `now`, and the uniqueness constraints still hold |
| Accounts.GetById | src/logica/CRUD.py:42-46 | the lookup yields an account exactly when the id is in the table, and it is that row |
| Accounts.GetByEmail | src/logica/CRUD.py:48-52 | the lookup yields an account exactly when some account has that email, and it is the stored row with that email |
| Accounts.Login | src/logica/CRUD.py:30-40 | a session is returned if and only if an account with that email exists and its password hash equals the argument exactly; the new session belongs to that account, starts at `now` and has no end time or address, and it is the only change; otherwise the store is unchanged |
| Accounts.Update | src/logica/CRUD.py:54-69 | an unknown id changes nothing and yields nothing; each field is overwritten only when its argument is supplied and non-empty; the id and registration time never change; the update fails exactly when a supplied username or email belongs to another account |
| Accounts.Delete | src/logica/CRUD.py:71-79 | removes exactly that account and yields the removed row, or changes nothing and yields nothing for an unknown id; tags and links are untouched and the constraints still hold |
| Accounts.CloseSession | src/logica/CRUD.py:81-91 | fails with not-found exactly on an unknown session id; otherwise the end time becomes `now`, and the start time, address, owner and every other row are unchanged |
| Accounts.DuplicateEmailRejected | tests/test_CRUD.py:41-53 | a second registration with an email already in use fails, whatever the other fields are |
| Accounts.LoginAfterCreate | tests/test_CRUD.py:55-70 | logging in with the email and hash just registered returns an open session owned by the new account |
| Accounts.CloseTwiceOverwrites | src/logica/CRUD.py:84-89 | closing a session twice succeeds both times; the second end time wins and the start time is the original one |
| Accounts.GetAfterDelete | src/logica/CRUD.py:71-79 | after deleting an account id, looking it up finds nothing |
| Sessions.Create | src/logica/CRUD.py:196-204 | the new session has the given owner and address, starts at `now`, has no end time, and is the only row added |
| Sessions.Get | src/logica/CRUD.py:206-207 | the lookup yields a session exactly when the id is in the table, and it is that row |
| Sessions.Update | src/logica/CRUD.py:209-215 | an unknown id changes nothing and yields nothing; otherwise exactly the assigned fields (address, end time) change and the id, owner and start time are kept |
| Sessions.Delete | src/logica/CRUD.py:217-222 | removes exactly that session and yields it, or changes nothing and yields nothing for an unknown id |
| Sessions.GetAfterCreate | tests/test_CRUD.py:267-288 | a created session is found again by its id with the owner and address it was created with |
| Sessions.UpdateIpThenGet | tests/test_CRUD.py:290-300 | after a session's address is updated, a lookup returns the new address with the owner and end time kept |
| Sessions.GetAfterDelete | tests/test_CRUD.py:302-312 | deleting a session yields the stored row, and a later lookup finds nothing |
| Credentials.Create | src/logica/CRUD.py:97-116 | always succeeds and adds exactly one row with the given fields, created at `now`, never modified, and with the note as given; no (service, owner) check is made |
| Credentials.ListByOwner | src/logica/CRUD.py:118-120 | returns every stored credential whose owner column equals the argument (an absent owner selects the rows without one), each exactly once, each equal to its stored row, and no others |
| Credentials.Edit | src/logica/CRUD.py:122-135 | fails with not-found exactly on an unknown id; otherwise the secret and note are replaced only when supplied and non-empty, the modification time always becomes `now`, the other fields and rows are kept |
| Credentials.Delete | src/logica/CRUD.py:137-144 | fails with not-found exactly on an unknown id; otherwise removes exactly that credential and leaves the other credentials, accounts, sessions and tags as they were |
| Credentials.OwnedAfterCreate | tests/test_CRUD.py:118-160 | a new credential joins its owner's list and no other account's |
| Credentials.OwnedAfterEdit | src/logica/CRUD.py:128-133 | editing a credential changes no account's list of credential ids |
| Credentials.OwnedAfterDelete | src/logica/CRUD.py:137-144 | deleting a credential removes exactly its id from its owner's list |
| Tags.Create | src/logica/CRUD.py:159-165 | fails with an invalid-argument error exactly when the name is empty; otherwise adds exactly one tag with that name |
| Tags.Get | src/logica/CRUD.py:167-171 | fails with not-found exactly on an unknown id, else yields the stored tag |
| Tags.Update | src/logica/CRUD.py:173-181 | fails with not-found exactly on an unknown id; otherwise a given name is assigned as is, without an emptiness check, and nothing else changes |
| Tags.Delete | src/logica/CRUD.py:183-190 | fails with not-found exactly on an unknown id; otherwise removes exactly that tag and yields it unchanged, leaving accounts, sessions and credentials as they were |
| Tags.DeleteReturnsCreated | tests/test_CRUD.py:195-244 | a created tag is found by its id, deleting it returns it with its original name, and a lookup then fails |
| Tags.UpdateMayEmptyName | src/logica/CRUD.py:173-181 | an update can give an existing tag the empty name that creation would reject |
| Links.Create | src/logica/CRUD.py:228-235 | adds exactly one link row with the given credential and tag ids, with no check that either exists |
| Links.Delete | src/logica/CRUD.py:237-242 | removes exactly that link and yields it, or changes nothing and yields nothing for an unknown id |
| Links.DuplicateLinksAllowed | src/modelo/modelo.py:10-14 | the same credential and tag can be linked twice, giving two rows |
| Links.GoneAfterDelete | tests/test_CRUD.py:356-366 | a deleted link is returned with its id and is no longer in the table |
| Vault.Apply | src/modelo/modelo.py:20-22 | any single operation, including a failed one, takes a valid store to a valid store |
| Vault.Run | src/modelo/modelo.py:20-22 | every store reached by a sequence of operations from a valid store keeps usernames and emails unique and every row under its own id |
| Vault.AliceScenario | src/logica/CRUD.py:14-144 | register, log in, store, edit, then delete a credential: the session belongs to the new account, the credential is listed and unmodified, then edited with a time stamp, then no longer listed |

## Left out

- The desktop GUI (`src/vista/APP.py`). Its checks for empty form fields are front-end validation, not store rules.
- Engine and connection setup (`src/config.py`, the engine lines of `src/modelo/modelo.py`). This is database I/O.
- Clock values and id allocation. `now` and the new row's id are parameters. An insert requires an unused id, and `Vault.Run` yields nothing for a trace that breaks this. No monotonicity of time is modelled.
- Accounts.Delete: says nothing about the deleted account's sessions and credentials. The ORM relationship configuration decides whether they are kept, nulled or removed. The function leaves those tables as they are.
- Credentials.Delete: says nothing about link rows that name the deleted credential, for the same reason. The function leaves the link table as it is.
- Tags.Delete: says nothing about link rows that name the deleted tag, for the same reason. The function leaves the link table as it is.
- Foreign keys. Credentials, sessions and links are inserted without checking the ids they reference, as the code does. Whether the database engine rejects them is not modelled.
- Passing `None` for a required column, which the database rejects. The types rule it out.
- Accounts.Update: a unique-constraint clash is modelled as a failure that leaves the store unchanged. The source does not roll back, so its session stays dirty after the exception.
- Tags.Update, Sessions.Update: the source assigns arbitrary keyword fields. The model has explicit fields instead: the tag name, and the session address and end time. Assigning a session's owner or start time is not modelled.
- `obtener_contrasenias_usuario` runs the same query as `get_contrasenias_by_user`, so `Credentials.ListByOwner` models both. Printing and swallowing a database exception is not modelled.
- Encryption. The secret is an opaque string.
- Credentials.ListByOwner: requires every credential to be filed under its own id, which the primary key guarantees. It promises no order.
