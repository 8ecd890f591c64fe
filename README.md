# lderp-edir: the eDirectory adapter, modelled in Dafny

`lib/edir.js` specialises a generic LDAP client (`lderp`) for Novell/NetIQ
eDirectory. It builds distinguished names as `cn=<cn>,<baseDn>`. It builds
a new-user entry with a fixed list of five object classes and a `uid` equal
to its `cn` (`buildUserEntry`). Its own `createUser` does not call that
builder: it passes the raw options to the generic client, and any use of the
builder there lies inside `lderp`, which is not part of this model. It builds a search filter for users whose common name holds no e-mail
address. Its `modifyUser` maps the user-facing aliases `username`,
`firstname`, `lastname`, `email` and `password` onto the LDAP attributes
`cn`, `givenName`, `sn`, `mail` and `userPassword`. Then it looks the user
up, replaces each resulting attribute in one modify request, and renames the
entry when a new name was given.

Every module is proved by Dafny:

- `Js` (`js.dfy`) holds the JavaScript values the adapter handles: `null`, strings and string arrays, with `undefined` as an absent key. It also holds truthiness, `a || b` (`OrElse`), `String(v)` (`ToStr`), and a mutable object (`JsObject`) for the options object that `modifyUser` changes in place.
- `Lderp` (`lderp.dfy`) is the generic client seen from outside. It appends every request to a log. Its answers are fixed functions of the request: `lookup` for `findUser` and `respond` for everything else.
- `EdirEntries` (`edir_entries.dfy`) holds the pure builders: the object-class list, the new-user entry, and the filter of `findAllEmailAddressless`. `Strip` is their inverse, so the contracts can say that caller text lands in the result verbatim. Nothing is escaped.
- `EdirModify` (`edir_modify.dfy`) holds two reference definitions. `Normalized` is a table-driven definition of the attributes `modifyUser` sends. `IsChangeList` defines what a change list for them is. `BuildChanges` is the loop that builds one.
- `Edir` (`edir.dfy`) holds the `EdirLdap` class. It has the configuration fields, `BuildDn`, and the five exposed operations, each issued to a `Client`. `ModifyUser` performs the source's assignments one by one on the caller's object and is proved to agree with `Normalized`. `ModifyOutcome` describes which requests it issues and what it settles with. The lemmas beside it state the properties of that sequence.

Three facts about `lib/edir.js` that the model follows:

- In `lib/edir.js`, `bindAsZombie` takes two arguments (username, password). There is no separate DN argument.
- `firstname` maps to `givenName` and `lastname` to `sn`.
- The rename comes after the attribute modify.

## Model

| member | source | states |
|---|---|---|
| `Js.OrElse` | lib/edir.js:58-63 | JavaScript logical OR with a defined right operand: a truthy left operand is kept, a falsy one yields the right operand (so `"" || null` is `null`); the result is one of the operands and is truthy iff either operand is |
| `Edir.EdirLdap.constructor` | lib/edir.js:7-14 | the name is `edir`; `usernameAttribute`, `zombieUsername`, `zombiePassword` are the option when truthy and `'cn'`, `''`, `''` otherwise; an absent options object reads as `{}` |
| `Edir.EdirLdap.BuildDn` | lib/edir.js:22-24 | the DN is `cn=`, the common name as text, `,` and the base DN: the common name's text is read back unchanged from the DN, so nothing is escaped |
| `Edir.EdirLdap.BuildDnInjective` | lib/edir.js:22-24 | two common names give the same DN only when their text is the same |
| `Edir.EdirLdap.BuildDnExample` | lib/edir.js:22-24 | `buildDn("alice")` under `dc=example,dc=com` is `cn=alice,dc=example,dc=com` |
| `EdirEntries.BuildObjectClass` | lib/edir.js:26-34 | always the five distinct names inetOrgPerson, organizationalPerson, Person, ndsLoginProperties, Top, in that order |
| `EdirEntries.BuildUserEntry` | lib/edir.js:36-41 | the entry keeps every input key other than `objectClass`/`uid` with its value, sets `objectClass` to the fixed list, and has `uid` equal to `cn` (both absent when there is no `cn`); the input map is a value and is not changed |
| `EdirEntries.UserEntryExample` | lib/edir.js:36-41 | `buildUserEntry({cn: "alice"})` is `{cn: "alice", uid: "alice", objectClass: <the fixed list>}` |
| `EdirEntries.EmailAddresslessFilter` | lib/edir.js:51-53 | the filter is `(&(cn=`, the prefix as text, `*)(!(cn=*@*)))`: the prefix is read back unchanged from the filter |
| `EdirEntries.EmailAddresslessFilterInjective` | lib/edir.js:51-53 | different prefixes give different filters |
| `EdirEntries.EmailAddresslessFilterExample` | lib/edir.js:51-53 | the filter for `jdoe` is `(&(cn=jdoe*)(!(cn=*@*)))` |
| `Edir.EdirLdap.BindAsZombie` | lib/edir.js:18-20 | issues exactly one bind. Its DN is built from the username argument when truthy, else the configured one. Its password is the argument when truthy, else the configured one. With no arguments both configured values are used. The result is the client's answer |
| `Edir.EdirLdap.CreateUser` | lib/edir.js:43-45 | issues exactly one create at `BuildDn(options.cn)` carrying the fields unchanged, and settles with the client's answer; without an options object it fails with the TypeError and issues nothing |
| `Edir.EdirLdap.DeleteUser` | lib/edir.js:47-49 | issues exactly one delete at `BuildDn(cn)` and settles with the client's answer |
| `Edir.EdirLdap.FindAllEmailAddressless` | lib/edir.js:51-53 | issues exactly one search with `EmailAddresslessFilter(startsWith)` and settles with the client's answer |
| `EdirModify.NewCn` | lib/edir.js:58 | the new name is `cn` when truthy, else `username` when truthy, else null; it is truthy iff one of the two is |
| `EdirModify.Normalized` | lib/edir.js:57-65 | no alias key and no null value remains; every key comes from the input or is one of uid/givenName/mail/sn/userPassword; every other non-null caller key passes through unchanged, and every sent key outside uid/givenName/mail/sn/userPassword carries the caller's value, so a caller key holding null is dropped |
| `EdirModify.AttributePrecedence` | lib/edir.js:60-63 | for `givenName`/`mail`/`sn`/`userPassword`: sent iff it or its alias is truthy; the explicit attribute wins when truthy, else the alias value is sent |
| `EdirModify.UidTracksNewName` | lib/edir.js:58-59 | `uid` is sent iff an explicit `uid` or the new name is truthy; an explicit truthy `uid` wins, otherwise it is the new name |
| `EdirModify.EmailOnlyExample` | lib/edir.js:57-65 | `{email: "a@x.com"}` sends exactly `mail` and gives no new name |
| `EdirModify.UsernameOnlyExample` | lib/edir.js:57-65 | `{username: "bob"}` sends exactly `uid = "bob"` and gives the new name `bob` |
| `EdirModify.AssignedIsResolved` | lib/edir.js:59-63 | the five assignments in source order give each of uid/givenName/mail/sn/userPassword its resolved value and leave every other key alone |
| `EdirModify.OmitNulls` | lib/edir.js:65 | keeps exactly the entries whose value is not null, with their values |
| `EdirModify.OmittedIsNormalized` | lib/edir.js:64-65 | dropping the alias keys and then the nulls from the assigned fields gives exactly `Normalized` |
| `Edir.ResolveAliases` | lib/edir.js:59-65 | changes the caller's object to its assigned form and returns exactly `Normalized` of the original fields |
| `EdirModify.BuildChanges` | lib/edir.js:72-74 | returns one `replace` change per field, each with that field's value, no key twice, every field covered, in some key order |
| `EdirModify.ChangeListLength` | lib/edir.js:72-74 | any change list in the sense of `IsChangeList` has exactly as many changes as there are fields |
| `Edir.EdirLdap.ModifyUser` | lib/edir.js:55-86 | updates the caller's object in place (when there is one). The log grows by exactly the issued requests, and these satisfy `ModifyOutcome` for the normalised fields and the new name. `user` becomes the located user, or is left as it was |
| `Edir.EdirLdap.Settle` | lib/edir.js:66-84 | the promise chain: find, then one modify, then a rename only with a truthy new name. The result is the modify's unless the step that failed was the lookup or the rename |
| `Edir.EdirLdap.ModifyWritesNothingUnlessLocated` | lib/edir.js:66-70 | when no user is located, only the lookup is issued, nothing is written, and the call fails: with "User could not be located" when the lookup found no one, or with the lookup's own error |
| `Edir.EdirLdap.ModifyReplacesEachFieldOnce` | lib/edir.js:71-75 | with a located user, exactly one modify is issued, second, against the user's DN. It holds exactly one replace per normalised field, with that field's value |
| `Edir.EdirLdap.ModifyRenamesIffNewName` | lib/edir.js:77-84 | a rename is issued iff the user was located, the modify succeeded and the new name is truthy. It is issued last, after the modify, from the user's DN to `BuildDn(newCn)`. If it succeeds the result is the modify's |
| `Edir.EdirLdap.RenameKeepsUidInSync` | lib/edir.js:59-82 | when a user without an explicit `uid` is renamed, the modify replaces `uid` with a value whose text is the common name of the new DN |

## Left out

- The connection, the host argument and the generic client's constructor (`Ldap.call`, `util.inherits`) are not modelled. The base DN, which that constructor sets, is a constructor parameter here.
- Everything delegated to `lderp` and its `_client` is not modelled: `bindAsUser`, `_search`, `findUser`, `createUser`, `deleteUser`, `modifyAsync`, `modifyDNAsync`. Each is an entry in the request log, and its answer is a fixed function of the request. Writes do not change later answers, and the directory's contents are not modelled.
- `buildLdapChangeObject` belongs to the generic client. Here it is the `Change` datatype constructor.
- Promises (`then`, `return`) become a sequential method that settles with `Ok` or `Err`. The TypeError that `createUser` throws synchronously without an options object becomes an `Err` result.
- Concurrency is not modelled. `modifyUser` keeps the located user in the shared field `self.user` and reads it back for the rename. Two overlapping calls on one instance could therefore rename the wrong entry; the model runs calls one at a time.
- Values are `null`, strings and string arrays. Numbers, booleans and nested objects are not modelled. A key holding `undefined` is treated as absent. So `BuildUserEntry` without a `cn` leaves `uid` out, where JavaScript stores `undefined` under it. Likewise in `modifyUser`, a caller key holding `undefined` survives `_.omit(options, _.isNull)` (lib/edir.js:65) and `_.map` sends a replace change for it (lib/edir.js:72-74); the model has no such key and sends no such change.
- The search filter is modelled as text only. How the server evaluates it is not modelled.
- The order of the change list follows JavaScript key order. The model fixes no order and promises one change per key.
- `_.omit(options, _.isNull)` is modelled as dropping null-valued keys. That is lodash 3 behaviour. Lodash 4's `omit` takes no predicate and would keep them. The lodash version is not part of this model.
- `_.clone` copies shallowly. Field values here are immutable, so shallow and deep copies cannot be told apart.
- `usernameAttribute` is configured but this file never reads it; it is kept as a field only.
