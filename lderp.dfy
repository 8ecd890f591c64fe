/**
 * The generic LDAP client that the eDirectory adapter specialises, seen only
 * from outside: every request the adapter makes is appended to a log, and the
 * client's answers are fixed functions of the request. Nothing about the
 * directory server itself is modelled.
 */
module Lderp {
  import opened Js

  /** A settled promise: resolved with a value, or rejected with an error message. */
  datatype Result<+T> = Ok(value: T) | Err(error: string)

  /** The user record `findUser` resolves with; the adapter reads only its DN. */
  datatype User = User(dn: string)

  /** Whatever the client resolved a request with (for a search, the entries found). */
  datatype Reply = Reply(entries: seq<Fields>)

  /** A change descriptor as built by `buildLdapChangeObject(operation, { [key]: value })`. */
  datatype Change = Change(operation: string, key: string, value: Value)

  /** A request issued to the client. */
  datatype Op =
    | Bind(dn: string, password: Value)
    | Create(dn: string, entry: Fields)
    | Delete(dn: string)
    | Search(filter: string)
    | FindUser(cn: Slot)
    | Modify(dn: string, changes: seq<Change>)
    | ModifyDn(dn: string, newDn: string)
  {
    /** Requests that change the directory. */
    predicate IsWrite()
    {
      Create? || Delete? || Modify? || ModifyDn?
    }
  }

  /** The client: its answers, and the log of requests issued to it so far. */
  class Client {
    /** What `findUser(cn)` settles with: a failure, no user, or the user's record. */
    const lookup: Slot -> Result<Option<User>>
    /** What every other request settles with. */
    const respond: Op -> Result<Reply>
    var log: seq<Op>

    constructor (lookup: Slot -> Result<Option<User>>, respond: Op -> Result<Reply>)
      ensures this.lookup == lookup && this.respond == respond
      ensures log == []
    {
      this.lookup := lookup;
      this.respond := respond;
      log := [];
    }

    /** `findUser(cn)`. */
    method FindUser(cn: Slot) returns (r: Result<Option<User>>)
      modifies this
      ensures log == old(log) + [Op.FindUser(cn)]
      ensures r == lookup(cn)
    {
      log := log + [Op.FindUser(cn)];
      r := lookup(cn);
    }

    /** Any other request: `bindAsUser`, `createUser`, `deleteUser`, `_search`, `modifyAsync`, `modifyDNAsync`. */
    method Issue(op: Op) returns (r: Result<Reply>)
      requires !op.FindUser?
      modifies this
      ensures log == old(log) + [op]
      ensures r == respond(op)
    {
      log := log + [op];
      r := respond(op);
    }
  }
}
