/**
 * The eDirectory adapter: its configuration, the DN builder, and the
 * operations it exposes, each issued to the generic client `Lderp.Client`.
 */
module Edir {
  import opened Js
  import opened Lderp
  import opened EdirEntries
  import opened EdirModify

  const UserNotLocated := "User could not be located"

  /**
   * A representative message for what reading `options.cn` throws when
   * `createUser` is called without an object (Node's wording for `undefined`;
   * `null` and other Node versions word it differently).
   */
  const NoOptions := "TypeError: Cannot read properties of undefined (reading 'cn')"

  /**
   * The assignments and omissions `modifyUser` applies to its options, given
   * the new name it read from them first: the attributes are assigned on the
   * caller's object itself; the two omissions build new objects, so the caller
   * sees the assigned attributes only.
   */
  method ResolveAliases(options: JsObject, newCn: Value) returns (fields: Fields)
    requires newCn == NewCn(options.fields)
    modifies options
    ensures options.fields == Assigned(old(options.fields))
    ensures fields == Normalized(old(options.fields))
  {
    ghost var o := options.fields;
    ResolvedEach(o);
    options.fields := options.fields["uid" := OrElse(Get(options.fields, "uid"), OrElse(Some(newCn), Null))];
    assert Get(options.fields, "givenName") == Get(o, "givenName") && Get(options.fields, "firstname") == Get(o, "firstname");
    options.fields := options.fields["givenName" := OrElse(Get(options.fields, "givenName"), OrElse(Get(options.fields, "firstname"), Null))];
    assert Get(options.fields, "mail") == Get(o, "mail") && Get(options.fields, "email") == Get(o, "email");
    options.fields := options.fields["mail" := OrElse(Get(options.fields, "mail"), OrElse(Get(options.fields, "email"), Null))];
    assert Get(options.fields, "sn") == Get(o, "sn") && Get(options.fields, "lastname") == Get(o, "lastname");
    options.fields := options.fields["sn" := OrElse(Get(options.fields, "sn"), OrElse(Get(options.fields, "lastname"), Null))];
    assert Get(options.fields, "userPassword") == Get(o, "userPassword") && Get(options.fields, "password") == Get(o, "password");
    options.fields := options.fields["userPassword" := OrElse(Get(options.fields, "userPassword"), OrElse(Get(options.fields, "password"), Null))];
    fields := OmitNulls(options.fields - Aliases);
    OmittedIsNormalized(o);
  }

  class EdirLdap {
    const name: string
    /** Set by the generic client's constructor from its own options. */
    const baseDn: string
    const usernameAttribute: Value
    const zombieUsername: Value
    const zombiePassword: Value
    const client: Client
    /** The user last located by `modifyUser` (`self.user`). */
    var user: Option<User>

    constructor (baseDn: string, options: Option<Fields>, client: Client)
      ensures this.baseDn == baseDn && this.client == client && name == "edir"
      ensures var o := if options.Some? then options.value else map[];
        && usernameAttribute == OrElse(Get(o, "usernameAttribute"), Str("cn"))
        && zombieUsername == OrElse(Get(o, "zombieUsername"), Str(""))
        && zombiePassword == OrElse(Get(o, "zombiePassword"), Str(""))
      ensures user == None
    {
      var o := if options.Some? then options.value else map[];
      this.baseDn := baseDn;
      this.client := client;
      name := "edir";
      usernameAttribute := OrElse(Get(o, "usernameAttribute"), Str("cn"));
      zombieUsername := OrElse(Get(o, "zombieUsername"), Str(""));
      zombiePassword := OrElse(Get(o, "zombiePassword"), Str(""));
      user := None;
    }

    /** The common name a DN under the base DN was built from. */
    function CnOfDn(dn: string): Option<string>
    {
      Strip(dn, "cn=", "," + baseDn)
    }

    /** `cn=<cn>,<baseDn>`, with `cn` inserted as is: its text is read back unchanged from the DN. */
    function BuildDn(cn: Slot): (dn: string)
      ensures CnOfDn(dn) == Some(ToStr(cn))
    {
      var suffix := "," + baseDn;
      StripConcat("cn=", ToStr(cn), suffix);
      "cn=" + ToStr(cn) + suffix
    }

    /** Distinct common names give distinct DNs: no two users share one. */
    lemma BuildDnInjective(a: Slot, b: Slot)
      requires BuildDn(a) == BuildDn(b)
      ensures ToStr(a) == ToStr(b)
    {
    }

    lemma BuildDnExample()
      requires baseDn == "dc=example,dc=com"
      ensures BuildDn(Some(Str("alice"))) == "cn=alice,dc=example,dc=com"
    {
    }

    /** Binds as the service account; each argument falls back to the configured one when falsy. */
    method BindAsZombie(username: Slot, password: Slot) returns (res: Result<Reply>)
      modifies client
      ensures var op := Bind(BuildDn(Some(OrElse(username, zombieUsername))), OrElse(password, zombiePassword));
        client.log == old(client.log) + [op] && res == client.respond(op)
    {
      var op := Bind(BuildDn(Some(OrElse(username, zombieUsername))), OrElse(password, zombiePassword));
      res := client.Issue(op);
    }

    /** Creates an entry at the DN built from `options.cn`, handing the fields over unchanged. */
    method CreateUser(options: Option<Fields>) returns (res: Result<Reply>)
      modifies client
      ensures options.None? ==> res == Err(NoOptions) && client.log == old(client.log)
      ensures options.Some? ==>
        var op := Create(BuildDn(Get(options.value, "cn")), options.value);
        client.log == old(client.log) + [op] && res == client.respond(op)
    {
      if options.None? {
        return Err(NoOptions);
      }
      res := client.Issue(Create(BuildDn(Get(options.value, "cn")), options.value));
    }

    /** Deletes the entry at the DN built from `cn`. */
    method DeleteUser(cn: Slot) returns (res: Result<Reply>)
      modifies client
      ensures client.log == old(client.log) + [Delete(BuildDn(cn))]
      ensures res == client.respond(Delete(BuildDn(cn)))
    {
      res := client.Issue(Delete(BuildDn(cn)));
    }

    /** Searches for entries whose common name starts with `startsWith` and holds no `@`. */
    method FindAllEmailAddressless(startsWith: Slot) returns (res: Result<Reply>)
      modifies client
      ensures client.log == old(client.log) + [Search(EmailAddresslessFilter(startsWith))]
      ensures res == client.respond(Search(EmailAddresslessFilter(startsWith)))
    {
      res := client.Issue(Search(EmailAddresslessFilter(startsWith)));
    }

    /** Whether `findUser(cn)` located a user. */
    predicate Located(cn: Slot)
    {
      client.lookup(cn).Ok? && client.lookup(cn).value.Some?
    }

    /**
     * The requests `modifyUser` issues once its options are normalised to
     * `fields` with new name `newCn`, and what it settles with: look the user
     * up; if there is none, fail; otherwise replace every field in one modify of
     * the user's DN and, when that succeeded and the new name is truthy, rename
     * the entry to the DN built from the new name. The result is the modify's
     * unless the rename failed.
     */
    ghost predicate ModifyOutcome(cn: Slot, fields: Fields, newCn: Value, issued: seq<Op>, res: Result<Reply>)
    {
      && |issued| >= 1 && issued[0] == FindUser(cn)
      && match client.lookup(cn)
         case Err(e) => |issued| == 1 && res == Err(e)
         case Ok(None) => |issued| == 1 && res == Err(UserNotLocated)
         case Ok(Some(u)) =>
           && |issued| >= 2
           && issued[1].Modify? && issued[1].dn == u.dn
           && IsChangeList(issued[1].changes, fields)
           && var modified := client.respond(issued[1]);
              if modified.Err? || !TruthyValue(newCn) then
                |issued| == 2 && res == modified
              else
                && |issued| == 3
                && issued[2] == ModifyDn(u.dn, BuildDn(Some(newCn)))
                && res == (if client.respond(issued[2]).Err? then client.respond(issued[2]) else modified)
    }

    /** Without a located user, `modifyUser` fails after the lookup and writes nothing. */
    lemma ModifyWritesNothingUnlessLocated(cn: Slot, fields: Fields, newCn: Value, issued: seq<Op>, res: Result<Reply>)
      requires ModifyOutcome(cn, fields, newCn, issued, res)
      requires !Located(cn)
      ensures issued == [FindUser(cn)]
      ensures forall i :: 0 <= i < |issued| ==> !issued[i].IsWrite()
      ensures res.Err?
      ensures client.lookup(cn) == Ok(None) ==> res == Err(UserNotLocated)
      ensures client.lookup(cn).Err? ==> res == Err(client.lookup(cn).error)
    {
    }

    /**
     * With a located user, exactly one modify is issued, against the user's DN,
     * right after the lookup, and it holds exactly one replace per field.
     */
    lemma {:induction false} ModifyReplacesEachFieldOnce(cn: Slot, fields: Fields, newCn: Value, issued: seq<Op>, res: Result<Reply>)
      requires ModifyOutcome(cn, fields, newCn, issued, res)
      requires Located(cn)
      ensures forall i :: 0 <= i < |issued| ==> (issued[i].Modify? <==> i == 1)
      ensures issued[1].dn == client.lookup(cn).value.value.dn
      ensures |issued[1].changes| == |fields|
      ensures forall k :: k in fields ==>
        exists i :: 0 <= i < |issued[1].changes| && issued[1].changes[i] == Change("replace", k, fields[k])
      ensures forall i, j :: 0 <= i < j < |issued[1].changes| ==> issued[1].changes[i].key != issued[1].changes[j].key
    {
      ChangeListLength(issued[1].changes, fields);
      forall k | k in fields
        ensures exists i :: 0 <= i < |issued[1].changes| && issued[1].changes[i] == Change("replace", k, fields[k])
      {
        var i :| 0 <= i < |issued[1].changes| && issued[1].changes[i].key == k;
        assert issued[1].changes[i] == Change("replace", k, fields[k]);
      }
    }

    /**
     * A rename is issued exactly when the user was located, the modify
     * succeeded and the new name is truthy; it is the last request, it comes
     * after the modify, it moves the user's DN to the DN built from the new
     * name, and unless it fails the result is still the modify's.
     */
    lemma ModifyRenamesIffNewName(cn: Slot, fields: Fields, newCn: Value, issued: seq<Op>, res: Result<Reply>)
      requires ModifyOutcome(cn, fields, newCn, issued, res)
      ensures (exists i :: 0 <= i < |issued| && issued[i].ModifyDn?) <==>
        Located(cn) && client.respond(issued[1]).Ok? && TruthyValue(newCn)
      ensures Located(cn) && client.respond(issued[1]).Ok? && TruthyValue(newCn) ==>
        && |issued| == 3 && issued[1].Modify?
        && issued[2] == ModifyDn(client.lookup(cn).value.value.dn, BuildDn(Some(newCn)))
        && (client.respond(issued[2]).Ok? ==> res == client.respond(issued[1]))
    {
    }

    /**
     * When `modifyUser` renames a user who gave no explicit `uid`, the `uid` it
     * writes is the common name of the DN it renames to.
     */
    lemma RenameKeepsUidInSync(cn: Slot, o: Fields, issued: seq<Op>, res: Result<Reply>)
      requires ModifyOutcome(cn, Normalized(o), NewCn(o), issued, res)
      requires |issued| == 3
      requires !Truthy(Get(o, "uid"))
      ensures issued[2].ModifyDn? && "uid" in Normalized(o)
      ensures exists i :: 0 <= i < |issued[1].changes| && issued[1].changes[i] == Change("replace", "uid", Normalized(o)["uid"])
      ensures CnOfDn(issued[2].newDn) == Some(ToStr(Some(Normalized(o)["uid"])))
    {
      UidTracksNewName(o);
      ModifyReplacesEachFieldOnce(cn, Normalized(o), NewCn(o), issued, res);
    }

    /**
     * `modifyUser(cn, options)`. The caller's object, when there is one, is
     * updated in place with the resolved attributes before anything is issued.
     */
    method ModifyUser(cn: Slot, options: JsObject?) returns (res: Result<Reply>, ghost issued: seq<Op>)
      modifies this, client, options
      ensures options != null ==> options.fields == Assigned(old(options.fields))
      ensures client.log == old(client.log) + issued
      ensures var o := old(if options == null then map[] else options.fields);
        ModifyOutcome(cn, Normalized(o), NewCn(o), issued, res)
      ensures user == if Located(cn) then client.lookup(cn).value else old(user)
    {
      var target := options;
      if target == null {
        target := new JsObject(map[]);
      }
      var newCn := OrElse(Get(target.fields, "cn"), OrElse(Get(target.fields, "username"), Null));
      var fields := ResolveAliases(target, newCn);
      res, issued := Settle(cn, fields, newCn);
    }

    /** The promise chain of `modifyUser`: find, then modify, then rename when there is a new name. */
    method Settle(cn: Slot, fields: Fields, newCn: Value) returns (res: Result<Reply>, ghost issued: seq<Op>)
      modifies this, client
      ensures client.log == old(client.log) + issued
      ensures ModifyOutcome(cn, fields, newCn, issued, res)
      ensures user == if Located(cn) then client.lookup(cn).value else old(user)
    {
      var found := client.FindUser(cn);
      issued := [FindUser(cn)];
      if found.Err? {
        return Err(found.error), issued;
      }
      if found.value.None? {
        return Err(UserNotLocated), issued;
      }
      user := found.value;
      var changes := BuildChanges(fields);
      var modifyOp := Modify(found.value.value.dn, changes);
      var modified := client.Issue(modifyOp);
      issued := issued + [modifyOp];
      if modified.Err? || !TruthyValue(newCn) {
        return modified, issued;
      }
      var rename := ModifyDn(user.value.dn, BuildDn(Some(newCn)));
      var renamed := client.Issue(rename);
      issued := issued + [rename];
      if renamed.Err? {
        return renamed, issued;
      }
      res := modified;
    }
  }
}
