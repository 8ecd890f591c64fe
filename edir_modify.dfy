/**
 * What `modifyUser` sends: the caller's fields with the user-facing aliases
 * resolved onto LDAP attribute names, aliases and nulls dropped, and one
 * `replace` change per remaining attribute.
 *
 * `Normalized` is the reference definition, driven by the alias table; the
 * method `Edir.EdirLdap.ModifyUser` performs the same steps one assignment at
 * a time, as the source does, and is proved to agree with it.
 */
module EdirModify {
  import opened Js
  import opened Lderp

  /** The keys `modifyUser` never passes on: the new name and the user-facing aliases. */
  const Aliases: set<string> := {"cn", "username", "firstname", "email", "lastname", "password"}

  /** Each attribute that an alias stands for, with that alias. */
  const AliasOf: map<string, string> :=
    map["givenName" := "firstname", "mail" := "email", "sn" := "lastname", "userPassword" := "password"]

  /** The attributes `modifyUser` always assigns before dropping nulls. */
  const Canonical: set<string> := AliasOf.Keys + {"uid"}

  /** The new common name, `options.cn || options.username || null`. */
  function NewCn(o: Fields): (v: Value)
    ensures v == Null || TruthyValue(v)
    ensures TruthyValue(v) <==> Truthy(Get(o, "cn")) || Truthy(Get(o, "username"))
    ensures Truthy(Get(o, "cn")) ==> v == o["cn"]
    ensures !Truthy(Get(o, "cn")) && Truthy(Get(o, "username")) ==> v == o["username"]
  {
    OrElse(Get(o, "cn"), OrElse(Get(o, "username"), Null))
  }

  /**
   * The value an attribute of `Canonical` is given: the attribute itself when
   * truthy, else its alias (for `uid`, the new common name) when truthy, else null.
   */
  function Resolved(o: Fields, attribute: string): Value
    requires attribute in Canonical
  {
    if attribute == "uid" then OrElse(Get(o, "uid"), OrElse(Some(NewCn(o)), Null))
    else OrElse(Get(o, attribute), OrElse(Get(o, AliasOf[attribute]), Null))
  }

  /** The resolved value of each attribute, spelled out. */
  lemma ResolvedEach(o: Fields)
    ensures Resolved(o, "uid") == OrElse(Get(o, "uid"), OrElse(Some(NewCn(o)), Null))
    ensures Resolved(o, "givenName") == OrElse(Get(o, "givenName"), OrElse(Get(o, "firstname"), Null))
    ensures Resolved(o, "mail") == OrElse(Get(o, "mail"), OrElse(Get(o, "email"), Null))
    ensures Resolved(o, "sn") == OrElse(Get(o, "sn"), OrElse(Get(o, "lastname"), Null))
    ensures Resolved(o, "userPassword") == OrElse(Get(o, "userPassword"), OrElse(Get(o, "password"), Null))
  {
  }

  /** The value of key `k` after the assignments, before anything is dropped. */
  function Candidate(o: Fields, k: string): Value
    requires k in o || k in Canonical
  {
    if k in Canonical then Resolved(o, k) else o[k]
  }

  /** The caller's fields once the five attributes have been assigned, in the order of the assignments. */
  function Assigned(o: Fields): Fields
  {
    o["uid" := Resolved(o, "uid")]["givenName" := Resolved(o, "givenName")]["mail" := Resolved(o, "mail")]
     ["sn" := Resolved(o, "sn")]["userPassword" := Resolved(o, "userPassword")]
  }

  /** Assigning one attribute after another gives every attribute of `Canonical` its resolved value. */
  lemma AssignedIsResolved(o: Fields)
    ensures Assigned(o) == o + map k | k in Canonical :: Resolved(o, k)
  {
  }

  /** `_.omit(m, _.isNull)`: the entries of `m` whose value is not null. */
  function OmitNulls(m: Fields): (r: Fields)
    ensures forall k :: k in r <==> k in m && m[k] != Null
    ensures forall k :: k in r ==> r[k] == m[k]
  {
    map k | k in m && m[k] != Null :: m[k]
  }

  lemma AssignedKeys(o: Fields)
    ensures (Assigned(o) - Aliases).Keys == (o.Keys + Canonical) - Aliases
  {
    AssignedIsResolved(o);
    assert Assigned(o).Keys == o.Keys + Canonical;
  }

  lemma AssignedAt(o: Fields, k: string)
    requires k in Assigned(o) - Aliases
    ensures (Assigned(o) - Aliases)[k] == Candidate(o, k)
  {
    AssignedIsResolved(o);
  }

  /** Dropping the aliases and then the nulls from the assigned fields leaves `Normalized(o)`. */
  lemma OmittedIsNormalized(o: Fields)
    ensures OmitNulls(Assigned(o) - Aliases) == Normalized(o)
  {
    var a := Assigned(o) - Aliases;
    var omitted := OmitNulls(a);
    AssignedKeys(o);
    forall k | k in a
      ensures a[k] == Candidate(o, k)
    {
      AssignedAt(o, k);
    }
    assert omitted.Keys == Normalized(o).Keys;
  }

  /** The attributes `modifyUser` replaces, for caller fields `o`. */
  function Normalized(o: Fields): (r: Fields)
    ensures forall k :: k in r ==> k !in Aliases && r[k] != Null
    ensures forall k :: k in r ==> k in o || k in Canonical
    ensures forall k :: k in o && k !in Aliases && k !in Canonical && o[k] != Null ==> k in r && r[k] == o[k]
    ensures forall k :: k in r && k !in Canonical ==> r[k] == o[k]
  {
    map k | k in (o.Keys + Canonical) - Aliases && Candidate(o, k) != Null :: Candidate(o, k)
  }

  /**
   * An explicit attribute wins when it is truthy; otherwise its alias is used
   * when truthy; otherwise the attribute is not sent at all.
   */
  lemma AttributePrecedence(o: Fields, attribute: string)
    requires attribute in AliasOf
    ensures var alias := AliasOf[attribute]; var r := Normalized(o);
      && (attribute in r <==> Truthy(Get(o, attribute)) || Truthy(Get(o, alias)))
      && (Truthy(Get(o, attribute)) ==> r[attribute] == o[attribute])
      && (!Truthy(Get(o, attribute)) && Truthy(Get(o, alias)) ==> r[attribute] == o[alias])
  {
    assert attribute in Canonical;
    assert attribute !in Aliases;
  }

  /** `uid` is sent when given explicitly, and otherwise follows the new common name. */
  lemma UidTracksNewName(o: Fields)
    ensures var r := Normalized(o);
      && ("uid" in r <==> Truthy(Get(o, "uid")) || TruthyValue(NewCn(o)))
      && (Truthy(Get(o, "uid")) ==> r["uid"] == o["uid"])
      && (!Truthy(Get(o, "uid")) && TruthyValue(NewCn(o)) ==> r["uid"] == NewCn(o))
  {
    assert "uid" in Canonical;
    assert "uid" !in Aliases;
  }

  /** Only an e-mail address: exactly `mail` is replaced, and there is no new name. */
  lemma EmailOnlyExample()
    ensures var o := map["email" := Str("a@x.com")];
      Normalized(o) == map["mail" := Str("a@x.com")] && NewCn(o) == Null
  {
    var o := map["email" := Str("a@x.com")];
    var r := Normalized(o);
    assert "mail" in Canonical && Candidate(o, "mail") == Str("a@x.com");
    assert r.Keys == {"mail"};
  }

  /** Only a new user name: exactly `uid` is replaced, and the new name is that user name. */
  lemma UsernameOnlyExample()
    ensures var o := map["username" := Str("bob")];
      Normalized(o) == map["uid" := Str("bob")] && NewCn(o) == Str("bob")
  {
    var o := map["username" := Str("bob")];
    var r := Normalized(o);
    assert "uid" in Canonical && Candidate(o, "uid") == Str("bob");
    assert r.Keys == {"uid"};
  }

  /**
   * `changes` is a change list for `fields`: every change replaces one field
   * with its value, no field is changed twice, and every field is changed.
   */
  predicate IsChangeList(changes: seq<Change>, fields: Fields)
  {
    && (forall i :: 0 <= i < |changes| ==>
          changes[i].key in fields && changes[i] == Change("replace", changes[i].key, fields[changes[i].key]))
    && (forall i, j :: 0 <= i < j < |changes| ==> changes[i].key != changes[j].key)
    && (forall k :: k in fields ==> exists i :: 0 <= i < |changes| && changes[i].key == k)
  }

  /** A change list has exactly one change per field. */
  lemma {:induction false} ChangeListLength(changes: seq<Change>, fields: Fields)
    requires IsChangeList(changes, fields)
    ensures |changes| == |fields|
  {
    if |changes| == 0 {
      assert fields.Keys == {};
    } else {
      var n := |changes| - 1;
      var last := changes[n];
      var rest := fields - {last.key};
      var prefix := changes[..n];
      forall k | k in rest ensures exists i :: 0 <= i < |prefix| && prefix[i].key == k {
        var i :| 0 <= i < |changes| && changes[i].key == k;
        assert i != n;
        assert prefix[i].key == k;
      }
      assert IsChangeList(prefix, rest);
      ChangeListLength(prefix, rest);
      assert rest.Keys == fields.Keys - {last.key};
    }
  }

  /** The change list, `_.map(options, (value, key) => replace key with value)`, in an unspecified key order. */
  method BuildChanges(fields: Fields) returns (changes: seq<Change>)
    ensures IsChangeList(changes, fields)
    ensures |changes| == |fields|
  {
    changes := [];
    var pending := fields.Keys;
    while pending != {}
      invariant pending <= fields.Keys
      invariant |changes| + |pending| == |fields|
      invariant forall i :: 0 <= i < |changes| ==>
          changes[i].key in fields && changes[i].key !in pending
          && changes[i] == Change("replace", changes[i].key, fields[changes[i].key])
      invariant forall i, j :: 0 <= i < j < |changes| ==> changes[i].key != changes[j].key
      invariant forall k :: k in fields && k !in pending ==> exists i :: 0 <= i < |changes| && changes[i].key == k
      decreases pending
    {
      var k :| k in pending;
      ghost var before := changes;
      changes := changes + [Change("replace", k, fields[k])];
      forall k' | k' in fields && k' !in pending - {k}
        ensures exists i :: 0 <= i < |changes| && changes[i].key == k'
      {
        if k' == k {
          assert changes[|before|].key == k';
        } else {
          var i :| 0 <= i < |before| && before[i].key == k';
          assert changes[i].key == k';
        }
      }
      pending := pending - {k};
    }
  }
}
