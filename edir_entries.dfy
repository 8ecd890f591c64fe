/**
 * The string and entry builders of the eDirectory adapter: the fixed
 * object-class list, the new-user entry, and the search filter for entries
 * whose common name holds no e-mail address. None of them escapes anything:
 * caller-supplied text lands verbatim in the result, which the round-trip
 * contracts below state through `Strip`.
 */
module EdirEntries {
  import opened Js

  /** The middle of `s` when `s` is `prefix + middle + suffix`. */
  function Strip(s: string, prefix: string, suffix: string): (middle: Option<string>)
    ensures middle.Some? ==> s == prefix + middle.value + suffix
  {
    if |prefix| + |suffix| <= |s| && s[..|prefix|] == prefix && s[|s| - |suffix|..] == suffix then
      var m := s[|prefix|..|s| - |suffix|];
      assert s == s[..|prefix|] + m + s[|s| - |suffix|..];
      Some(m)
    else
      None
  }

  /** Whatever is put between a prefix and a suffix can be read back unchanged. */
  lemma StripConcat(prefix: string, middle: string, suffix: string)
    ensures Strip(prefix + middle + suffix, prefix, suffix) == Some(middle)
  {
    var s := prefix + middle + suffix;
    assert s[..|prefix|] == prefix;
    assert s[|s| - |suffix|..] == suffix;
    assert s[|prefix|..|s| - |suffix|] == middle;
  }

  /** The object classes every new user entry is created with, most specific first. */
  function BuildObjectClass(): (classes: seq<string>)
    ensures |classes| == 5
    ensures forall i, j :: 0 <= i < j < |classes| ==> classes[i] != classes[j]
    ensures classes[0] == "inetOrgPerson" && classes[1] == "organizationalPerson" && classes[2] == "Person"
    ensures classes[3] == "ndsLoginProperties" && classes[|classes| - 1] == "Top"
  {
    ["inetOrgPerson", "organizationalPerson", "Person", "ndsLoginProperties", "Top"]
  }

  /**
   * The entry for a new user: a copy of the given fields with `objectClass`
   * set to the fixed list and `uid` set to the copy's `cn`. When there is no
   * `cn`, JavaScript stores `undefined` under `uid`; here that key is absent.
   */
  function BuildUserEntry(options: Fields): (entry: Fields)
    ensures entry.Keys == (options.Keys - {"uid"}) + {"objectClass"} + (if "cn" in options then {"uid"} else {})
    ensures entry["objectClass"] == List(BuildObjectClass())
    ensures Get(entry, "uid") == Get(entry, "cn") == Get(options, "cn")
    ensures forall k :: k in options && k != "objectClass" && k != "uid" ==> entry[k] == options[k]
  {
    var copy := options["objectClass" := List(BuildObjectClass())];
    if "cn" in copy then copy["uid" := copy["cn"]] else copy - {"uid"}
  }

  const FilterHead := "(&(cn="
  const FilterTail := "*)(!(cn=*@*)))"

  /**
   * The filter of `findAllEmailAddressless(startsWith)`: the common name
   * starts with `startsWith` and contains no `@`.
   */
  function EmailAddresslessFilter(startsWith: Slot): (filter: string)
    ensures Strip(filter, FilterHead, FilterTail) == Some(ToStr(startsWith))
  {
    StripConcat(FilterHead, ToStr(startsWith), FilterTail);
    FilterHead + ToStr(startsWith) + FilterTail
  }

  /** Two prefixes give the same filter only when they read as the same string. */
  lemma EmailAddresslessFilterInjective(a: Slot, b: Slot)
    requires EmailAddresslessFilter(a) == EmailAddresslessFilter(b)
    ensures ToStr(a) == ToStr(b)
  {
  }

  lemma EmailAddresslessFilterExample()
    ensures EmailAddresslessFilter(Some(Str("jdoe"))) == "(&(cn=jdoe*)(!(cn=*@*)))"
  {
  }

  lemma UserEntryExample()
    ensures var entry := BuildUserEntry(map["cn" := Str("alice")]);
      && entry == map["cn" := Str("alice"), "uid" := Str("alice"), "objectClass" := List(BuildObjectClass())]
  {
  }
}
