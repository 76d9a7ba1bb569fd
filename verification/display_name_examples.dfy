/** Worked cases of the display-name mapping and of `explode`. */
module DisplayNameExamples {
  import opened PhpValues
  import opened PhpStrings
  import opened CasAttributes
  import opened NextBackend

  /** `explode` keeps empty pieces, and splits the empty string into one. */
  lemma ExplodeKeepsEmptyPieces()
    ensures Explode("") == [""]
    ensures Explode("a++b") == ["a", "", "b"]
  {
    assert Implode(["a", "", "b"]) == "a++b";
    ExplodeImplode(["a", "", "b"]);
  }

  /** A mapping of two distinct fields, both present with non-empty
      unpadded values, shows the two values separated by one space. */
  lemma {:induction false} TwoFieldMapping(f1: string, f2: string, v1: string, v2: string)
    requires f1 != f2 && Plus !in f1 && Plus !in f2
    requires f1 != NestedKey && f2 != NestedKey
    requires v1 != "" && v2 != "" && Unpadded(v1) && Unpadded(v2)
    ensures ComposeDisplayName(RawAttributes(map[f1 := v1, f2 := v2], None), f1 + [Plus] + f2)
            == v1 + " " + v2
  {
    var attrs := map[f1 := v1, f2 := v2];
    assert Implode([f1, f2]) == f1 + [Plus] + f2;
    ExplodeImplode([f1, f2]);
    assert Compose([f1, f2][1..], attrs) == v2 + " ";
    assert Compose([f1, f2], attrs) == (v1 + " " + v2) + " ";
    TrimTrailingSpace(v1 + " " + v2);
  }

  /** "givenName+sn" over givenName "Ada" and sn "Lovelace" gives "Ada Lovelace". */
  lemma GivenNameThenSurname()
    ensures ComposeDisplayName(RawAttributes(map["givenName" := "Ada", "sn" := "Lovelace"], None),
                               "givenName+sn") == "Ada Lovelace"
  {
    assert "givenName" + [Plus] + "sn" == "givenName+sn";
    assert Plus !in "givenName" && Plus !in "sn";
    assert "givenName" != NestedKey && "sn" != NestedKey;
    assert Unpadded("Ada") && Unpadded("Lovelace");
    assert "Ada" + " " + "Lovelace" == "Ada Lovelace";
    TwoFieldMapping("givenName", "sn", "Ada", "Lovelace");
  }

  /** A one-field mapping naming an absent field falls back to the
      `displayName` attribute, or to "" when there is none. */
  lemma {:induction false} UnmatchedFieldFallback(a: Attributes, f: string)
    requires Plus !in f && f !in Flatten(a)
    ensures ComposeDisplayName(a, f) ==
              if DisplayNameKey in Flatten(a) then Flatten(a)[DisplayNameKey] else ""
  {
    ExplodeSingle(f);
    assert Compose([f], Flatten(a)) == "";
    TrimEmptyIff("");
  }

  /** The mapping "nonexistentField" over displayName "A. Lovelace" gives "A. Lovelace". */
  lemma FallsBackToDisplayNameAttribute()
    ensures ComposeDisplayName(RawAttributes(map["displayName" := "A. Lovelace"], None),
                               "nonexistentField") == "A. Lovelace"
  {
    var a: Attributes := RawAttributes(map["displayName" := "A. Lovelace"], None);
    assert Plus !in "nonexistentField";
    assert "nonexistentField" !in Flatten(a);
    assert Flatten(a)[DisplayNameKey] == "A. Lovelace";
    UnmatchedFieldFallback(a, "nonexistentField");
  }

  /** An authenticated session with no attributes, under the mapping
      "nonexistentField", gets the display name "" rather than its uid. */
  lemma EmptyAttributesGiveEmptyName(env: CasSession, config: AppConfig, uid: string)
    requires CasReady(env) && env.authenticated
    requires env.attributes == RawAttributes(map[], None)
    requires config.displayNameMapping == "nonexistentField"
    ensures GetDisplayName(env, config, uid).value == ""
  {
    assert Plus !in config.displayNameMapping;
    UnmatchedFieldFallback(env.attributes, config.displayNameMapping);
  }

  /** A mapping of one field, present with a non-empty unpadded value,
      shows exactly that value. */
  lemma {:induction false} SingleFieldMapping(a: Attributes, f: string)
    requires Plus !in f && f in Flatten(a)
    requires Flatten(a)[f] != "" && Unpadded(Flatten(a)[f])
    ensures ComposeDisplayName(a, f) == Flatten(a)[f]
  {
    ExplodeSingle(f);
    assert Compose([f], Flatten(a)) == Flatten(a)[f] + " ";
    TrimTrailingSpace(Flatten(a)[f]);
  }

  /** A nested `attributes` entry overrides the top-level value of the same field. */
  lemma NestedValueWins()
    ensures ComposeDisplayName(RawAttributes(map["mail" := "old@example.org"],
                                             Some(map["mail" := "a@example.org"])),
                               "mail") == "a@example.org"
  {
    var a: Attributes := RawAttributes(map["mail" := "old@example.org"], Some(map["mail" := "a@example.org"]));
    assert Plus !in "mail";
    assert Flatten(a)["mail"] == "a@example.org";
    assert Unpadded("a@example.org");
    SingleFieldMapping(a, "mail");
  }
}
