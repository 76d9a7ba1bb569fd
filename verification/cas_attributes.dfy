/** The CAS attribute array of one session, its flattening, and the
    concatenation of configured fields into a display name. */
module CasAttributes {
  import opened PhpValues
  import opened PhpStrings

  /** The key under which an attribute parser may nest a second array. */
  const NestedKey: string := "attributes"

  /** The attribute the display name falls back to. */
  const DisplayNameKey: string := "displayName"

  /** The array `phpCAS::getAttributes()` returns: its string-valued entries,
      and the array stored under `NestedKey` when there is one. */
  datatype RawAttributes = RawAttributes(values: map<string, string>, nested: Option<map<string, string>>)

  /** A well-formed attribute array: the key `NestedKey` holds only the
      nested array, never a string. */
  type Attributes = a: RawAttributes | NestedKey !in a.values
    witness RawAttributes(map[], None)

  /** Remove the nested entry and merge its contents over the top level;
      `array_merge` with string keys lets the later (nested) value win. */
  function Flatten(a: Attributes): (flat: map<string, string>)
    ensures a.nested.Some? ==>
              forall k :: k in a.nested.value ==> k in flat && flat[k] == a.nested.value[k]
    ensures forall k :: k in a.values && (a.nested.None? || k !in a.nested.value) ==>
              k in flat && flat[k] == a.values[k]
    ensures forall k :: k in flat ==> k in a.values || (a.nested.Some? && k in a.nested.value)
    ensures a.nested.None? ==> NestedKey !in flat
  {
    match a.nested
    case None => a.values
    case Some(n) => a.values + n
  }

  /** What one configured field contributes: its value and one space when
      the field is present, nothing otherwise. */
  function Piece(field: string, attrs: map<string, string>): string {
    if field in attrs then attrs[field] + " " else ""
  }

  /** The pieces of all configured fields, in configured order, repeats
      included: absent fields add nothing, and every present field's value
      is followed by a space. */
  function Compose(fields: seq<string>, attrs: map<string, string>): (r: string)
    ensures (forall k :: 0 <= k < |fields| ==> fields[k] !in attrs) <==> r == ""
    ensures r != "" ==> r[|r| - 1] == ' '
    decreases |fields|
  {
    if |fields| == 0 then "" else Piece(fields[0], attrs) + Compose(fields[1..], attrs)
  }

  /** Composing two lists of fields in turn composes their concatenation. */
  lemma {:induction false} ComposeAppend(a: seq<string>, b: seq<string>, attrs: map<string, string>)
    ensures Compose(a + b, attrs) == Compose(a, attrs) + Compose(b, attrs)
    decreases |a|
  {
    if a != [] {
      assert (a + b)[0] == a[0] && (a + b)[1..] == a[1..] + b;
      ComposeAppend(a[1..], b, attrs);
    } else {
      assert a + b == b;
    }
  }

  /** Some configured field is present with a value that is not entirely
      made of characters `trim` strips. */
  predicate HasVisibleField(fields: seq<string>, attrs: map<string, string>) {
    exists k :: 0 <= k < |fields| && fields[k] in attrs && !AllTrimChars(attrs[fields[k]])
  }

  /** The composed string is all strippable exactly when no configured
      field has a visible value. */
  lemma {:induction false} ComposeBlankIff(fields: seq<string>, attrs: map<string, string>)
    ensures AllTrimChars(Compose(fields, attrs)) <==> !HasVisibleField(fields, attrs)
    decreases |fields|
  {
    if fields != [] {
      var p, rest := Piece(fields[0], attrs), Compose(fields[1..], attrs);
      ComposeBlankIff(fields[1..], attrs);
      assert Compose(fields, attrs) == p + rest;
      AllTrimCharsConcat(p, rest);
      if fields[0] in attrs {
        assert p == attrs[fields[0]] + " ";
        AllTrimCharsConcat(attrs[fields[0]], " ");
      }
      if HasVisibleField(fields[1..], attrs) {
        var k :| 0 <= k < |fields[1..]| && fields[1..][k] in attrs && !AllTrimChars(attrs[fields[1..][k]]);
        assert fields[k + 1] == fields[1..][k];
      }
      if HasVisibleField(fields, attrs) {
        var k :| 0 <= k < |fields| && fields[k] in attrs && !AllTrimChars(attrs[fields[k]]);
        if k > 0 { assert fields[1..][k - 1] == fields[k]; }
      }
    }
  }

  /** The `foreach` over the configured fields, appending to an accumulator. */
  method ConcatFields(fields: seq<string>, attrs: map<string, string>) returns (acc: string)
    ensures acc == Compose(fields, attrs)
  {
    acc := "";
    for i := 0 to |fields|
      invariant acc == Compose(fields[..i], attrs)
    {
      if fields[i] in attrs {
        acc := acc + attrs[fields[i]] + " ";
      }
      ComposeAppend(fields[..i], [fields[i]], attrs);
      assert fields[..i + 1] == fields[..i] + [fields[i]];
    }
    assert fields[..|fields|] == fields;
  }
}
