/** The PHP string built-ins the display-name mapping relies on: `explode`
    with the one-character delimiter "+", its inverse `implode`, and `trim`
    with its default character list. PHP strings are modelled one character
    per byte. */
module PhpStrings {

  /** The delimiter the backend hands to `explode`. */
  const Plus: char := '+'

  /** The characters `trim` strips when it is given no character list:
      space, tab, line feed, carriage return, NUL and vertical tab. */
  predicate IsTrimChar(c: char) {
    c == ' ' || c == '\t' || c == '\n' || c == '\r' || c == '\0' || c == '\U{0B}'
  }

  /** Every character of `s` is one that `trim` strips. */
  predicate AllTrimChars(s: string) {
    forall i :: 0 <= i < |s| ==> IsTrimChar(s[i])
  }

  /** A concatenation is all strippable exactly when both parts are. */
  lemma {:induction false} AllTrimCharsConcat(a: string, b: string)
    ensures AllTrimChars(a + b) <==> AllTrimChars(a) && AllTrimChars(b)
  {
    if AllTrimChars(a + b) {
      forall i | 0 <= i < |a| ensures IsTrimChar(a[i]) {
        assert (a + b)[i] == a[i];
      }
      forall i | 0 <= i < |b| ensures IsTrimChar(b[i]) {
        assert (a + b)[i + |a|] == b[i];
      }
    }
  }

  /** Neither end of `r` holds a character that `trim` strips. */
  predicate Unpadded(r: string) {
    r == [] || (!IsTrimChar(r[0]) && !IsTrimChar(r[|r| - 1]))
  }

  /** `r` is what remains of `s` once some prefix and some suffix made only
      of strippable characters are removed. */
  ghost predicate StripsTo(s: string, r: string) {
    exists i :: 0 <= i <= |s| - |r| && s[i..i + |r|] == r
                && AllTrimChars(s[..i]) && AllTrimChars(s[i + |r|..])
  }

  /** `ltrim`: drops the longest strippable prefix. */
  function TrimStart(s: string): (r: string)
    ensures |r| <= |s| && r == s[|s| - |r|..]
    ensures AllTrimChars(s[..|s| - |r|])
    ensures r == [] || !IsTrimChar(r[0])
    decreases |s|
  {
    if |s| > 0 && IsTrimChar(s[0]) then
      var r := TrimStart(s[1..]);
      assert s[..|s| - |r|] == [s[0]] + s[1..][..|s| - 1 - |r|];
      r
    else
      s
  }

  /** `rtrim`: drops the longest strippable suffix. */
  function TrimEnd(s: string): (r: string)
    ensures |r| <= |s| && r == s[..|r|]
    ensures AllTrimChars(s[|r|..])
    ensures r == [] || !IsTrimChar(r[|r| - 1])
    decreases |s|
  {
    if |s| > 0 && IsTrimChar(s[|s| - 1]) then
      var r := TrimEnd(s[..|s| - 1]);
      assert s[|r|..] == s[..|s| - 1][|r|..] + [s[|s| - 1]];
      r
    else
      s
  }

  /** PHP `trim` with the default character list. */
  function Trim(s: string): (r: string)
    ensures StripsTo(s, r)
    ensures Unpadded(r)
  {
    var t := TrimStart(s);
    var r := TrimEnd(t);
    StripBothEnds(s, t, r);
    r
  }

  /** Stripping a prefix and then a suffix strips both ends. */
  lemma {:induction false} StripBothEnds(s: string, t: string, r: string)
    requires |t| <= |s| && t == s[|s| - |t|..] && AllTrimChars(s[..|s| - |t|])
    requires t == [] || !IsTrimChar(t[0])
    requires |r| <= |t| && r == t[..|r|] && AllTrimChars(t[|r|..])
    requires r == [] || !IsTrimChar(r[|r| - 1])
    ensures StripsTo(s, r) && Unpadded(r)
  {
    var i := |s| - |t|;
    assert s[i..i + |r|] == r;
    assert s[i + |r|..] == t[|r|..];
    assert r != [] ==> r[0] == t[0];
  }

  /** `ltrim` drops exactly a strippable prefix in front of an unpadded start. */
  lemma {:induction false} TrimStartSkips(pre: string, rest: string)
    requires AllTrimChars(pre)
    requires rest == [] || !IsTrimChar(rest[0])
    ensures TrimStart(pre + rest) == rest
    decreases |pre|
  {
    if pre != [] {
      assert (pre + rest)[1..] == pre[1..] + rest;
      TrimStartSkips(pre[1..], rest);
    } else {
      assert pre + rest == rest;
    }
  }

  /** `rtrim` drops exactly a strippable suffix after an unpadded end. */
  lemma {:induction false} TrimEndSkips(rest: string, suf: string)
    requires AllTrimChars(suf)
    requires rest == [] || !IsTrimChar(rest[|rest| - 1])
    ensures TrimEnd(rest + suf) == rest
    decreases |suf|
  {
    if suf != [] {
      assert (rest + suf)[..|rest + suf| - 1] == rest + suf[..|suf| - 1];
      TrimEndSkips(rest, suf[..|suf| - 1]);
    } else {
      assert rest + suf == rest;
    }
  }

  /** `trim` is characterised by its two ensures: an unpadded string wrapped
      in strippable characters is exactly what `trim` leaves of it. */
  lemma {:induction false} TrimUnwraps(pre: string, r: string, suf: string)
    requires AllTrimChars(pre) && AllTrimChars(suf) && Unpadded(r)
    ensures Trim(pre + r + suf) == r
  {
    if r == [] {
      AllTrimCharsConcat(pre, suf);
      assert pre + r + suf == (pre + suf) + [];
      TrimStartSkips(pre + suf, []);
    } else {
      assert pre + r + suf == pre + (r + suf);
      TrimStartSkips(pre, r + suf);
      TrimEndSkips(r, suf);
    }
  }

  /** Trimming twice is trimming once. */
  lemma {:induction false} TrimIdempotent(s: string)
    ensures Trim(Trim(s)) == Trim(s)
  {
    var r := Trim(s);
    assert [] + r + [] == r;
    TrimUnwraps([], r, []);
  }

  /** One trailing space after an unpadded string is all `trim` removes. */
  lemma {:induction false} TrimTrailingSpace(v: string)
    requires Unpadded(v)
    ensures Trim(v + " ") == v
  {
    assert [] + v + " " == v + " ";
    TrimUnwraps([], v, " ");
  }

  /** `trim` yields the empty string exactly when every character is strippable. */
  lemma {:induction false} TrimEmptyIff(s: string)
    ensures Trim(s) == [] <==> AllTrimChars(s)
  {
    if AllTrimChars(s) {
      assert s + [] + [] == s;
      TrimUnwraps(s, [], []);
    }
    if Trim(s) == [] {
      var i :| 0 <= i <= |s| && AllTrimChars(s[..i]) && AllTrimChars(s[i + 0..]);
      assert s == s[..i] + s[i..];
      AllTrimCharsConcat(s[..i], s[i..]);
    }
  }

  /** PHP `explode("+", s)`: the pieces between delimiters, empty ones kept;
      the empty string gives one empty piece. */
  function Explode(s: string): (parts: seq<string>)
    ensures |parts| >= 1
    ensures forall k :: 0 <= k < |parts| ==> Plus !in parts[k]
    decreases |s|
  {
    if |s| == 0 then [""]
    else
      var rest := Explode(s[1..]);
      if s[0] == Plus then [""] + rest
      else [[s[0]] + rest[0]] + rest[1..]
  }

  /** PHP `implode("+", parts)`. */
  function Implode(parts: seq<string>): string
    decreases |parts|
  {
    if |parts| == 0 then ""
    else if |parts| == 1 then parts[0]
    else parts[0] + [Plus] + Implode(parts[1..])
  }

  /** Joining the pieces back with "+" gives the original string. */
  lemma {:induction false} ImplodeExplode(s: string)
    ensures Implode(Explode(s)) == s
    decreases |s|
  {
    if |s| > 0 {
      var rest := Explode(s[1..]);
      ImplodeExplode(s[1..]);
      assert s == [s[0]] + s[1..];
      if s[0] != Plus && |rest| > 1 {
        var parts := Explode(s);
        assert parts[1..] == rest[1..];
        assert Implode(rest) == rest[0] + [Plus] + Implode(rest[1..]);
      }
    }
  }

  /** A delimiter-free prefix lands in the first piece. */
  lemma {:induction false} ExplodePrefix(p: string, t: string)
    requires Plus !in p
    ensures Explode(p + t) == [p + Explode(t)[0]] + Explode(t)[1..]
    decreases |p|
  {
    if p == [] {
      var e := Explode(t);
      assert p + t == t && p + e[0] == e[0];
      assert e == [e[0]] + e[1..];
    } else {
      assert (p + t)[1..] == p[1..] + t;
      ExplodePrefix(p[1..], t);
      assert [p[0]] + (p[1..] + Explode(t)[0]) == p + Explode(t)[0];
    }
  }

  /** A string without delimiter is a single piece. */
  lemma {:induction false} ExplodeSingle(p: string)
    requires Plus !in p
    ensures Explode(p) == [p]
  {
    ExplodePrefix(p, "");
    assert p + "" == p;
  }

  /** Splitting a join of delimiter-free pieces gives the pieces back. */
  lemma {:induction false} ExplodeImplode(parts: seq<string>)
    requires |parts| >= 1
    requires forall k :: 0 <= k < |parts| ==> Plus !in parts[k]
    ensures Explode(Implode(parts)) == parts
    decreases |parts|
  {
    if |parts| == 1 {
      ExplodeSingle(parts[0]);
    } else {
      var tail := Implode(parts[1..]);
      ExplodeImplode(parts[1..]);
      assert Implode(parts) == parts[0] + ([Plus] + tail);
      ExplodePrefix(parts[0], [Plus] + tail);
      var e := Explode([Plus] + tail);
      assert ([Plus] + tail)[0] == Plus && ([Plus] + tail)[1..] == tail;
      assert e == [""] + parts[1..];
      assert e[0] == "" && e[1..] == parts[1..];
      assert parts[0] + e[0] == parts[0];
      assert parts == [parts[0]] + parts[1..];
    }
  }
}
