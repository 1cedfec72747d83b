/** `String.prototype.trim` of ECMAScript: drop the leading and trailing white
    space. White space here is the fixed set the language standard names
    (its WhiteSpace and LineTerminator productions, with the Zs category written
    out), not a derived Unicode table. */
module Trimming {

  predicate IsWhiteSpace(c: char) {
    // WhiteSpace: TAB, VT, FF, ZWNBSP and the space separators (category Zs)
    c == '\U{0009}' || c == '\U{000B}' || c == '\U{000C}' || c == '\U{FEFF}' ||
    c == ' ' || c == '\U{00A0}' || c == '\U{1680}' || ('\U{2000}' <= c <= '\U{200A}') ||
    c == '\U{202F}' || c == '\U{205F}' || c == '\U{3000}' ||
    // LineTerminator: LF, CR, LINE SEPARATOR, PARAGRAPH SEPARATOR
    c == '\U{000A}' || c == '\U{000D}' || c == '\U{2028}' || c == '\U{2029}'
  }

  predicate AllWhiteSpace(s: string) {
    forall i :: 0 <= i < |s| ==> IsWhiteSpace(s[i])
  }

  /** Neither end of `s` is white space. */
  predicate IsTrimmed(s: string) {
    s == [] || (!IsWhiteSpace(s[0]) && !IsWhiteSpace(s[|s| - 1]))
  }

  function TrimStart(s: string): string
    decreases |s|
  {
    if s != [] && IsWhiteSpace(s[0]) then TrimStart(s[1..]) else s
  }

  function TrimEnd(s: string): string
    decreases |s|
  {
    if s != [] && IsWhiteSpace(s[|s| - 1]) then TrimEnd(s[..|s| - 1]) else s
  }

  function Trim(s: string): string {
    TrimEnd(TrimStart(s))
  }

  /** Leading white space in front of a part that does not start with white
      space is exactly what TrimStart removes. */
  lemma {:induction false} TrimStartDrops(a: string, rest: string)
    requires AllWhiteSpace(a)
    requires rest == [] || !IsWhiteSpace(rest[0])
    ensures TrimStart(a + rest) == rest
    decreases |a|
  {
    if a != [] {
      assert (a + rest)[1..] == a[1..] + rest;
      TrimStartDrops(a[1..], rest);
    }
  }

  /** Trailing white space behind a part that does not end with white space is
      exactly what TrimEnd removes. */
  lemma {:induction false} TrimEndDrops(rest: string, b: string)
    requires AllWhiteSpace(b)
    requires rest == [] || !IsWhiteSpace(rest[|rest| - 1])
    ensures TrimEnd(rest + b) == rest
    decreases |b|
  {
    if b != [] {
      var b' := b[..|b| - 1];
      assert (rest + b)[..|rest + b| - 1] == rest + b';
      TrimEndDrops(rest, b');
    }
  }

  /** TrimStart removes a white-space prefix and stops at the first other character. */
  lemma {:induction false} TrimStartSplits(s: string)
    ensures |TrimStart(s)| <= |s|
    ensures s == s[..|s| - |TrimStart(s)|] + TrimStart(s)
    ensures AllWhiteSpace(s[..|s| - |TrimStart(s)|])
    ensures TrimStart(s) == [] || !IsWhiteSpace(TrimStart(s)[0])
    decreases |s|
  {
    if s != [] && IsWhiteSpace(s[0]) {
      TrimStartSplits(s[1..]);
      var k := |s| - |TrimStart(s)|;
      assert s[..k] == [s[0]] + s[1..][..k - 1];
    }
  }

  /** TrimEnd removes a white-space suffix and stops at the last other character. */
  lemma {:induction false} TrimEndSplits(s: string)
    ensures |TrimEnd(s)| <= |s|
    ensures s == TrimEnd(s) + s[|TrimEnd(s)|..]
    ensures AllWhiteSpace(s[|TrimEnd(s)|..])
    ensures TrimEnd(s) == [] || !IsWhiteSpace(TrimEnd(s)[|TrimEnd(s)| - 1])
    decreases |s|
  {
    if s != [] && IsWhiteSpace(s[|s| - 1]) {
      var s' := s[..|s| - 1];
      TrimEndSplits(s');
      var k := |TrimEnd(s)|;
      assert s[k..] == s'[k..] + [s[|s| - 1]];
    }
  }

  /** Trim keeps a middle part of `s` that has white space only on either side of
      it and none at its own ends. */
  lemma TrimSplits(s: string)
    ensures exists a, b :: s == a + Trim(s) + b && AllWhiteSpace(a) && AllWhiteSpace(b)
    ensures IsTrimmed(Trim(s))
  {
    var m := TrimStart(s);
    TrimStartSplits(s);
    TrimEndSplits(m);
    var a := s[..|s| - |m|];
    var b := m[|Trim(s)|..];
    assert s == a + Trim(s) + b;
    assert Trim(s) != [] ==> Trim(s)[0] == m[0];
  }

  /** The reference definition: any split of `s` into white space, a trimmed
      middle and white space determines Trim(s) as that middle. */
  lemma TrimUnique(s: string, a: string, m: string, b: string)
    requires s == a + m + b
    requires AllWhiteSpace(a) && AllWhiteSpace(b) && IsTrimmed(m)
    ensures Trim(s) == m
  {
    if m == [] {
      assert AllWhiteSpace(a + b);
      assert s == (a + b) + [];
      TrimStartDrops(a + b, []);
      assert TrimStart(s) == [];
    } else {
      assert s == a + (m + b);
      TrimStartDrops(a, m + b);
      TrimEndDrops(m, b);
    }
  }

  /** Trimming twice is trimming once. */
  lemma TrimIdempotent(s: string)
    ensures Trim(Trim(s)) == Trim(s)
  {
    TrimSplits(s);
    var t := Trim(s);
    assert t == [] + t + [];
    TrimUnique(t, [], t, []);
  }

  /** A string trims to nothing exactly when it is all white space. */
  lemma TrimEmptyIff(s: string)
    ensures Trim(s) == [] <==> AllWhiteSpace(s)
  {
    TrimSplits(s);
    if AllWhiteSpace(s) {
      assert s == s + [] + [];
      TrimUnique(s, s, [], []);
    }
  }
}
