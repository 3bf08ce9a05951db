/**
 * The pieces of Python's string library that the primer search relies on:
 * str.strip(), str.upper(), str.startswith(), the `in` operator on strings,
 * str.split(sep), sep.join(fields) and str(int).
 */
module Text {

  /** Python's str.isspace() for one character, by code point. */
  predicate IsSpace(c: char) {
    var v := c as int;
    (9 <= v <= 13) || (28 <= v <= 32) || v == 0x85 || v == 0xA0 || v == 0x1680
    || (0x2000 <= v <= 0x200A) || v == 0x2028 || v == 0x2029 || v == 0x202F
    || v == 0x205F || v == 0x3000
  }

  /** String concatenation is associative. */
  lemma AppendAssoc(s: string, t: string, u: string)
    ensures (s + t) + u == s + (t + u)
  {
  }

  /** str.lstrip() with no argument. */
  function TrimLeft(s: string): string
  {
    if |s| > 0 && IsSpace(s[0]) then TrimLeft(s[1..]) else s
  }

  /** str.rstrip() with no argument. */
  function TrimRight(s: string): string
  {
    if |s| > 0 && IsSpace(s[|s| - 1]) then TrimRight(s[..|s| - 1]) else s
  }

  /** str.strip() with no argument. */
  function Strip(s: string): string
  {
    TrimRight(TrimLeft(s))
  }

  /** lstrip removes exactly the leading white space. */
  lemma {:induction false} TrimLeftSpec(s: string)
    ensures var r := TrimLeft(s);
      |r| <= |s| && r == s[|s| - |r|..] && (r == [] || !IsSpace(r[0]))
      && (forall k :: 0 <= k < |s| - |r| ==> IsSpace(s[k]))
  {
    if |s| > 0 && IsSpace(s[0]) {
      TrimLeftSpec(s[1..]);
      var r := TrimLeft(s);
      forall k | 0 <= k < |s| - |r|
        ensures IsSpace(s[k])
      {
        if k > 0 {
          assert s[k] == s[1..][k - 1];
        }
      }
    }
  }

  /** rstrip removes exactly the trailing white space. */
  lemma {:induction false} TrimRightSpec(s: string)
    ensures var r := TrimRight(s);
      |r| <= |s| && r == s[..|r|] && (r == [] || !IsSpace(r[|r| - 1]))
      && (forall k :: |r| <= k < |s| ==> IsSpace(s[k]))
  {
    if |s| > 0 && IsSpace(s[|s| - 1]) {
      TrimRightSpec(s[..|s| - 1]);
      var r := TrimRight(s);
      forall k | |r| <= k < |s|
        ensures IsSpace(s[k])
      {
        if k < |s| - 1 {
          assert s[k] == s[..|s| - 1][k];
        }
      }
    }
  }

  /**
   * strip removes exactly the white space at both ends: the result is a
   * slice s[i..j], everything outside it is white space, and the result
   * neither starts nor ends with white space.
   */
  lemma StripSpec(s: string)
    ensures var r := Strip(s);
      (r == [] || (!IsSpace(r[0]) && !IsSpace(r[|r| - 1])))
      && (exists i, j ::
            0 <= i <= j <= |s| && r == s[i..j]
            && (forall k :: 0 <= k < i ==> IsSpace(s[k]))
            && (forall k :: j <= k < |s| ==> IsSpace(s[k])))
  {
    var l := TrimLeft(s);
    TrimLeftSpec(s);
    TrimRightSpec(l);
    var r := TrimRight(l);
    var i := |s| - |l|;
    assert r == s[i..i + |r|];
    if r != [] {
      assert r[0] == l[0];
    }
    forall k | i + |r| <= k < |s|
      ensures IsSpace(s[k])
    {
      assert s[k] == l[k - i];
    }
    assert 0 <= i <= i + |r| <= |s| && r == s[i..i + |r|];
  }

  /** A string with no white space at its ends is its own strip. */
  lemma StripNoSpace(s: string)
    requires s == [] || (!IsSpace(s[0]) && !IsSpace(s[|s| - 1]))
    ensures Strip(s) == s
  {
  }

  /** Stripping twice is stripping once. */
  lemma StripIdempotent(s: string)
    ensures Strip(Strip(s)) == Strip(s)
  {
    StripSpec(s);
    StripNoSpace(Strip(s));
  }

  /** s.startswith(c) for a one-character prefix. */
  predicate StartsWith(s: string, c: char) {
    |s| > 0 && s[0] == c
  }

  /**
   * a[i..i + n] and b[j..j + n] hold the same characters, compared from the
   * left one character at a time.
   */
  predicate Agree(a: string, i: int, b: string, j: int, n: nat)
    requires 0 <= i && i + n <= |a| && 0 <= j && j + n <= |b|
  {
    n == 0 || (Agree(a, i, b, j, n - 1) && a[i + n - 1] == b[j + n - 1])
  }

  /** Agree, character by character. */
  lemma {:induction false} AgreeChars(a: string, i: int, b: string, j: int, n: nat)
    requires 0 <= i && i + n <= |a| && 0 <= j && j + n <= |b|
    ensures Agree(a, i, b, j, n) <==> forall x :: i <= x < i + n ==> a[x] == b[x - i + j]
  {
    if n > 0 {
      AgreeChars(a, i, b, j, n - 1);
    }
  }

  /** One position of an agreement. */
  lemma {:induction false} AgreeAt(a: string, i: int, b: string, j: int, n: nat, x: int)
    requires 0 <= i && i + n <= |a| && 0 <= j && j + n <= |b|
    requires Agree(a, i, b, j, n) && i <= x < i + n
    ensures a[x] == b[x - i + j]
  {
    if x < i + n - 1 {
      AgreeAt(a, i, b, j, n - 1, x);
    }
  }

  /** Agree, as an equation between slices. */
  lemma AgreeSlices(a: string, i: int, b: string, j: int, n: nat)
    requires 0 <= i && i + n <= |a| && 0 <= j && j + n <= |b|
    ensures Agree(a, i, b, j, n) <==> a[i..i + n] == b[j..j + n]
  {
    AgreeChars(a, i, b, j, n);
    if a[i..i + n] == b[j..j + n] {
      forall x | i <= x < i + n
        ensures a[x] == b[x - i + j]
      {
        assert a[i..i + n][x - i] == b[j..j + n][x - i];
      }
    }
    if Agree(a, i, b, j, n) {
      assert a[i..i + n] == b[j..j + n];
    }
  }

  /** `sub` occurs in `s` at index k. */
  predicate OccursAt(sub: string, s: string, k: int) {
    0 <= k && k + |sub| <= |s| && Agree(s, k, sub, 0, |sub|)
  }

  /** OccursAt, as the slice equation s[k..k + |sub|] == sub. */
  lemma OccursAtSlice(sub: string, s: string, k: int)
    ensures OccursAt(sub, s, k) <==> 0 <= k && k + |sub| <= |s| && s[k..k + |sub|] == sub
  {
    if 0 <= k && k + |sub| <= |s| {
      AgreeSlices(s, k, sub, 0, |sub|);
      assert sub[0..|sub|] == sub;
    }
  }

  /** Python's `sub in s` on strings. */
  predicate Contains(s: string, sub: string) {
    exists k :: 0 <= k <= |s| - |sub| && OccursAt(sub, s, k)
  }

  /** str.upper() on one character (ASCII letters only). */
  function UpperChar(c: char): char {
    if 'a' <= c <= 'z' then (c as int - 32) as char else c
  }

  /** A string with no lower-case ASCII letter. */
  predicate IsUpperCase(s: string) {
    forall i :: 0 <= i < |s| ==> !('a' <= s[i] <= 'z')
  }

  /** str.upper(). */
  function Upper(s: string): string
  {
    seq(|s|, i requires 0 <= i < |s| => UpperChar(s[i]))
  }

  /** str.upper() keeps the length, upper-cases each character and leaves nothing lower-case. */
  lemma UpperSpec(s: string)
    ensures |Upper(s)| == |s| && IsUpperCase(Upper(s))
    ensures forall i :: 0 <= i < |s| ==> Upper(s)[i] == UpperChar(s[i])
  {
  }

  /** Upper-casing works character by character, so it distributes over concatenation. */
  lemma UpperConcat(a: string, b: string)
    ensures Upper(a + b) == Upper(a) + Upper(b)
  {
    assert forall i :: 0 <= i < |a + b| ==> Upper(a + b)[i] == (Upper(a) + Upper(b))[i];
  }

  /** An upper-case string is a fixed point of str.upper(). */
  lemma UpperIdempotent(s: string)
    ensures Upper(Upper(s)) == Upper(s)
  {
  }

  /** The index of the first `c` in `s`. */
  function IndexOf(s: string, c: char): (r: nat)
    requires c in s
    ensures r < |s| && s[r] == c && c !in s[..r]
  {
    if s[0] == c then 0 else 1 + IndexOf(s[1..], c)
  }

  /** s.split(sep): the pieces between separators; there are at least two exactly when sep occurs. */
  function Split(s: string, sep: char): (r: seq<string>)
    ensures |r| >= 1
    ensures |r| >= 2 <==> sep in s
    ensures forall q :: 0 <= q < |r| ==> sep !in r[q]
    decreases |s|
  {
    if sep !in s then [s]
    else
      var k := IndexOf(s, sep);
      [s[..k]] + Split(s[k + 1..], sep)
  }

  /** sep.join(fields). */
  function Join(fields: seq<string>, sep: char): string
  {
    if |fields| == 0 then ""
    else if |fields| == 1 then fields[0]
    else fields[0] + [sep] + Join(fields[1..], sep)
  }

  /** The first separator of `f + [sep] + rest` is the one right after `f`. */
  lemma {:induction false} IndexOfAfter(f: string, sep: char, rest: string)
    requires sep !in f
    ensures sep in f + [sep] + rest && IndexOf(f + [sep] + rest, sep) == |f|
    decreases |f|
  {
    var s := f + [sep] + rest;
    assert s[|f|] == sep;
    if |f| > 0 {
      assert s[1..] == f[1..] + [sep] + rest;
      IndexOfAfter(f[1..], sep, rest);
    }
  }

  /** Splitting a joined row gives the fields back when no field contains the separator. */
  lemma {:induction false} SplitJoin(fields: seq<string>, sep: char)
    requires |fields| >= 1
    requires forall q :: 0 <= q < |fields| ==> sep !in fields[q]
    ensures Split(Join(fields, sep), sep) == fields
    decreases |fields|
  {
    if |fields| > 1 {
      var f, rest := fields[0], Join(fields[1..], sep);
      var s := f + [sep] + rest;
      assert Join(fields, sep) == s;
      IndexOfAfter(f, sep, rest);
      var k := IndexOf(s, sep);
      assert Split(s, sep) == [s[..k]] + Split(s[k + 1..], sep);
      assert s[..k] == f && s[k + 1..] == rest;
      SplitJoin(fields[1..], sep);
      assert fields == [fields[0]] + fields[1..];
    }
  }

  /** The decimal digit for 0 <= d < 10. */
  function Digit(d: nat): (c: char)
    requires d < 10
    ensures '0' <= c <= '9'
  {
    ('0' as int + d) as char
  }

  predicate IsDigits(s: string) {
    forall i :: 0 <= i < |s| ==> '0' <= s[i] <= '9'
  }

  /** str(n) for a non-negative integer: at least one decimal digit and nothing else. */
  function NatToString(n: nat): (r: string)
    ensures |r| >= 1 && IsDigits(r)
  {
    if n < 10 then [Digit(n)] else NatToString(n / 10) + [Digit(n % 10)]
  }

  /** The number a string of decimal digits denotes. */
  function DigitsValue(s: string): nat
    requires IsDigits(s)
  {
    if |s| == 0 then 0 else 10 * DigitsValue(s[..|s| - 1]) + (s[|s| - 1] as int - '0' as int)
  }

  /** Reading str(n) back gives n. */
  lemma {:induction false} NatToStringRoundTrip(n: nat)
    ensures DigitsValue(NatToString(n)) == n
  {
    var r := NatToString(n);
    if n >= 10 {
      NatToStringRoundTrip(n / 10);
      assert r[..|r| - 1] == NatToString(n / 10);
    }
  }

  /** str(n) of a non-negative int, as write_lines formats start, end and length, is all digits and reads back as n. */
  lemma IntToStringRoundTrip(n: nat)
    ensures IsDigits(IntToString(n)) && DigitsValue(IntToString(n)) == n
  {
    NatToStringRoundTrip(n);
  }

  /** str(i) for any integer: an optional minus sign and then digits, so never a ';'. */
  function IntToString(i: int): (r: string)
    ensures |r| >= 1 && ';' !in r
    ensures i >= 0 ==> r == NatToString(i)
  {
    if i < 0 then "-" + NatToString(-i) else NatToString(i)
  }
}
