/**
 * ASCII text helpers standing in for the Python string operations the scorer
 * uses: `str.lower`, `str.strip`, the `in` substring test and `" ".join`.
 */
module Texts {

  /** `str.isspace` restricted to ASCII: space, \t \n \v \f \r (9..13) and the
      separators \x1c..\x1f (28..31). Python's `\s` matches the same set. */
  predicate IsSpace(c: char) {
    c == ' ' || (9 <= c as int <= 13) || (28 <= c as int <= 31)
  }

  predicate IsDigit(c: char) {
    '0' <= c <= '9'
  }

  predicate IsUpper(c: char) {
    'A' <= c <= 'Z'
  }

  function LowerChar(c: char): char {
    if IsUpper(c) then (c as int + 32) as char else c
  }

  /** `str.lower` on ASCII text. */
  function Lower(s: string): (r: string)
    ensures |r| == |s|
  {
    seq(|s|, i requires 0 <= i < |s| => LowerChar(s[i]))
  }

  /** `sub in s`: `sub` occurs in `s` as a contiguous block (the empty string occurs everywhere). */
  predicate Contains(sub: string, s: string)
    decreases |s|
  {
    sub <= s || (|s| > 0 && Contains(sub, s[1..]))
  }

  /** `str.lstrip()` */
  function TrimStart(s: string): string {
    if |s| > 0 && IsSpace(s[0]) then TrimStart(s[1..]) else s
  }

  /** `str.rstrip()` */
  function TrimEnd(s: string): string {
    if |s| > 0 && IsSpace(s[|s| - 1]) then TrimEnd(s[..|s| - 1]) else s
  }

  /** `str.strip()`: drops leading and trailing whitespace. */
  function Trim(s: string): string {
    TrimEnd(TrimStart(s))
  }

  function DigitValue(c: char): nat
    requires IsDigit(c)
  {
    c as int - '0' as int
  }

  predicate AllDigits(d: string) {
    forall k :: 0 <= k < |d| ==> IsDigit(d[k])
  }

  /** `int(d)` for a string of ASCII digits (leading zeros allowed). */
  function DigitsValue(d: string): nat
    requires AllDigits(d)
  {
    if |d| == 0 then 0 else DigitsValue(d[..|d| - 1]) * 10 + DigitValue(d[|d| - 1])
  }

  /** `" ".join(parts)` */
  function JoinSpace(parts: seq<string>): string {
    if |parts| == 0 then ""
    else if |parts| == 1 then parts[0]
    else JoinSpace(parts[..|parts| - 1]) + " " + parts[|parts| - 1]
  }

  // ---------------------------------------------------------------------------
  // Facts about the helpers

  /** An occurrence at position `i` makes `sub in s` true. */
  lemma {:induction false} ContainsAt(sub: string, s: string, i: nat)
    requires i <= |s| && sub <= s[i..]
    ensures Contains(sub, s)
    decreases i
  {
    if i > 0 {
      assert s[1..][i - 1..] == s[i..];
      ContainsAt(sub, s[1..], i - 1);
    }
  }

  /** `sub in s` holds exactly when `sub` occurs at some position. */
  lemma {:induction false} ContainsWitness(sub: string, s: string)
    requires Contains(sub, s)
    ensures exists i :: 0 <= i <= |s| && sub <= s[i..]
    decreases |s|
  {
    if !(sub <= s) {
      ContainsWitness(sub, s[1..]);
      var i :| 0 <= i <= |s| - 1 && sub <= s[1..][i..];
      assert s[1..][i..] == s[i + 1..];
    } else {
      assert s[0..] == s;
    }
  }

  /** A string never occurs in a shorter one. */
  lemma ContainsLength(sub: string, s: string)
    requires Contains(sub, s)
    ensures |sub| <= |s|
  {
    ContainsWitness(sub, s);
  }

  lemma ContainsEmpty(s: string)
    ensures Contains("", s)
  {
  }

  lemma ContainsItself(s: string)
    ensures Contains(s, s)
  {
  }

  lemma ContainsInLeft(sub: string, a: string, b: string)
    requires Contains(sub, a)
    ensures Contains(sub, a + b)
  {
    ContainsWitness(sub, a);
    var i :| 0 <= i <= |a| && sub <= a[i..];
    assert (a + b)[i..] == a[i..] + b;
    ContainsAt(sub, a + b, i);
  }

  lemma ContainsInRight(sub: string, a: string, b: string)
    requires Contains(sub, b)
    ensures Contains(sub, a + b)
  {
    ContainsWitness(sub, b);
    var i :| 0 <= i <= |b| && sub <= b[i..];
    assert (a + b)[|a| + i..] == b[i..];
    ContainsAt(sub, a + b, |a| + i);
  }

  lemma ContainsTransitive(x: string, y: string, z: string)
    requires Contains(x, y) && Contains(y, z)
    ensures Contains(x, z)
  {
    ContainsWitness(x, y);
    ContainsWitness(y, z);
    var i :| 0 <= i <= |y| && x <= y[i..];
    var j :| 0 <= j <= |z| && y <= z[j..];
    assert z[j + i..][..|x|] == y[i..][..|x|];
    ContainsAt(x, z, j + i);
  }

  /** Lowering both sides keeps an occurrence. */
  lemma ContainsLower(sub: string, s: string)
    requires Contains(sub, s)
    ensures Contains(Lower(sub), Lower(s))
  {
    ContainsWitness(sub, s);
    var i :| 0 <= i <= |s| && sub <= s[i..];
    assert Lower(s)[i..][..|sub|] == Lower(s[i..i + |sub|]);
    ContainsAt(Lower(sub), Lower(s), i);
  }

  /** Every part of a space-joined text occurs in it. */
  lemma {:induction false} JoinSpaceContainsPart(parts: seq<string>, k: nat)
    requires k < |parts|
    ensures Contains(parts[k], JoinSpace(parts))
  {
    if |parts| == 1 {
      ContainsItself(parts[0]);
    } else if k == |parts| - 1 {
      ContainsItself(parts[k]);
      ContainsInRight(parts[k], JoinSpace(parts[..|parts| - 1]) + " ", parts[k]);
    } else {
      JoinSpaceContainsPart(parts[..|parts| - 1], k);
      ContainsInLeft(parts[k], JoinSpace(parts[..|parts| - 1]), " " + parts[|parts| - 1]);
      assert JoinSpace(parts) == JoinSpace(parts[..|parts| - 1]) + (" " + parts[|parts| - 1]);
    }
  }

  lemma LowerIdempotent(s: string)
    ensures Lower(Lower(s)) == Lower(s)
  {
  }

  lemma LowerKeepsSpace(c: char)
    ensures IsSpace(LowerChar(c)) <==> IsSpace(c)
  {
  }

  lemma {:induction false} TrimStartLower(s: string)
    ensures TrimStart(Lower(s)) == Lower(TrimStart(s))
    decreases |s|
  {
    if |s| > 0 {
      LowerKeepsSpace(s[0]);
      if IsSpace(s[0]) {
        assert Lower(s)[1..] == Lower(s[1..]);
        TrimStartLower(s[1..]);
      }
    }
  }

  lemma {:induction false} TrimEndLower(s: string)
    ensures TrimEnd(Lower(s)) == Lower(TrimEnd(s))
    decreases |s|
  {
    if |s| > 0 {
      LowerKeepsSpace(s[|s| - 1]);
      if IsSpace(s[|s| - 1]) {
        assert Lower(s)[..|s| - 1] == Lower(s[..|s| - 1]);
        TrimEndLower(s[..|s| - 1]);
      }
    }
  }

  /** `lstrip` removes a leading block of whitespace and stops at a non-space. */
  lemma {:induction false} TrimStartShape(s: string)
    ensures var r := TrimStart(s);
      && |r| <= |s| && r == s[|s| - |r|..]
      && (forall k :: 0 <= k < |s| - |r| ==> IsSpace(s[k]))
      && (r == [] || !IsSpace(r[0]))
    decreases |s|
  {
    if |s| > 0 && IsSpace(s[0]) {
      TrimStartShape(s[1..]);
    }
  }

  /** `rstrip` removes a trailing block of whitespace and stops at a non-space. */
  lemma {:induction false} TrimEndShape(s: string)
    ensures var r := TrimEnd(s);
      && |r| <= |s| && r == s[..|r|]
      && (forall k :: |r| <= k < |s| ==> IsSpace(s[k]))
      && (r == [] || !IsSpace(r[|r| - 1]))
    decreases |s|
  {
    if |s| > 0 && IsSpace(s[|s| - 1]) {
      TrimEndShape(s[..|s| - 1]);
    }
  }

  /** Trimming a string that is already trimmed changes nothing. */
  lemma TrimTrimmed(s: string)
    requires s == [] || (!IsSpace(s[0]) && !IsSpace(s[|s| - 1]))
    ensures Trim(s) == s
  {
  }

  lemma TrimIdempotent(s: string)
    ensures Trim(Trim(s)) == Trim(s)
  {
    var t := Trim(s);
    var u := TrimStart(s);
    TrimStartShape(s);
    TrimEndShape(u);
    if t != [] {
      assert t == u[..|t|];
      assert t[0] == u[0];
    }
    TrimTrimmed(t);
  }
}
