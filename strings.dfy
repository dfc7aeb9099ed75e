/** Ruby string primitives the harness relies on: String#include?, String#gsub with a
    string pattern, Integer#to_s and String#to_i, each written out on `seq<char>`. */
module Strings {

  /** `sub` occurs in `s` starting at index `i`. */
  predicate OccursAt(s: string, sub: string, i: int)
  {
    0 <= i && i + |sub| <= |s| && s[i..i + |sub|] == sub
  }

  /** String#include?: a left-to-right search for `sub` in `s`. */
  function Includes(s: string, sub: string): (b: bool)
    ensures b <==> exists i :: OccursAt(s, sub, i)
    decreases |s|
  {
    if |sub| > |s| then
      assert forall i :: !OccursAt(s, sub, i);
      false
    else if s[..|sub|] == sub then
      assert OccursAt(s, sub, 0);
      true
    else
      var r := Includes(s[1..], sub);
      assert forall i :: OccursAt(s[1..], sub, i) <==> OccursAt(s, sub, i + 1) by {
        forall i ensures OccursAt(s[1..], sub, i) <==> OccursAt(s, sub, i + 1) {
          if 0 <= i && i + |sub| <= |s| - 1 {
            assert s[1..][i..i + |sub|] == s[i + 1..i + 1 + |sub|];
          }
        }
      }
      assert !OccursAt(s, sub, 0);
      assert r ==> OccursAt(s, sub, (var j :| OccursAt(s[1..], sub, j); j) + 1);
      assert (exists i :: OccursAt(s, sub, i)) ==> r by {
        if exists i :: OccursAt(s, sub, i) {
          var i :| OccursAt(s, sub, i);
          assert i >= 1;
          assert OccursAt(s[1..], sub, i - 1);
        }
      }
      r
  }

  /** If `s` is `x + sub + y`, then `sub` occurs in `s`. */
  lemma IncludesMiddle(x: string, sub: string, y: string)
    ensures Includes(x + sub + y, sub)
  {
    assert (x + sub + y)[|x|..|x| + |sub|] == sub;
    assert OccursAt(x + sub + y, sub, |x|);
  }

  /** String#gsub(pat, rep) with a string pattern: scan left to right, replace every
      non-overlapping match and resume after it.  An empty pattern matches before every
      character and at the end, as in Ruby. */
  function Gsub(s: string, pat: string, rep: string): string
    decreases |s|
  {
    if pat == [] then
      if s == [] then rep else rep + [s[0]] + Gsub(s[1..], pat, rep)
    else if |s| < |pat| then s
    else if s[..|pat|] == pat then rep + Gsub(s[|pat|..], pat, rep)
    else [s[0]] + Gsub(s[1..], pat, rep)
  }

  /** A replacement at least as long as the pattern never shortens the string, and one
      at most as long never lengthens it. */
  lemma {:induction false} GsubLengthBound(s: string, pat: string, rep: string)
    requires pat != []
    ensures |rep| >= |pat| ==> |Gsub(s, pat, rep)| >= |s|
    ensures |rep| <= |pat| ==> |Gsub(s, pat, rep)| <= |s|
    decreases |s|
  {
    if |s| < |pat| {
    } else if s[..|pat|] == pat {
      GsubLengthBound(s[|pat|..], pat, rep);
    } else {
      GsubLengthBound(s[1..], pat, rep);
    }
  }

  /** With a non-empty pattern and a replacement of a different length, Gsub leaves the
      string unchanged if and only if the pattern does not occur in it. */
  lemma {:induction false} GsubUnchangedIff(s: string, pat: string, rep: string)
    requires pat != [] && |rep| != |pat|
    ensures Gsub(s, pat, rep) == s <==> forall i :: !OccursAt(s, pat, i)
    decreases |s|
  {
    if forall i :: !OccursAt(s, pat, i) {
      GsubNoMatch(s, pat, rep);
    } else if |s| < |pat| {
      assert false;
    } else if s[..|pat|] == pat {
      GsubLengthBound(s[|pat|..], pat, rep);
      assert |Gsub(s, pat, rep)| != |s|;
    } else {
      var i :| OccursAt(s, pat, i);
      assert i != 0;
      assert s[1..][i - 1..i - 1 + |pat|] == s[i..i + |pat|];
      assert OccursAt(s[1..], pat, i - 1);
      GsubUnchangedIff(s[1..], pat, rep);
      assert Gsub(s, pat, rep) == [s[0]] + Gsub(s[1..], pat, rep);
    }
  }

  /** Without any occurrence of the pattern, Gsub is the identity. */
  lemma {:induction false} GsubNoMatch(s: string, pat: string, rep: string)
    requires pat != []
    requires forall i :: !OccursAt(s, pat, i)
    ensures Gsub(s, pat, rep) == s
    decreases |s|
  {
    if |s| >= |pat| {
      assert !OccursAt(s, pat, 0);
      forall i ensures !OccursAt(s[1..], pat, i) {
        if 0 <= i && i + |pat| <= |s| - 1 {
          assert s[1..][i..i + |pat|] == s[i + 1..i + 1 + |pat|];
          assert !OccursAt(s, pat, i + 1);
        }
      }
      GsubNoMatch(s[1..], pat, rep);
    }
  }

  /** A prefix `x` in which no match starts is copied through unchanged. */
  lemma {:induction false} GsubSkip(x: string, y: string, pat: string, rep: string)
    requires pat != []
    requires forall i :: 0 <= i < |x| ==> !OccursAt(x + y, pat, i)
    ensures Gsub(x + y, pat, rep) == x + Gsub(y, pat, rep)
    decreases |x|
  {
    if x == [] {
      assert x + y == y;
    } else {
      var s := x + y;
      assert !OccursAt(s, pat, 0);
      ShiftNoMatch(x, y, pat);
      GsubSkip(x[1..], y, pat, rep);
      GsubMiss(s, pat, rep);
      assert s[1..] == x[1..] + y;
      var g := Gsub(y, pat, rep);
      Cons(x, g);
    }
  }

  lemma Cons(x: string, g: string)
    requires x != []
    ensures [x[0]] + (x[1..] + g) == x + g
  {
    assert [x[0]] + x[1..] == x;
  }

  /** Dropping the first character of `x` keeps "no match starts in x". */
  lemma ShiftNoMatch(x: string, y: string, pat: string)
    requires x != [] && forall i :: 0 <= i < |x| ==> !OccursAt(x + y, pat, i)
    ensures forall i :: 0 <= i < |x| - 1 ==> !OccursAt(x[1..] + y, pat, i)
  {
    var s := x + y;
    assert s[1..] == x[1..] + y;
    forall i | 0 <= i < |x| - 1 ensures !OccursAt(x[1..] + y, pat, i) {
      if i + |pat| <= |s| - 1 {
        assert s[1..][i..i + |pat|] == s[i + 1..i + 1 + |pat|];
      }
      assert !OccursAt(s, pat, i + 1);
    }
  }

  /** Without a match at the front, Gsub copies the first character. */
  lemma GsubMiss(s: string, pat: string, rep: string)
    requires pat != [] && s != [] && !OccursAt(s, pat, 0)
    ensures Gsub(s, pat, rep) == [s[0]] + Gsub(s[1..], pat, rep)
  {
    if |s| < |pat| {
      assert Gsub(s[1..], pat, rep) == s[1..];
      assert [s[0]] + s[1..] == s;
    }
  }

  /** A match at the front is replaced and scanning resumes after it. */
  lemma GsubHit(pat: string, z: string, rep: string)
    requires pat != []
    ensures Gsub(pat + z, pat, rep) == rep + Gsub(z, pat, rep)
  {
    assert (pat + z)[..|pat|] == pat;
    assert (pat + z)[|pat|..] == z;
  }

  // ---- splitting concatenations ----

  /** Position of the first `c` in `s`, or |s| if there is none. */
  function CharIndex(s: string, c: char): nat
  {
    if s == [] || s[0] == c then 0 else 1 + CharIndex(s[1..], c)
  }

  lemma {:induction false} CharIndexAfter(a: string, c: char, rest: string)
    requires c !in a && rest != [] && rest[0] == c
    ensures CharIndex(a + rest, c) == |a|
    decreases |a|
  {
    if a == [] {
      assert a + rest == rest;
    } else {
      assert (a + rest)[1..] == a[1..] + rest;
      assert a[0] in a;
      CharIndexAfter(a[1..], c, rest);
    }
  }

  /** `a + rest`, where `a` holds no `c` and `rest` starts with one, splits uniquely. */
  lemma SplitAt(c: char, a1: string, rest1: string, a2: string, rest2: string)
    requires c !in a1 && c !in a2
    requires rest1 != [] && rest1[0] == c && rest2 != [] && rest2[0] == c
    requires a1 + rest1 == a2 + rest2
    ensures a1 == a2 && rest1 == rest2
  {
    var s := a1 + rest1;
    CharIndexAfter(a1, c, rest1);
    CharIndexAfter(a2, c, rest2);
    assert a1 == s[..|a1|] == a2;
    assert rest1 == s[|a1|..] == rest2;
  }

  /** Removing a common prefix. */
  lemma DropPrefix(p: string, x: string, y: string)
    requires p + x == p + y
    ensures x == y
  {
    assert x == (p + x)[|p|..];
    assert y == (p + y)[|p|..];
  }

  /** The only places `c` can stand in `a + [c] + b` when `a` holds no `c`. */
  lemma CharAfterPrefix(a: string, c: char, b: string, j: int)
    requires c !in a && 0 <= j < |a| + 1 + |b| && (a + [c] + b)[j] == c
    ensures j == |a| || (j > |a| && b[j - |a| - 1] == c)
  {
  }

  // ---- Integer#to_s and String#to_i ----

  predicate IsDigit(c: char) { '0' <= c <= '9' }

  predicate AllDigits(s: string) { forall i :: 0 <= i < |s| ==> IsDigit(s[i]) }

  function DigitChar(d: nat): (c: char)
    requires d < 10
    ensures IsDigit(c) && c as int - '0' as int == d
  {
    ('0' as int + d) as char
  }

  /** Decimal digits of a natural number, most significant first, no leading zeros. */
  function NatToString(n: nat): (s: string)
    ensures |s| > 0 && AllDigits(s)
    decreases n
  {
    if n < 10 then [DigitChar(n)] else NatToString(n / 10) + [DigitChar(n % 10)]
  }

  /** Integer#to_s: a minus sign in front of the digits of a negative number. */
  function IntToString(n: int): (s: string)
    ensures |s| > 0 && (IsDigit(s[0]) || s[0] == '-')
    ensures ',' !in s && ':' !in s
  {
    var d := if n < 0 then NatToString(-n) else NatToString(n);
    assert forall i :: 0 <= i < |d| ==> d[i] != ',' && d[i] != ':';
    if n < 0 then "-" + d else d
  }

  /** The value of a run of decimal digits. */
  function DigitsValue(ds: string): nat
    requires AllDigits(ds)
  {
    if ds == [] then 0
    else DigitsValue(ds[..|ds| - 1]) * 10 + (ds[|ds| - 1] as int - '0' as int)
  }

  /** The white space Ruby skips before a number (ASCII space, \t, \n, \v, \f, \r). */
  predicate IsSpace(c: char)
  {
    c == ' ' || c == '\t' || c == '\n' || c == '\U{B}' || c == '\U{C}' || c == '\r'
  }

  function DropSpace(s: string): (t: string)
    ensures |t| <= |s| && (t == [] || !IsSpace(t[0]))
    ensures t == s[|s| - |t|..]
  {
    if s != [] && IsSpace(s[0]) then DropSpace(s[1..]) else s
  }

  /** The digits String#to_i reads from the front of `s`: a digit, then digits where a
      single underscore may stand between two digits; reading stops at anything else.
      `started` says whether a digit has already been read. Underscores are dropped. */
  function LeadingDigits(s: string, started: bool): (ds: string)
    ensures AllDigits(ds) && |ds| <= |s|
  {
    if s == [] then []
    else if IsDigit(s[0]) then [s[0]] + LeadingDigits(s[1..], true)
    else if started && s[0] == '_' && |s| >= 2 && IsDigit(s[1]) then LeadingDigits(s[1..], true)
    else []
  }

  /** String#to_i in base 10: leading white space, then one optional sign, then digits.
      Anything unparsable yields 0; it never fails. */
  function ToI(s: string): int
  {
    var t := DropSpace(s);
    if t != [] && t[0] == '-' then -(DigitsValue(LeadingDigits(t[1..], false)) as int)
    else if t != [] && t[0] == '+' then DigitsValue(LeadingDigits(t[1..], false))
    else DigitsValue(LeadingDigits(t, false))
  }

  lemma {:induction false} LeadingDigitsAll(s: string, started: bool)
    requires AllDigits(s)
    ensures LeadingDigits(s, started) == s
    decreases |s|
  {
    if s != [] {
      LeadingDigitsAll(s[1..], true);
    }
  }

  lemma {:induction false} DigitsValueOfNat(n: nat)
    ensures DigitsValue(NatToString(n)) == n
    decreases n
  {
    var s := NatToString(n);
    if n >= 10 {
      DigitsValueOfNat(n / 10);
      assert s[..|s| - 1] == NatToString(n / 10);
    }
  }

  /** String#to_i reads back what Integer#to_s writes, for every integer. */
  lemma ToIOfIntToString(n: int)
    ensures ToI(IntToString(n)) == n
  {
    IntToStringCases(n);
    if n < 0 {
      ToIOfNegative(-n);
    } else {
      ToIOfNatToString(n);
    }
  }

  lemma IntToStringCases(n: int)
    ensures n < 0 ==> IntToString(n) == "-" + NatToString(-n)
    ensures n >= 0 ==> IntToString(n) == NatToString(n)
  {
  }

  lemma ToIOfNatToString(m: nat)
    ensures ToI(NatToString(m)) == m
  {
    var d := NatToString(m);
    LeadingDigitsAll(d, false);
    DigitsValueOfNat(m);
    assert !IsSpace(d[0]) && d[0] != '-' && d[0] != '+';
    assert DropSpace(d) == d;
  }

  lemma ToIOfNegative(m: nat)
    ensures ToI("-" + NatToString(m)) == -(m as int)
  {
    var d := NatToString(m);
    LeadingDigitsAll(d, false);
    DigitsValueOfNat(m);
    var s := "-" + d;
    assert DropSpace(s) == s;
    assert s[1..] == d;
  }

  /** Integer#to_s is injective. */
  lemma IntToStringInjective(a: int, b: int)
    requires IntToString(a) == IntToString(b)
    ensures a == b
  {
    ToIOfIntToString(a);
    ToIOfIntToString(b);
  }

  /** A value that, after white space, starts with neither a sign nor a digit reads as 0. */
  lemma ToINonNumeric(s: string)
    requires var t := DropSpace(s); t == [] || (!IsDigit(t[0]) && t[0] != '-' && t[0] != '+')
    ensures ToI(s) == 0
  {
  }
}
