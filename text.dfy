/**
 * String helpers shared by the serialisers: substring search (JavaScript's
 * `String.prototype.includes`), counting the matches of a global regular
 * expression made of plain characters (`(s.match(/p/g) || []).length`),
 * decimal rendering of integers (`toString`) and `Array.prototype.join`.
 */
module Text {

  predicate StartsWith(s: string, p: string) {
    |p| <= |s| && s[..|p|] == p
  }

  /** `s.includes(p)`: `p` occurs somewhere in `s`. */
  predicate Contains(s: string, p: string)
    decreases |s|
  {
    StartsWith(s, p) || (|s| > 0 && Contains(s[1..], p))
  }

  /** `Contains` holds exactly when `p` sits at some offset of `s`. */
  lemma {:induction false} ContainsAt(s: string, p: string, i: nat)
    requires i + |p| <= |s| && s[i..i + |p|] == p
    ensures Contains(s, p)
    decreases i
  {
    if i > 0 {
      assert s[1..][i - 1..i - 1 + |p|] == s[i..i + |p|];
      ContainsAt(s[1..], p, i - 1);
    } else {
      assert s[..|p|] == p;
    }
  }

  lemma ContainsInfix(a: string, p: string, b: string)
    ensures Contains(a + p + b, p)
  {
    var s := a + p + b;
    assert s[|a|..|a| + |p|] == p;
    ContainsAt(s, p, |a|);
  }

  /**
   * Number of matches the global regular expression `/p/g` finds in `s`:
   * the scan is left to right and resumes after each match, so matches never
   * overlap.
   */
  function CountMatches(s: string, p: string): nat
    requires |p| > 0
    decreases |s|
  {
    if |s| < |p| then 0
    else if s[..|p|] == p then 1 + CountMatches(s[|p|..], p)
    else CountMatches(s[1..], p)
  }

  /** `s.indexOf(c)`: the first position holding `c`, or -1 when there is none. */
  function IndexOf(s: string, c: char): (i: int)
    ensures -1 <= i < |s|
    ensures i == -1 <==> c !in s
    ensures i >= 0 ==> s[i] == c && forall j | 0 <= j < i :: s[j] != c
  {
    if s == [] then -1
    else if s[0] == c then 0
    else
      var k := IndexOf(s[1..], c);
      assert c in s[1..] ==> c in s;
      assert c in s ==> s[0] == c || c in s[1..];
      if k == -1 then -1 else k + 1
  }

  lemma IndexOfAt(s: string, c: char, i: nat)
    requires i < |s| && s[i] == c && forall j | 0 <= j < i :: s[j] != c
    ensures IndexOf(s, c) == i
  {
  }

  /** `p` occurs in `s` at offset `i`. */
  predicate MatchAt(s: string, p: string, i: int) {
    0 <= i && i + |p| <= |s| && s[i..i + |p|] == p
  }

  /** No occurrence of `p` in `a + b` starts inside `a` and ends inside `b`. */
  ghost predicate NoStraddle(a: string, b: string, p: string) {
    forall i :: 0 <= i < |a| < i + |p| ==> !MatchAt(a + b, p, i)
  }

  /** Counting distributes over a concatenation that no match straddles. */
  lemma {:induction false} CountMatchesConcat(a: string, b: string, p: string)
    requires |p| > 0 && NoStraddle(a, b, p)
    ensures CountMatches(a + b, p) == CountMatches(a, p) + CountMatches(b, p)
    decreases |a|
  {
    var s := a + b;
    if |a| == 0 {
      assert s == b;
    } else if |s| < |p| {
    } else if s[..|p|] == p {
      if |p| <= |a| {
        assert a[..|p|] == s[..|p|];
        var a' := a[|p|..];
        assert s[|p|..] == a' + b;
        forall i | 0 <= i < |a'| < i + |p|
          ensures !MatchAt(a' + b, p, i)
        {
          assert !MatchAt(s, p, i + |p|);
          if i + |p| <= |a' + b| {
            assert (a' + b)[i..i + |p|] == s[i + |p|..i + 2 * |p|];
          }
        }
        CountMatchesConcat(a', b, p);
      } else {
        assert MatchAt(s, p, 0);
      }
    } else {
      var a' := a[1..];
      assert s[1..] == a' + b;
      forall i | 0 <= i < |a'| < i + |p|
        ensures !MatchAt(a' + b, p, i)
      {
        assert !MatchAt(s, p, i + 1);
        if i + |p| <= |a' + b| {
          assert (a' + b)[i..i + |p|] == s[i + 1..i + 1 + |p|];
        }
      }
      CountMatchesConcat(a', b, p);
      if |a| >= |p| {
        assert a[..|p|] == s[..|p|];
      }
    }
  }

  /** No match straddles the seam when `a` ends in a character that no match can have before its last position. */
  lemma NoStraddleByLast(a: string, b: string, p: string)
    requires |p| > 0
    requires a == [] || a[|a| - 1] !in p[..|p| - 1]
    ensures NoStraddle(a, b, p)
  {
    forall i | 0 <= i < |a| < i + |p|
      ensures !MatchAt(a + b, p, i)
    {
      var k := |a| - 1 - i;
      if i + |p| <= |a + b| {
        assert (a + b)[i..i + |p|][k] == a[|a| - 1];
        assert p[..|p| - 1][k] == p[k];
        assert p[k] != a[|a| - 1];
      }
    }
  }

  /** No match straddles the seam when `b` starts with a character that no match can have after its first position. */
  lemma NoStraddleByFirst(a: string, b: string, p: string)
    requires |p| > 0
    requires b == [] || b[0] !in p[1..]
    ensures NoStraddle(a, b, p)
  {
    forall i | 0 <= i < |a| < i + |p|
      ensures !MatchAt(a + b, p, i)
    {
      var k := |a| - i;
      if i + |p| <= |a + b| {
        assert (a + b)[i..i + |p|][k] == b[0];
        assert p[1..][k - 1] == p[k];
        assert p[k] != b[0];
      }
    }
  }

  /** A string lacking one of the pattern's characters has no match. */
  lemma {:induction false} CountMatchesAbsent(s: string, p: string, c: char)
    requires |p| > 0 && c in p && c !in s
    ensures CountMatches(s, p) == 0
    decreases |s|
  {
    if |s| >= |p| {
      assert c !in s[..|p|];
      assert c !in s[1..] by {
        forall i | 0 <= i < |s| - 1 ensures s[1..][i] != c { assert s[1..][i] == s[i + 1]; }
      }
      CountMatchesAbsent(s[1..], p, c);
    }
  }

  lemma CountMatchesSelf(p: string)
    requires |p| > 0
    ensures CountMatches(p, p) == 1
  {
    assert p[..|p|] == p;
    assert p[|p|..] == [];
  }

  /** `a + b` counts as the two parts when `a` ends in a character which cannot begin or continue a straddling match. */
  lemma CountMatchesConcatByLast(a: string, b: string, p: string)
    requires |p| > 0 && (a == [] || a[|a| - 1] !in p[..|p| - 1])
    ensures CountMatches(a + b, p) == CountMatches(a, p) + CountMatches(b, p)
  {
    NoStraddleByLast(a, b, p);
    CountMatchesConcat(a, b, p);
  }

  /** `a + b` counts as the two parts when `b` starts with a character that no straddling match can continue with. */
  lemma CountMatchesConcatByFirst(a: string, b: string, p: string)
    requires |p| > 0 && (b == [] || b[0] !in p[1..])
    ensures CountMatches(a + b, p) == CountMatches(a, p) + CountMatches(b, p)
  {
    NoStraddleByFirst(a, b, p);
    CountMatchesConcat(a, b, p);
  }

  predicate IsDigit(c: char) {
    '0' <= c <= '9'
  }

  function DigitChar(d: nat): (c: char)
    requires d < 10
    ensures IsDigit(c) && c as int - '0' as int == d
  {
    ['0', '1', '2', '3', '4', '5', '6', '7', '8', '9'][d]
  }

  /** Decimal rendering of a natural number, as JavaScript's `Number.prototype.toString()`. */
  function NatToString(n: nat): (s: string)
    ensures |s| >= 1
    ensures forall i | 0 <= i < |s| :: IsDigit(s[i])
    ensures (s[0] == '0') <==> n == 0
    ensures n < 10 <==> |s| == 1
  {
    if n < 10 then [DigitChar(n)] else NatToString(n / 10) + [DigitChar(n % 10)]
  }

  /** Reads a string of decimal digits back as a number; the inverse of `NatToString`. */
  function ParseDecimal(s: string): nat
    requires forall i | 0 <= i < |s| :: IsDigit(s[i])
  {
    if s == [] then 0
    else
      assert IsDigit(s[|s| - 1]);
      ParseDecimal(s[..|s| - 1]) * 10 + (s[|s| - 1] as int - '0' as int)
  }

  lemma {:induction false} ParseNatToString(n: nat)
    ensures ParseDecimal(NatToString(n)) == n
  {
    if n >= 10 {
      var s := NatToString(n);
      assert s[..|s| - 1] == NatToString(n / 10);
      ParseNatToString(n / 10);
    }
  }

  /** Distinct numbers have distinct decimal renderings. */
  lemma NatToStringInjective(m: nat, n: nat)
    requires NatToString(m) == NatToString(n)
    ensures m == n
  {
    ParseNatToString(m);
    ParseNatToString(n);
  }

  /** Decimal rendering of an integer; negative numbers get a leading `-`. */
  function IntToString(i: int): (s: string)
    ensures |s| >= 1
    ensures i >= 0 ==> s == NatToString(i)
    ensures i < 0 ==> s == "-" + NatToString(-i)
  {
    if i < 0 then "-" + NatToString(-i) else NatToString(i)
  }

  /** `parts.join(sep)`. */
  function Join(parts: seq<string>, sep: string): string
  {
    if |parts| == 0 then ""
    else if |parts| == 1 then parts[0]
    else parts[0] + sep + Join(parts[1..], sep)
  }
}
