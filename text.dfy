/**
 * The string operations the sound repository relies on, with JavaScript's meaning:
 * the relational operators on strings, `String.prototype.startsWith`, and `String(n)`
 * for the non-negative integer that `Date.now()` returns.
 */
module Text {

  /**
   * JavaScript's `a < b` on two strings: lexicographic by character, and a proper
   * prefix is smaller than the longer string.
   */
  predicate Less(a: string, b: string)
    ensures Less(a, b) ==> a != b
  {
    |b| > 0 && (|a| == 0 || a[0] < b[0] || (a[0] == b[0] && Less(a[1..], b[1..])))
  }

  /**
   * The reference definition of `<` on strings: `a` is a proper prefix of `b`, or
   * at the first position where the two differ, `a` has the smaller character.
   */
  ghost predicate LexicographicallyBefore(a: string, b: string)
  {
    || (|a| < |b| && b[..|a|] == a)
    || exists k :: 0 <= k < |a| && k < |b| && a[..k] == b[..k] && a[k] < b[k]
  }

  /** With equal first characters, the reference order is decided by the rest. */
  lemma LexicographicTail(a: string, b: string)
    requires |a| > 0 && |b| > 0 && a[0] == b[0]
    ensures LexicographicallyBefore(a, b) <==> LexicographicallyBefore(a[1..], b[1..])
  {
    var a', b' := a[1..], b[1..];
    if |a'| < |b'| && b'[..|a'|] == a' {
      assert b[..|a|] == [b[0]] + b'[..|a'|] && a == [a[0]] + a';
    }
    if k :| 0 <= k < |a'| && k < |b'| && a'[..k] == b'[..k] && a'[k] < b'[k] {
      assert a[..k + 1] == [a[0]] + a'[..k] && b[..k + 1] == [b[0]] + b'[..k];
      assert a[k + 1] == a'[k] && b[k + 1] == b'[k];
    }
    if |a| < |b| && b[..|a|] == a {
      assert b'[..|a'|] == b[1..|a|] == b[..|a|][1..] == a';
    }
    if k :| 0 <= k < |a| && k < |b| && a[..k] == b[..k] && a[k] < b[k] {
      assert k > 0;
      assert a'[..k - 1] == a[..k][1..] && b'[..k - 1] == b[..k][1..];
    }
  }

  /** The recursive order agrees with the reference definition, in both directions. */
  lemma {:induction false} LessIsLexicographic(a: string, b: string)
    ensures Less(a, b) <==> LexicographicallyBefore(a, b)
  {
    if |a| > 0 && |b| > 0 {
      if a[0] < b[0] {
        assert a[..0] == b[..0];
      } else if a[0] > b[0] {
        forall k | 0 < k <= |a| && k <= |b|
          ensures a[..k] != b[..k]
        {
          assert a[..k][0] == a[0] && b[..k][0] == b[0];
        }
      } else {
        LessIsLexicographic(a[1..], b[1..]);
        LexicographicTail(a, b);
      }
    }
  }

  lemma {:induction false} LessIrreflexive(a: string)
    ensures !Less(a, a)
  {
    if |a| > 0 {
      LessIrreflexive(a[1..]);
    }
  }

  lemma {:induction false} LessAsymmetric(a: string, b: string)
    requires Less(a, b)
    ensures !Less(b, a)
  {
    if |a| > 0 && a[0] == b[0] {
      LessAsymmetric(a[1..], b[1..]);
    }
  }

  lemma {:induction false} LessTransitive(a: string, b: string, c: string)
    requires Less(a, b) && Less(b, c)
    ensures Less(a, c)
  {
    if |a| > 0 && a[0] == b[0] && b[0] == c[0] {
      LessTransitive(a[1..], b[1..], c[1..]);
    }
  }

  /** Two different strings are always ordered one way or the other. */
  lemma {:induction false} LessTotal(a: string, b: string)
    requires a != b
    ensures Less(a, b) || Less(b, a)
  {
    if |a| > 0 && |b| > 0 && a[0] == b[0] {
      assert a == [a[0]] + a[1..] && b == [b[0]] + b[1..];
      LessTotal(a[1..], b[1..]);
    }
  }

  /** Neither smaller than the other means equal. */
  lemma {:induction false} NotLessAntisymmetric(a: string, b: string)
    requires !Less(a, b) && !Less(b, a)
    ensures a == b
  {
    if |a| > 0 {
      assert |b| > 0 && a[0] == b[0];
      NotLessAntisymmetric(a[1..], b[1..]);
      assert a == [a[0]] + a[1..] && b == [b[0]] + b[1..];
    }
  }

  /** "Not smaller" is transitive too: the order on strings is a total preorder. */
  lemma NotLessTransitive(a: string, b: string, c: string)
    requires !Less(a, b) && !Less(b, c)
    ensures !Less(a, c)
  {
    if a != b && b != c {
      LessTotal(a, b);
      LessTotal(b, c);
      LessTransitive(c, b, a);
      LessAsymmetric(c, a);
    }
  }

  /** `s.startsWith(prefix)`: `s` agrees with `prefix` at every position of `prefix`. */
  predicate StartsWith(s: string, prefix: string)
    ensures StartsWith(s, prefix) <==>
      |prefix| <= |s| && forall k :: 0 <= k < |prefix| ==> s[k] == prefix[k]
  {
    |prefix| <= |s| && s[..|prefix|] == prefix
  }

  lemma StartsWithConcat(prefix: string, rest: string)
    ensures StartsWith(prefix + rest, prefix)
  {
    assert (prefix + rest)[..|prefix|] == prefix;
  }

  predicate IsDigit(c: char)
  {
    '0' <= c <= '9'
  }

  predicate AllDigits(s: string)
  {
    forall k :: 0 <= k < |s| ==> IsDigit(s[k])
  }

  function Digit(d: nat): (c: char)
    requires d < 10
    ensures IsDigit(c)
  {
    (('0' as int) + d) as char
  }

  function DigitValue(c: char): (d: nat)
    requires IsDigit(c)
    ensures d < 10 && Digit(d) == c
  {
    (c as int) - ('0' as int)
  }

  /**
   * `String(n)` for a non-negative integer below 10^21 (above that JavaScript
   * switches to exponent notation; `Date.now()` stays far below it).
   */
  function DecimalString(n: nat): (s: string)
    ensures |s| >= 1 && AllDigits(s)
    ensures |s| > 1 ==> s[0] != '0'
  {
    if n < 10 then [Digit(n)] else DecimalString(n / 10) + [Digit(n % 10)]
  }

  /** The value of a string of decimal digits: the inverse of DecimalString. */
  function ParseDecimal(s: string): nat
    requires AllDigits(s)
  {
    if s == [] then 0 else 10 * ParseDecimal(s[..|s| - 1]) + DigitValue(s[|s| - 1])
  }

  lemma {:induction false} ParseDecimalString(n: nat)
    ensures ParseDecimal(DecimalString(n)) == n
  {
    if n >= 10 {
      var s := DecimalString(n);
      assert s[..|s| - 1] == DecimalString(n / 10);
      ParseDecimalString(n / 10);
    }
  }

  /** Different clock values give different ids. */
  lemma DecimalStringInjective(m: nat, n: nat)
    requires DecimalString(m) == DecimalString(n)
    ensures m == n
  {
    ParseDecimalString(m);
    ParseDecimalString(n);
  }

  /**
   * A digit string followed by "-" can be split back apart: the first "-" marks the
   * end of the digits.
   */
  lemma {:induction false} DashSplit(d1: string, n1: string, d2: string, n2: string)
    requires AllDigits(d1) && AllDigits(d2)
    requires d1 + "-" + n1 == d2 + "-" + n2
    ensures d1 == d2 && n1 == n2
  {
    var s1, s2 := d1 + "-" + n1, d2 + "-" + n2;
    assert s1[0] == (if |d1| == 0 then '-' else d1[0]);
    assert s2[0] == (if |d2| == 0 then '-' else d2[0]);
    if |d1| == 0 {
      assert |d2| == 0;
      assert n1 == s1[1..] == s2[1..] == n2;
    } else {
      assert |d2| > 0;
      assert s1[1..] == d1[1..] + "-" + n1;
      assert s2[1..] == d2[1..] + "-" + n2;
      DashSplit(d1[1..], n1, d2[1..], n2);
      assert d1 == [d1[0]] + d1[1..] && d2 == [d2[0]] + d2[1..];
    }
  }
}
