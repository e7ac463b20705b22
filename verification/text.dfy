/** String operations the client relies on: Python's substring test,
    `str.lower()`, the ordering of `str` values, and `str(int)`. */
module Text {

  /** `p` is a prefix of `s`. */
  predicate IsPrefix(p: string, s: string) {
    |p| <= |s| && s[..|p|] == p
  }

  /** `sub` occurs in `s` starting at index `i`. */
  predicate OccursAt(s: string, sub: string, i: int) {
    0 <= i && i + |sub| <= |s| && s[i..i + |sub|] == sub
  }

  /** Python's `sub in s` on strings: `sub` occurs at some position of `s`. */
  predicate Contains(s: string, sub: string): (b: bool)
    ensures b <==> exists i :: OccursAt(s, sub, i)
    decreases |s|
  {
    if IsPrefix(sub, s) then
      assert OccursAt(s, sub, 0);
      true
    else if |s| == 0 then
      false
    else
      OccursLater(s, sub);
      Contains(s[1..], sub)
  }

  /** When `sub` is not a prefix of a non-empty `s`, it occurs in `s` exactly
      when it occurs in `s[1..]`. */
  lemma OccursLater(s: string, sub: string)
    requires |s| > 0 && !IsPrefix(sub, s)
    ensures (exists i :: OccursAt(s, sub, i)) <==> exists i :: OccursAt(s[1..], sub, i)
  {
    if exists i :: OccursAt(s[1..], sub, i) {
      var i :| OccursAt(s[1..], sub, i);
      assert s[1..][i..i + |sub|] == s[i + 1..i + 1 + |sub|];
      assert OccursAt(s, sub, i + 1);
    }
    if exists i :: OccursAt(s, sub, i) {
      var i :| OccursAt(s, sub, i);
      assert i != 0;
      assert s[1..][i - 1..i - 1 + |sub|] == s[i..i + |sub|];
      assert OccursAt(s[1..], sub, i - 1);
    }
  }

  /** A string whose first character never occurs in `s` is not a substring of `s`. */
  lemma {:induction false} AbsentLeadChar(s: string, sub: string)
    requires |sub| > 0
    requires sub[0] !in s
    ensures !Contains(s, sub)
    decreases |s|
  {
    if |s| > 0 {
      assert s[0] != sub[0];
      assert s == [s[0]] + s[1..];
      AbsentLeadChar(s[1..], sub);
    }
  }

  /** A string shorter than `sub` does not contain it. */
  lemma {:induction false} ShortLacks(s: string, sub: string)
    requires |s| < |sub|
    ensures !Contains(s, sub)
    decreases |s|
  {
    if |s| > 0 {
      ShortLacks(s[1..], sub);
    }
  }

  /** When the first character of `sub` does not occur in `a`, and the tail
      `b` is too short to hold `sub`, then `a + b` does not contain `sub`. */
  lemma {:induction false} LeadOnlyInShortTail(a: string, b: string, sub: string)
    requires |sub| > 0
    requires sub[0] !in a
    requires |b| < |sub|
    ensures !Contains(a + b, sub)
    decreases |a|
  {
    if |a| == 0 {
      assert a + b == b;
      ShortLacks(b, sub);
    } else {
      assert (a + b)[0] == a[0];
      assert (a + b)[1..] == a[1..] + b;
      assert a[0] != sub[0];
      if |sub| <= |a + b| {
        assert (a + b)[..|sub|][0] == a[0];
      }
      LeadOnlyInShortTail(a[1..], b, sub);
    }
  }

  /** Python's `str.lower()` on one character, for the ASCII letters. */
  function LowerChar(c: char): char {
    if 'A' <= c <= 'Z' then (c as int + 32) as char else c
  }

  /** Python's `str.lower()`, character by character: no upper-case ASCII
      letter is left, each one becomes its lower-case letter, and every
      other character is kept. */
  function Lower(s: string): (r: string)
    ensures |r| == |s|
    ensures forall i :: 0 <= i < |r| ==> !('A' <= r[i] <= 'Z')
    ensures forall i :: 0 <= i < |s| && 'A' <= s[i] <= 'Z' ==> r[i] as int == s[i] as int + 32
    ensures forall i :: 0 <= i < |s| && !('A' <= s[i] <= 'Z') ==> r[i] == s[i]
  {
    seq(|s|, i requires 0 <= i < |s| => LowerChar(s[i]))
  }

  /** Lower-casing twice is lower-casing once: keys already compared
      case-insensitively compare the same again. */
  lemma LowerIdempotent(s: string)
    ensures Lower(Lower(s)) == Lower(s)
  {
  }

  /** Every character is in the ASCII range, so Python 2 can encode the
      string as `str` without raising `UnicodeEncodeError`. */
  predicate IsAscii(s: string) {
    forall i :: 0 <= i < |s| ==> s[i] as int < 128
  }

  lemma AsciiConcat(a: string, b: string)
    ensures IsAscii(a + b) <==> IsAscii(a) && IsAscii(b)
  {
    if IsAscii(a) && IsAscii(b) {
      forall i | 0 <= i < |a + b|
        ensures (a + b)[i] as int < 128
      {
        if i >= |a| {
          assert (a + b)[i] == b[i - |a|];
        }
      }
    }
    if IsAscii(a + b) {
      forall i | 0 <= i < |a|
        ensures a[i] as int < 128
      {
        assert (a + b)[i] == a[i];
      }
      forall i | 0 <= i < |b|
        ensures b[i] as int < 128
      {
        assert (a + b)[|a| + i] == b[i];
      }
    }
  }

  /** Python's `a <= b` on strings: lexicographic by code point, a proper
      prefix ordered first. */
  predicate LexLe(a: string, b: string): (r: bool)
    ensures r <==> IsPrefix(a, b) || exists i :: FirstDifference(a, b, i) && a[i] < b[i]
    decreases |a|
  {
    if |a| == 0 then
      true
    else if |b| == 0 then
      false
    else if a[0] != b[0] then
      HeadDifference(a, b);
      a[0] < b[0]
    else
      LexLeShift(a, b);
      LexLe(a[1..], b[1..])
  }

  /** `a` and `b` agree before index `i` and differ at `i`. */
  predicate FirstDifference(a: string, b: string, i: int) {
    0 <= i < |a| && i < |b| && a[..i] == b[..i] && a[i] != b[i]
  }

  lemma HeadDifference(a: string, b: string)
    requires |a| > 0 && |b| > 0 && a[0] != b[0]
    ensures !IsPrefix(a, b)
    ensures FirstDifference(a, b, 0)
    ensures forall i :: FirstDifference(a, b, i) ==> i == 0
  {
    if |a| <= |b| {
      assert b[..|a|][0] == b[0];
    }
  }

  lemma LexLeShift(a: string, b: string)
    requires |a| > 0 && |b| > 0 && a[0] == b[0]
    ensures IsPrefix(a, b) <==> IsPrefix(a[1..], b[1..])
    ensures (exists i :: FirstDifference(a, b, i) && a[i] < b[i])
        <==> exists i :: FirstDifference(a[1..], b[1..], i) && a[1..][i] < b[1..][i]
  {
    if |a| <= |b| {
      assert b[..|a|] == [b[0]] + b[1..][..|a| - 1];
      assert a == [a[0]] + a[1..];
    }
    if exists i :: FirstDifference(a, b, i) && a[i] < b[i] {
      var i :| FirstDifference(a, b, i) && a[i] < b[i];
      assert i > 0;
      assert a[1..][..i - 1] == a[..i][1..];
      assert b[1..][..i - 1] == b[..i][1..];
      assert FirstDifference(a[1..], b[1..], i - 1);
    }
    if exists i :: FirstDifference(a[1..], b[1..], i) && a[1..][i] < b[1..][i] {
      var i :| FirstDifference(a[1..], b[1..], i) && a[1..][i] < b[1..][i];
      assert a[..i + 1] == [a[0]] + a[1..][..i];
      assert b[..i + 1] == [b[0]] + b[1..][..i];
      assert FirstDifference(a, b, i + 1);
    }
  }

  lemma {:induction false} LexLeReflexive(a: string)
    ensures LexLe(a, a)
    decreases |a|
  {
    if |a| > 0 {
      LexLeReflexive(a[1..]);
    }
  }

  lemma {:induction false} LexLeTotal(a: string, b: string)
    ensures LexLe(a, b) || LexLe(b, a)
    decreases |a|
  {
    if |a| > 0 && |b| > 0 && a[0] == b[0] {
      LexLeTotal(a[1..], b[1..]);
    }
  }

  lemma {:induction false} LexLeAntisymmetric(a: string, b: string)
    requires LexLe(a, b) && LexLe(b, a)
    ensures a == b
    decreases |a|
  {
    if |a| > 0 {
      LexLeAntisymmetric(a[1..], b[1..]);
      assert a == [a[0]] + a[1..];
      assert b == [b[0]] + b[1..];
    }
  }

  lemma {:induction false} LexLeTransitive(a: string, b: string, c: string)
    requires LexLe(a, b) && LexLe(b, c)
    ensures LexLe(a, c)
    decreases |a|
  {
    if |a| > 0 && a[0] == b[0] && b[0] == c[0] {
      LexLeTransitive(a[1..], b[1..], c[1..]);
    }
  }

  predicate IsDigit(c: char) {
    '0' <= c <= '9'
  }

  function DigitChar(d: nat): char
    requires d < 10
  {
    ('0' as int + d) as char
  }

  function DigitValue(c: char): nat
    requires IsDigit(c)
  {
    c as int - '0' as int
  }

  /** Python's `str(n)` for a non-negative integer: its decimal digits. */
  function NatToDecimal(n: nat): (s: string)
    ensures 0 < |s|
    ensures forall i :: 0 <= i < |s| ==> IsDigit(s[i])
    ensures s[0] == '0' <==> n == 0
    ensures |s| > 1 ==> s[0] != '0'
    decreases n
  {
    if n < 10 then [DigitChar(n)] else NatToDecimal(n / 10) + [DigitChar(n % 10)]
  }

  /** The number a string of decimal digits denotes. */
  function DecimalValue(s: string): nat
    requires forall i :: 0 <= i < |s| ==> IsDigit(s[i])
    decreases |s|
  {
    if |s| == 0 then 0 else 10 * DecimalValue(s[..|s| - 1]) + DigitValue(s[|s| - 1])
  }

  /** Reading back the digits `str(n)` writes gives `n`. */
  lemma {:induction false} DecimalRoundTrip(n: nat)
    ensures DecimalValue(NatToDecimal(n)) == n
    decreases n
  {
    var s := NatToDecimal(n);
    if n >= 10 {
      DecimalRoundTrip(n / 10);
      assert s[..|s| - 1] == NatToDecimal(n / 10);
    }
  }

  /** Python's `str(n)` for any integer: a minus sign before the digits of a
      negative number. */
  function IntToDecimal(n: int): (s: string)
    ensures 0 < |s|
    ensures s[0] == '-' <==> n < 0
    ensures var d := if n < 0 then s[1..] else s;
      && 0 < |d|
      && (forall i :: 0 <= i < |d| ==> IsDigit(d[i]))
      && DecimalValue(d) == (if n < 0 then -n else n)
      && (|d| > 1 ==> d[0] != '0')
  {
    var m: nat := if n < 0 then -n else n;
    DecimalRoundTrip(m);
    if n < 0 then
      assert ("-" + NatToDecimal(m))[1..] == NatToDecimal(m);
      "-" + NatToDecimal(m)
    else NatToDecimal(m)
  }

  /** Different integers are written as different strings. */
  lemma IntToDecimalInjective(a: int, b: int)
    requires IntToDecimal(a) == IntToDecimal(b)
    ensures a == b
  {
    if a < 0 {
      assert IntToDecimal(a)[1..] == NatToDecimal(-a);
      assert IntToDecimal(b)[1..] == NatToDecimal(-b);
      DecimalRoundTrip(-a);
      DecimalRoundTrip(-b);
    } else {
      DecimalRoundTrip(a);
      DecimalRoundTrip(b);
    }
  }
}
