/** Decimal numbers in text, and the order of texts by their characters. */
module Texts {
  import Bytes

  /** The largest integer a JavaScript number holds exactly, and a contract document may carry. */
  const MAX_SAFE: int := 9007199254740991

  predicate IsDigit(c: char) { '0' <= c <= '9' }

  function DigitValue(c: char): nat
    requires IsDigit(c)
  {
    c as int - '0' as int
  }

  predicate AllDigits(s: string) {
    forall i :: 0 <= i < |s| ==> IsDigit(s[i])
  }

  function Value(s: string): nat
    requires AllDigits(s)
  {
    if s == [] then 0 else 10 * Value(s[..|s|-1]) + DigitValue(s[|s|-1])
  }

  function Decimal(n: nat): (s: string)
    ensures |s| >= 1
  {
    var last := [('0' as int + n % 10) as char];
    if n < 10 then last else Decimal(n / 10) + last
  }

  lemma {:induction false} DecimalReadsBack(n: nat)
    ensures AllDigits(Decimal(n)) && Value(Decimal(n)) == n
  {
    var s := Decimal(n);
    if n >= 10 {
      DecimalReadsBack(n / 10);
      assert s[..|s|-1] == Decimal(n / 10);
    } else {
      assert s[..|s|-1] == [];
    }
  }

  lemma {:induction false} LeadingZeros(zeros: string, s: string)
    requires AllDigits(s) && forall i :: 0 <= i < |zeros| ==> zeros[i] == '0'
    ensures AllDigits(zeros + s) && Value(zeros + s) == Value(s)
  {
    if s == [] {
      assert zeros + s == zeros;
      if zeros != [] {
        assert zeros[..|zeros|-1] + [] == zeros[..|zeros|-1];
        LeadingZeros(zeros[..|zeros|-1], []);
      }
    } else {
      LeadingZeros(zeros, s[..|s|-1]);
      assert (zeros + s)[..|zeros + s|-1] == zeros + s[..|s|-1];
    }
  }

  predicate TextLess(a: string, b: string)
    decreases |a|
  {
    if a == [] then b != []
    else if b == [] then false
    else a[0] < b[0] || (a[0] == b[0] && TextLess(a[1..], b[1..]))
  }

  lemma {:induction false} TextLessTransitive(a: string, b: string, c: string)
    requires TextLess(a, b) && TextLess(b, c)
    ensures TextLess(a, c)
    decreases |a|
  {
    if a != [] && b != [] && c != [] && a[0] == b[0] == c[0] {
      TextLessTransitive(a[1..], b[1..], c[1..]);
    }
  }

  lemma {:induction false} TextLessAsymmetric(a: string, b: string)
    ensures !(TextLess(a, b) && TextLess(b, a))
    decreases |a|
  {
    if a != [] && b != [] && a[0] == b[0] {
      TextLessAsymmetric(a[1..], b[1..]);
    }
  }

  lemma {:induction false} TextLessTotal(a: string, b: string)
    ensures TextLess(a, b) || a == b || TextLess(b, a)
    decreases |a|
  {
    if a != [] && b != [] && a[0] == b[0] {
      TextLessTotal(a[1..], b[1..]);
      assert a == [a[0]] + a[1..] && b == [b[0]] + b[1..];
    }
  }

  /** `a` comes first: it is the shorter of a text and its beginning, or its character is the smaller at
      the first place where the two differ. */
  ghost predicate ComesFirst(a: string, b: string) {
    || (|a| < |b| && a == b[..|a|])
    || exists i :: 0 <= i < |a| && i < |b| && a[..i] == b[..i] && a[i] < b[i]
  }

  lemma ComesFirstShorter(c: char, a: string, b: string)
    requires ComesFirst([c] + a, [c] + b)
    ensures ComesFirst(a, b)
  {
    var x, y := [c] + a, [c] + b;
    if i :| 0 <= i < |x| && i < |y| && x[..i] == y[..i] && x[i] < y[i] {
      assert a[..i-1] == x[..i][1..] && b[..i-1] == y[..i][1..];
      assert a[i-1] < b[i-1];
    } else {
      assert b[..|a|] == y[..|x|][1..] == a;
    }
  }

  lemma ComesFirstLonger(c: char, a: string, b: string)
    requires ComesFirst(a, b)
    ensures ComesFirst([c] + a, [c] + b)
  {
    var x, y := [c] + a, [c] + b;
    if i :| 0 <= i < |a| && i < |b| && a[..i] == b[..i] && a[i] < b[i] {
      assert x[..i+1] == [c] + a[..i] && y[..i+1] == [c] + b[..i];
      assert x[i+1] < y[i+1];
    } else {
      assert y[..|x|] == [c] + b[..|a|] == x;
    }
  }

  /** The order of texts is that of a dictionary over the character codes. */
  lemma {:induction false} TextLessExactly(a: string, b: string)
    ensures TextLess(a, b) <==> ComesFirst(a, b)
    decreases |a|
  {
    if a != [] && b != [] {
      if a[0] == b[0] {
        TextLessExactly(a[1..], b[1..]);
        assert a == [a[0]] + a[1..] && b == [a[0]] + b[1..];
        if ComesFirst(a, b) {
          ComesFirstShorter(a[0], a[1..], b[1..]);
        }
        if ComesFirst(a[1..], b[1..]) {
          ComesFirstLonger(a[0], a[1..], b[1..]);
        }
      } else {
        FirstPlaceDecides(a, b);
      }
    }
  }

  lemma FirstPlaceDecides(a: string, b: string)
    requires a != [] && b != [] && a[0] != b[0]
    ensures ComesFirst(a, b) <==> a[0] < b[0]
  {
    if a[0] < b[0] {
      assert a[..0] == b[..0];
    }
    assert |a| < |b| ==> b[..|a|][0] == b[0];
    if i :| 0 <= i < |a| && i < |b| && a[..i] == b[..i] && a[i] < b[i] {
      assert i > 0 ==> a[..i][0] == b[..i][0];
    }
  }

  lemma TenTimes(d: int, p: int, v: int)
    ensures 10 * (d * p + v) == d * (10 * p) + 10 * v
  {
  }

  /** The first digit weighs a power of ten for every digit after it. */
  lemma {:induction false} ValueIsPositional(s: string)
    requires AllDigits(s) && s != []
    ensures Value(s) == (s[0] as int - 48) * Bytes.Power(10, |s| - 1) + Value(s[1..])
    decreases |s|
  {
    var n := |s| - 1;
    if n > 0 {
      ValueIsPositional(s[..n]);
      assert s[..n][1..] == s[1..][..n-1];
      TenTimes(s[0] as int - 48, Bytes.Power(10, n - 1), Value(s[1..n]));
    }
  }
}
