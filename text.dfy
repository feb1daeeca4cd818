/**
 * Decimal digit strings: Python's `str(n)` for integers and the digit-string
 * value that Python's `Decimal` constructor reads back.
 */
module Text {

  function Pow10(n: nat): (p: nat)
    ensures p >= 1
  {
    if n == 0 then 1 else 10 * Pow10(n - 1)
  }

  predicate IsDigit(c: char) {
    '0' <= c <= '9'
  }

  predicate AllDigits(s: string) {
    forall i :: 0 <= i < |s| ==> IsDigit(s[i])
  }

  function DigitValue(c: char): (d: nat)
    requires IsDigit(c)
    ensures d < 10
  {
    c as int - '0' as int
  }

  function DigitChar(d: nat): (c: char)
    requires d < 10
    ensures IsDigit(c) && DigitValue(c) == d
  {
    ('0' as int + d) as char
  }

  /** Python's `str(n)` for a non-negative integer: canonical digits, no leading zero. */
  function NatToText(n: nat): (s: string)
    ensures |s| >= 1 && AllDigits(s)
    ensures s[0] == '0' ==> n == 0
    ensures |s| == 1 <==> n < 10
    decreases n
  {
    if n < 10 then [DigitChar(n)] else NatToText(n / 10) + [DigitChar(n % 10)]
  }

  /** Python's `str(i)` for any integer: a `-` when negative, then the canonical digits of `|i|`. */
  function IntToText(i: int): (s: string)
    ensures |s| >= 1
    ensures s[0] == '-' <==> i < 0
    ensures i >= 0 ==> AllDigits(s) && DigitsValue(s) == i && (s[0] == '0' ==> |s| == 1)
    ensures i < 0 ==> |s| >= 2 && AllDigits(s[1..]) && DigitsValue(s[1..]) == -i && s[1] != '0'
  {
    if i < 0 then
      NatToTextRoundTrip(-i);
      assert ("-" + NatToText(-i))[1..] == NatToText(-i);
      "-" + NatToText(-i)
    else
      NatToTextRoundTrip(i);
      NatToText(i)
  }

  /** The number a string of decimal digits denotes (the empty string denotes 0). */
  function DigitsValue(s: string): nat
    requires AllDigits(s)
  {
    if s == [] then 0 else DigitsValue(s[..|s| - 1]) * 10 + DigitValue(s[|s| - 1])
  }

  /** Reading back what `NatToText` wrote gives the number again. */
  lemma {:induction false} NatToTextRoundTrip(n: nat)
    ensures DigitsValue(NatToText(n)) == n
    decreases n
  {
    if n >= 10 {
      var s := NatToText(n);
      NatToTextRoundTrip(n / 10);
      assert s[..|s| - 1] == NatToText(n / 10);
    }
  }

  /** The value of two digit strings written one after the other. */
  lemma {:induction false} DigitsValueAppend(a: string, b: string)
    requires AllDigits(a) && AllDigits(b)
    ensures AllDigits(a + b)
    ensures DigitsValue(a + b) == DigitsValue(a) * Pow10(|b|) + DigitsValue(b)
    decreases |b|
  {
    if b == [] {
      assert a + b == a;
    } else {
      var b' := b[..|b| - 1];
      assert (a + b)[..|a + b| - 1] == a + b';
      DigitsValueAppend(a, b');
      var x, p, y, d := DigitsValue(a), Pow10(|b'|), DigitsValue(b'), DigitValue(b[|b| - 1]);
      assert DigitsValue(a + b) == (x * p + y) * 10 + d;
      assert Pow10(|b|) == p * 10;
      ShiftDigit(x, p, y, d);
    }
  }

  /** Appending one digit to `x * p + y` shifts both parts. */
  lemma ShiftDigit(x: int, p: int, y: int, d: int)
    ensures (x * p + y) * 10 + d == x * (p * 10) + (y * 10 + d)
  {
  }

  /** Text put between a prefix and a suffix can be cut out again. */
  lemma Enclosed<T>(prefix: seq<T>, middle: seq<T>, suffix: seq<T>)
    ensures var s := prefix + middle + suffix;
      && s[..|prefix|] == prefix
      && s[|prefix|..|s| - |suffix|] == middle
      && s[|s| - |suffix|..] == suffix
  {
    var s := prefix + middle + suffix;
    assert s[..|prefix|] == prefix;
    assert s[|prefix|..|s| - |suffix|] == middle;
    assert s[|s| - |suffix|..] == suffix;
  }

  /** A head, a body, a last piece and a closing element, one after the other. */
  function Closed<T>(head: seq<T>, body: seq<T>, last: seq<T>, close: T): (s: seq<T>)
    ensures |s| == |head| + |body| + |last| + 1
    ensures s[..|head|] == head
    ensures s[|head|..|s| - |last| - 1] == body
    ensures s[|s| - |last| - 1..|s| - 1] == last
    ensures s[|s| - 1] == close
  {
    var s := head + body + last + [close];
    assert s[..|head|] == head;
    assert s[|head|..|s| - |last| - 1] == body;
    assert s[|s| - |last| - 1..|s| - 1] == last;
    s
  }

  /**
   * The first position holding `x`, as Python's `list.index` finds it. When
   * `x` is absent the result is `|s|`, a convention of this model: `list.index`
   * would raise and `str.find` would give -1.
   */
  function IndexOf<T(==)>(s: seq<T>, x: T): (i: nat)
    ensures i <= |s|
    ensures i < |s| ==> s[i] == x
    ensures forall j :: 0 <= j < i ==> s[j] != x
  {
    if s == [] then 0 else if s[0] == x then 0 else 1 + IndexOf(s[1..], x)
  }
}
