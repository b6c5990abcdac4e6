/** Decimal text of integers, and the logger's integer printer `Stream::parseLength` and
    `Stream::parse`. */
module Decimal {

  predicate IsDigit(c: char) {
    '0' <= c <= '9'
  }

  function Digit(n: int): (c: char)
    requires 0 <= n < 10
    ensures IsDigit(c) && DigitValue(c) == n
  {
    '0' + n as char
  }

  function DigitValue(c: char): int {
    c as int - '0' as int
  }

  /** The number a digit string denotes, read from the left. */
  function Value(s: string): int {
    if |s| == 0 then 0 else 10 * Value(s[..|s| - 1]) + DigitValue(s[|s| - 1])
  }

  /** The decimal text of a natural number. */
  function Text(n: nat): string {
    if n < 10 then [Digit(n)] else Text(n / 10) + [Digit(n % 10)]
  }

  /** The decimal text of an integer. */
  function SignedText(n: int): string {
    if n < 0 then ['-'] + Text(-n) else Text(n)
  }

  /** What a signed text denotes. */
  function SignedValue(s: string): int {
    if |s| > 0 && s[0] == '-' then -Value(s[1..]) else Value(s)
  }

  /** `n` in exactly `width` digits, with leading zeros. */
  function Pad(n: nat, width: nat): (s: string)
    ensures |s| == width
  {
    if width == 0 then "" else Pad(n / 10, width - 1) + [Digit(n % 10)]
  }

  function Pow10(k: nat): (p: nat)
    ensures p > 0
  {
    if k == 0 then 1 else 10 * Pow10(k - 1)
  }

  // ----- reading back -----

  lemma ValueOfAppend(s: string, c: char)
    ensures Value(s + [c]) == 10 * Value(s) + DigitValue(c)
  {
    assert (s + [c])[..|s|] == s;
  }

  /** Text is digits, has no leading zero, and reads back as the number. */
  lemma {:induction false} TextReadsBack(n: nat)
    ensures Value(Text(n)) == n
    ensures |Text(n)| > 0 && forall i :: 0 <= i < |Text(n)| ==> IsDigit(Text(n)[i])
    ensures Text(n)[0] == '0' <==> n == 0
  {
    if n < 10 {
      ValueOfAppend("", Digit(n));
      assert "" + [Digit(n)] == Text(n);
    } else {
      TextReadsBack(n / 10);
      ValueOfAppend(Text(n / 10), Digit(n % 10));
    }
  }

  /** The text of an integer denotes that integer. */
  lemma SignedTextReadsBack(n: int)
    ensures SignedValue(SignedText(n)) == n
    ensures SignedText(n)[0] == '-' <==> n < 0
  {
    if n < 0 {
      TextReadsBack(-n);
      assert SignedText(n)[1..] == Text(-n);
    } else {
      TextReadsBack(n);
    }
  }

  lemma {:induction false} PadReadsBack(n: nat, width: nat)
    requires n < Pow10(width)
    ensures Value(Pad(n, width)) == n
  {
    if width > 0 {
      PadReadsBack(n / 10, width - 1);
      ValueOfAppend(Pad(n / 10, width - 1), Digit(n % 10));
    }
  }

  // ----- widths -----

  lemma {:induction false} TextWidth(n: nat)
    requires n > 0
    ensures Pow10(|Text(n)| - 1) <= n < Pow10(|Text(n)|)
  {
    if n >= 10 {
      TextWidth(n / 10);
    }
  }

  lemma {:induction false} Pow10Grows(j: nat, k: nat)
    requires j <= k
    ensures Pow10(j) <= Pow10(k)
  {
    if j < k {
      Pow10Grows(j, k - 1);
    }
  }

  lemma WidthIs(n: nat, k: nat)
    requires Pow10(k) <= n < Pow10(k + 1)
    ensures |Text(n)| == k + 1
  {
    TextWidth(n);
    var w := |Text(n)|;
    if w < k + 1 {
      Pow10Grows(w, k);
    } else if k + 1 < w {
      Pow10Grows(k + 1, w - 1);
    }
  }

  lemma Pow10Values()
    ensures Pow10(1) == 10 && Pow10(2) == 100 && Pow10(3) == 1000 && Pow10(4) == 10000
    ensures Pow10(5) == 100000 && Pow10(6) == 1000000 && Pow10(7) == 10000000
    ensures Pow10(8) == 100000000 && Pow10(9) == 1000000000 && Pow10(10) == 10000000000
  {
    assert Pow10(2) == 100;
    assert Pow10(4) == 10000;
    assert Pow10(6) == 1000000;
    assert Pow10(8) == 100000000;
  }

  lemma {:induction false} Pow10Shift(k: nat)
    ensures Pow10(k + 10) == 10000000000 * Pow10(k)
  {
    if k == 0 {
      Pow10Values();
    } else {
      Pow10Shift(k - 1);
      assert Pow10(k - 1 + 10) == Pow10(k + 9);
    }
  }

  lemma TenDigitsMore(n: nat)
    requires n >= 10000000000
    ensures |Text(n)| == 10 + |Text(n / 10000000000)|
  {
    var q := n / 10000000000;
    TextWidth(q);
    var k := |Text(q)| - 1;
    Pow10Shift(k);
    Pow10Shift(k + 1);
    assert k + 1 + 10 == k + 10 + 1;
    WidthIs(n, k + 10);
  }

  lemma SmallWidth(n: nat)
    requires n < 10000000000
    ensures |Text(n)| == if n <= 9 then 1 else if n <= 99 then 2 else if n <= 999 then 3
                    else if n <= 9999 then 4 else if n <= 99999 then 5 else if n <= 999999 then 6
                    else if n <= 9999999 then 7 else if n <= 99999999 then 8
                    else if n <= 999999999 then 9 else 10
  {
    Pow10Values();
    if n > 9 {
      WidthIs(n, if n <= 99 then 1 else if n <= 999 then 2
        else if n <= 9999 then 3 else if n <= 99999 then 4 else if n <= 999999 then 5
        else if n <= 9999999 then 6 else if n <= 99999999 then 7
        else if n <= 999999999 then 8 else 9);
    }
  }

  // ----- the code -----

  /** `Stream::parseLength` of an integer: the exact width of its text. */
  function ParseLength(val: int): (r: nat)
    ensures r == |SignedText(val)|
    decreases val < 0, if val < 0 then -val else val
  {
    if val >= 0 then
      if val < 10000000000 then
        SmallWidth(val);
        if val == 0 then 1
        else if val <= 9 then 1
        else if val <= 99 then 2
        else if val <= 999 then 3
        else if val <= 9999 then 4
        else if val <= 99999 then 5
        else if val <= 999999 then 6
        else if val <= 9999999 then 7
        else if val <= 99999999 then 8
        else if val <= 999999999 then 9
        else 10
      else
        TenDigitsMore(val);
        10 + ParseLength(val / 10000000000)
    else
      1 + ParseLength(-val)
  }

  lemma LastDigit(m: nat, digits: string)
    requires m > 0 && Text(m) == digits
    ensures |digits| > 0 && digits[|digits| - 1] == Digit(m % 10)
    ensures if m / 10 == 0 then |digits| == 1 else Text(m / 10) == digits[..|digits| - 1]
  {
  }

  /** The loop of `Stream::parse`: writes the digits of `val` so that they end at `buf[last]`. */
  method ParseDigits(buf: array<char>, first: nat, last: int, val: nat)
    requires first <= last + 1 <= buf.Length
    requires last + 1 - first == if val == 0 then 0 else |Text(val)|
    modifies buf
    ensures val > 0 ==> buf[first..last + 1] == Text(val)
    ensures forall i :: 0 <= i < first || last < i < buf.Length ==> buf[i] == old(buf[i])
  {
    ghost var digits := if val == 0 then "" else Text(val);
    var cur, msg := last, val;
    while msg != 0
      invariant first <= cur + 1 <= last + 1
      invariant if msg == 0 then cur + 1 == first else Text(msg) == digits[..cur + 1 - first]
      invariant forall i :: cur < i <= last ==> buf[i] == digits[i - first]
      invariant forall i :: 0 <= i < first || last < i < buf.Length ==> buf[i] == old(buf[i])
    {
      LastDigit(msg, digits[..cur + 1 - first]);
      assert digits[..cur - first] == digits[..cur + 1 - first][..cur - first];
      buf[cur] := Digit(msg % 10);
      cur := cur - 1;
      msg := msg / 10;
    }
  }

  /** A negative integer: the sign, then the digits of its negation. */
  method ParseNegative(buf: array<char>, at: nat, val: int, length: nat)
    requires val < 0 && length == 1 + |Text(-val)|
    requires at + length <= buf.Length
    modifies buf
    ensures buf[at..at + length] == ['-'] + Text(-val)
    ensures forall i :: 0 <= i < at || at + length <= i < buf.Length ==> buf[i] == old(buf[i])
  {
    buf[at] := '-';
    ParseDigits(buf, at + 1, at + length - 1, -val);
    assert buf[at] == '-' && buf[at + 1..at + length] == Text(-val);
    assert buf[at..at + length] == [buf[at]] + buf[at + 1..at + length];
  }

  /** `Stream::parse` of an integer, with the length that `ParseLength` gives: fills
      `buf[at..at + length]` and nothing else. */
  method Parse(buf: array<char>, at: nat, val: int, length: nat)
    requires length == |SignedText(val)|
    requires at + length <= buf.Length
    modifies buf
    ensures buf[at..at + length] == SignedText(val)
    ensures forall i :: 0 <= i < at || at + length <= i < buf.Length ==> buf[i] == old(buf[i])
  {
    if val < 0 {
      ParseNegative(buf, at, val, length);
    } else if val == 0 {
      assert SignedText(val) == "0";
      buf[at] := '0';
    } else {
      ParseDigits(buf, at, at + length - 1, val);
    }
  }
}
