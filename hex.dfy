/**
 * The text conversions the ASCII line protocol uses: Python's `'{:0Nx}'.format(n)`
 * (lower-case hexadecimal, zero-padded to at least N digits), `int(s, 16)` and
 * `int(c)` for a single character.
 */
module Hex {
  import opened Wrappers

  const HexDigits: string := "0123456789abcdef"

  function Pow16(n: nat): (r: nat)
    ensures r >= 1
  {
    if n == 0 then 1 else 16 * Pow16(n - 1)
  }

  /** The lower-case digit that `'{:x}'` prints for a value below 16. */
  function Digit(n: nat): char
    requires n < 16
  {
    HexDigits[n]
  }

  /** `int(c, 16)` for one character: a digit or a letter a-f in either case. */
  function DigitValue(c: char): (r: Option<nat>)
    ensures r.Some? ==> r.value < 16
  {
    if '0' <= c <= '9' then Some(c as int - '0' as int)
    else if 'a' <= c <= 'f' then Some(c as int - 'a' as int + 10)
    else if 'A' <= c <= 'F' then Some(c as int - 'A' as int + 10)
    else None
  }

  /** Reading a printed digit gives back its value. */
  lemma DigitValueOfDigit(n: nat)
    requires n < 16
    ensures DigitValue(Digit(n)) == Some(n)
  {
  }

  predicate IsHexDigit(c: char) {
    DigitValue(c).Some?
  }

  /**
   * `int(s, 16)` on a string of hexadecimal digits; `None` where Python raises
   * ValueError (the empty string or any character that is not a digit).
   */
  function Parse(s: string): (r: Option<nat>)
    ensures r.Some? <==> s != [] && forall i :: 0 <= i < |s| ==> IsHexDigit(s[i])
    ensures r.Some? ==> r.value < Pow16(|s|)
    decreases |s|
  {
    if |s| == 0 then None
    else if |s| == 1 then DigitValue(s[0])
    else
      var front := s[..|s| - 1];
      assert forall i :: 0 <= i < |front| ==> front[i] == s[i];
      match Parse(front)
      case None => None
      case Some(hi) =>
        match DigitValue(s[|s| - 1])
        case None => None
        case Some(lo) =>
          assert 16 * hi + lo < 16 * Pow16(|s| - 1) by {
            assert hi <= Pow16(|s| - 1) - 1;
            assert 16 * hi <= 16 * (Pow16(|s| - 1) - 1);
          }
          Some(16 * hi + lo)
  }

  /** `int(s, 16)` on a string of at most two characters, digit by digit. */
  function ParseShort(s: string): (r: Option<nat>)
    requires |s| <= 2
    ensures r.Some? ==> r.value < 256
  {
    if |s| == 0 then None
    else if |s| == 1 then DigitValue(s[0])
    else
      match DigitValue(s[0])
      case None => None
      case Some(hi) =>
        match DigitValue(s[1])
        case None => None
        case Some(lo) => Some(16 * hi + lo)
  }

  /** On one or two characters the digit-by-digit reading is `int(s, 16)`. */
  lemma ParseShortAgrees(s: string)
    requires |s| <= 2
    ensures ParseShort(s) == Parse(s)
  {
    if |s| == 2 {
      assert s[..1] == [s[0]];
    }
  }

  /** `'{:x}'.format(n)`: the digits of `n` without leading zeros. */
  function Minimal(n: nat): (s: string)
    ensures |s| >= 1
  {
    if n < 16 then [Digit(n)] else Minimal(n / 16) + [Digit(n % 16)]
  }

  /** `'{:0Nx}'.format(n)` for width N: zero padding in front of the minimal digits. */
  function Padded(n: nat, width: nat): (s: string)
    ensures |s| == if |Minimal(n)| < width then width else |Minimal(n)|
  {
    var m := Minimal(n);
    if |m| < width then seq(width - |m|, _ => '0') + m else m
  }

  /** `int(c)` for one character: a decimal digit, else ValueError. */
  function Decimal(c: char): (r: Option<nat>)
    ensures r.Some? ==> r.value <= 9
  {
    if '0' <= c <= '9' then Some(c as int - '0' as int) else None
  }

  /** A decimal digit printed as hexadecimal reads back with `int(c)`. */
  lemma DecimalOfDigit(n: nat)
    requires n <= 9
    ensures Decimal(Digit(n)) == Some(n)
  {
  }

  /** The printed digits read back as the number printed. */
  lemma {:induction false} ParseMinimal(n: nat)
    ensures Parse(Minimal(n)) == Some(n)
  {
    if n >= 16 {
      DigitValueOfDigit(n % 16);
      ParseMinimal(n / 16);
      ParseSnoc(Minimal(n / 16), Digit(n % 16), n / 16, n % 16);
      assert Minimal(n) == Minimal(n / 16) + [Digit(n % 16)];
    } else {
      DigitValueOfDigit(n);
      ParseOne(Digit(n));
    }
  }

  lemma ParseOne(c: char)
    ensures Parse([c]) == DigitValue(c)
  {
  }

  /** One more digit after a number multiplies it by 16 and adds the digit. */
  lemma ParseSnoc(s: string, c: char, hi: nat, lo: nat)
    requires Parse(s) == Some(hi) && DigitValue(c) == Some(lo)
    ensures Parse(s + [c]) == Some(16 * hi + lo)
  {
    var t := s + [c];
    assert t[..|t| - 1] == s;
  }

  /** A number below 16^w needs at most w digits. */
  lemma {:induction false} MinimalLength(n: nat, w: nat)
    requires 1 <= w && n < Pow16(w)
    ensures |Minimal(n)| <= w
  {
    if n >= 16 {
      assert w >= 2;
      assert n / 16 < Pow16(w - 1);
      MinimalLength(n / 16, w - 1);
    }
  }

  /** A leading zero does not change the value read. */
  lemma {:induction false} ParseZeroPrefix(s: string)
    requires s != []
    ensures Parse(['0'] + s) == Parse(s)
    decreases |s|
  {
    var t := ['0'] + s;
    if |s| > 1 {
      assert t[..|t| - 1] == ['0'] + s[..|s| - 1];
      ParseZeroPrefix(s[..|s| - 1]);
    }
  }

  lemma {:induction false} ParseZeros(k: nat, s: string)
    requires s != []
    ensures Parse(seq(k, _ => '0') + s) == Parse(s)
  {
    if k > 0 {
      assert seq(k, _ => '0') + s == ['0'] + (seq(k - 1, _ => '0') + s);
      ParseZeroPrefix(seq(k - 1, _ => '0') + s);
      ParseZeros(k - 1, s);
    } else {
      assert seq(k, _ => '0') + s == s;
    }
  }

  /** A padded field reads back as the number printed, whatever the padding. */
  lemma ParsePadded(n: nat, width: nat)
    ensures Parse(Padded(n, width)) == Some(n)
  {
    ParseMinimal(n);
    var m := Minimal(n);
    if |m| < width {
      ParseZeros(width - |m|, m);
    }
  }

  /** A number below 16^w printed with width w takes exactly w characters. */
  lemma PaddedLength(n: nat, width: nat)
    requires 1 <= width && n < Pow16(width)
    ensures |Padded(n, width)| == width
  {
    MinimalLength(n, width);
  }

  /** A value below 16 printed with width 1 is its single digit. */
  lemma PaddedDigit(n: nat)
    requires n < 16
    ensures Padded(n, 1) == [Digit(n)]
  {
  }

  /** A byte printed with width 2 is its high digit followed by its low digit. */
  lemma PaddedByte(b: nat)
    requires b < 256
    ensures Padded(b, 2) == [Digit(b / 16), Digit(b % 16)]
  {
    if b >= 16 {
      assert Minimal(b / 16) == [Digit(b / 16)];
    }
  }
}
