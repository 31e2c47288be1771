/** Text of the server's own: plain words and decimal numbers. */
module Decimal {
  import opened Bytes
  import opened Utf8

  /** Words of the program, all of them ASCII. */
  function Ascii(w: string): (t: Text)
    ensures |t| == |w| && IsAscii(t) && ('\n' !in w ==> 10 !in t)
  {
    seq(|w|, i requires 0 <= i < |w| => if w[i] < 128 as char then w[i] as int else 63)
  }

  predicate IsAscii(t: Text) { forall i :: 0 <= i < |t| ==> t[i] < 0x80 }

  /** std::to_string of an unsigned number. */
  function Digits(n: nat): (t: Text)
    ensures IsAscii(t) && t != []
  {
    if n < 10 then [48 + n] else Digits(n / 10) + [48 + n % 10]
  }

  lemma {:induction false} AsciiIsWellFormed(t: Text, i: nat)
    requires i <= |t| && IsAscii(t)
    ensures WellFormedFrom(t, i)
    decreases |t| - i
  {
    if i < |t| { AsciiIsWellFormed(t, i + 1); }
  }

  function Pow10(k: nat): (p: nat)
    ensures p > 0
  {
    if k == 0 then 1 else 10 * Pow10(k - 1)
  }

  /** A number below a power of ten has no more digits than its exponent. */
  lemma {:induction false} DigitsFit(n: nat, k: nat)
    requires k > 0
    ensures |Digits(n)| <= k <==> n < Pow10(k)
    decreases n
  {
    if k == 1 {
      assert Pow10(1) == 10 * Pow10(0);
    } else if n >= 10 {
      DigitsFit(n / 10, k - 1);
      assert Pow10(k) == 10 * Pow10(k - 1);
    } else {
      assert Pow10(k) >= 10;
    }
  }

  /** The number that decimal digits stand for. */
  function ReadDigits(t: Text): int {
    if t == [] then 0 else ReadDigits(t[..|t| - 1]) * 10 + (t[|t| - 1] as int - 48)
  }

  /** The digits of a number are decimal digits, stand for it, and start with 0 for 0 alone. */
  lemma {:induction false} DigitsReadBack(n: nat)
    ensures ReadDigits(Digits(n)) == n && (forall i :: 0 <= i < |Digits(n)| ==> 48 <= Digits(n)[i] <= 57)
    ensures Digits(n)[0] == 48 ==> n == 0 && Digits(n) == [48]
  {
    if n >= 10 {
      DigitsReadBack(n / 10);
      var t := Digits(n);
      assert t[..|t| - 1] == Digits(n / 10) && t[0] == Digits(n / 10)[0];
    } else {
      assert [48 + n][..0] == [] && ReadDigits([]) == 0;
    }
  }

  const MAX_COUNT: nat := 0xFFFF_FFFF_FFFF_FFFF

  /** Twenty digits are enough for every 64-bit count, and nineteen are not. */
  lemma TwentyDigits(n: nat)
    requires n <= MAX_COUNT
    ensures |Digits(n)| <= 20
    ensures n == MAX_COUNT ==> |Digits(n)| > 19
  {
    assert Pow10(5) == 100000;
    assert Pow10(10) == 100000 * Pow10(5);
    assert Pow10(15) == 100000 * Pow10(10);
    assert Pow10(19) == 10000 * Pow10(15);
    assert Pow10(20) == 10 * Pow10(19);
    DigitsFit(n, 20);
    DigitsFit(n, 19);
  }
}
