/** Amounts as text: what `Int.String()` prints, and which texts are the print of a positive amount. */
module Amounts {
  import opened Words
  import Decimal

  const ZERO_CHAR: byte := 48
  const MINUS_CHAR: byte := 45

  function DigitText(ds: seq<int>): bytes
    requires forall k :: 0 <= k < |ds| ==> 0 <= ds[k] <= 9
  {
    seq(|ds|, k requires 0 <= k < |ds| => ZERO_CHAR + ds[k])
  }

  /** `Int.String()` as bytes. */
  function AmountText(amount: int): (t: bytes)
    ensures |t| > 0
  {
    if amount < 0 then [MINUS_CHAR] + DigitText(Decimal.Digits(-amount)) else DigitText(Decimal.Digits(amount))
  }

  lemma DigitTextInjective(a: nat, b: nat)
    requires DigitText(Decimal.Digits(a)) == DigitText(Decimal.Digits(b))
    ensures a == b
  {
    var da, db := Decimal.Digits(a), Decimal.Digits(b);
    forall k | 0 <= k < |da| ensures da[k] == db[k] {
      assert DigitText(da)[k] == ZERO_CHAR + da[k] && DigitText(db)[k] == ZERO_CHAR + db[k];
    }
    assert da == db;
    Decimal.DigitsRoundTrip(a);
    Decimal.DigitsRoundTrip(b);
  }

  lemma AmountTextInjective(a: int, b: int)
    requires AmountText(a) == AmountText(b)
    ensures a == b
  {
    var da := DigitText(Decimal.Digits(if a < 0 then -a else a));
    var db := DigitText(Decimal.Digits(if b < 0 then -b else b));
    assert da[0] != MINUS_CHAR && db[0] != MINUS_CHAR;
    assert (a < 0) == (AmountText(a)[0] == MINUS_CHAR) && (b < 0) == (AmountText(b)[0] == MINUS_CHAR);
    if a < 0 { assert da == AmountText(a)[1..] && db == AmountText(b)[1..]; }
    DigitTextInjective(if a < 0 then -a else a, if b < 0 then -b else b);
  }

  // ---- canonical texts ----

  /** Digits only, none of them a leading zero. */
  predicate IsAmount(t: bytes) {
    t != [] && t[0] != ZERO_CHAR && forall k :: 0 <= k < |t| ==> ZERO_CHAR <= t[k] < ZERO_CHAR + 10
  }

  /** What such a text says. */
  function AmountValue(t: bytes): int {
    Decimal.Valued(seq(|t|, k requires 0 <= k < |t| => t[k] - ZERO_CHAR))
  }

  /** The text of a positive amount has the form, and says the amount. */
  lemma PositiveAmountText(amount: int)
    requires amount > 0
    ensures IsAmount(AmountText(amount)) && AmountValue(AmountText(amount)) == amount
  {
    var ds, t := Decimal.Digits(amount), AmountText(amount);
    Decimal.LeadingDigit(amount);
    Decimal.DigitsRoundTrip(amount);
    assert seq(|t|, k requires 0 <= k < |t| => t[k] - ZERO_CHAR) == ds;
  }

  /** A text of the form is the text of the positive amount it says. */
  lemma AmountTextOf(t: bytes)
    requires IsAmount(t)
    ensures AmountValue(t) > 0 && AmountText(AmountValue(t)) == t
  {
    var ds := seq(|t|, k requires 0 <= k < |t| => t[k] - ZERO_CHAR);
    Decimal.ValuedRoundTrip(ds);
    assert DigitText(ds) == t;
  }

  /** "100", "-5" and "0" in ASCII. */
  lemma AmountTextExamples()
    ensures AmountText(100) == [49, 48, 48] && AmountText(-5) == [45, 53] && AmountText(0) == [48]
  {
    assert Decimal.Digits(1) == [1] && Decimal.Digits(10) == [1, 0] && Decimal.Digits(100) == [1, 0, 0];
    assert Decimal.Digits(5) == [5] && Decimal.Digits(0) == [0];
  }
}
