/** Decimal rendering, as `%d` and `Int.String()` print natural numbers. */
module Decimal {

  function Digits(n: nat): (ds: seq<int>)
    ensures |ds| > 0 && forall k :: 0 <= k < |ds| ==> 0 <= ds[k] <= 9
  {
    if n < 10 then [n] else Digits(n / 10) + [n % 10]
  }

  function Valued(ds: seq<int>): int {
    if ds == [] then 0 else 10 * Valued(ds[..|ds| - 1]) + ds[|ds| - 1]
  }

  lemma {:induction false} DigitsRoundTrip(n: nat)
    ensures Valued(Digits(n)) == n
  {
    if n >= 10 {
      DigitsRoundTrip(n / 10);
      assert Digits(n)[..|Digits(n)| - 1] == Digits(n / 10);
    } else {
      assert Digits(n)[..0] == [];
    }
  }

  lemma {:induction false} LeadingDigit(n: nat)
    requires n > 0
    ensures Digits(n)[0] != 0
  {
    if n >= 10 { LeadingDigit(n / 10); }
  }

  /** Digits without a leading zero are the digits of the positive number they spell. */
  lemma {:induction false} ValuedRoundTrip(ds: seq<int>)
    requires ds != [] && ds[0] != 0 && forall k :: 0 <= k < |ds| ==> 0 <= ds[k] <= 9
    ensures Valued(ds) > 0 && Digits(Valued(ds)) == ds
    decreases |ds|
  {
    var n, front := |ds| - 1, ds[..|ds| - 1];
    assert ds == front + [ds[n]];
    if n > 0 {
      ValuedRoundTrip(front);
      assert Valued(ds) / 10 == Valued(front) && Valued(ds) % 10 == ds[n];
    } else {
      assert Valued(front) == 0;
    }
  }

  function DigitChar(d: int): char
    requires 0 <= d <= 9
  {
    "0123456789"[d]
  }

  predicate IsDigit(c: char) {
    '0' <= c <= '9'
  }

  function Render(n: nat): (s: string)
    ensures |s| > 0 && forall k :: 0 <= k < |s| ==> IsDigit(s[k])
  {
    var ds := Digits(n);
    seq(|ds|, k requires 0 <= k < |ds| => DigitChar(ds[k]))
  }

  lemma RenderInjective(m: nat, n: nat)
    requires Render(m) == Render(n)
    ensures m == n
  {
    var a, b := Digits(m), Digits(n);
    forall k | 0 <= k < |a| ensures a[k] == b[k] {
      assert Render(m)[k] == DigitChar(a[k]) && Render(n)[k] == DigitChar(b[k]);
    }
    assert a == b;
    DigitsRoundTrip(m);
    DigitsRoundTrip(n);
  }
}
