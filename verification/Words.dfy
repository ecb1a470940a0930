/** Fixed-width integers as Go uses them: bytes, 32- and 64-bit words, and the bitwise `|` that
    the generated decoders accumulate with. Every wrap-around is written out. */
module Words {

  const TWO_32: int := 0x1_0000_0000
  const TWO_63: int := 0x8000_0000_0000_0000
  const TWO_64: int := 0x1_0000_0000_0000_0000

  type byte = b: int | 0 <= b < 256
  type bytes = seq<byte>
  type uint32 = x: int | 0 <= x < TWO_32
  type int32 = x: int | -0x8000_0000 <= x < 0x8000_0000
  type uint64 = x: int | 0 <= x < TWO_64
  type int64 = x: int | -TWO_63 <= x < TWO_63

  // Conversion keeps the low bits and reads them as an unsigned or two's-complement number.
  function ToUint64(x: int): uint64 {
    x % TWO_64
  }

  function ToInt64(x: int): int64 {
    var low := x % TWO_64;
    if low < TWO_63 then low else low - TWO_64
  }

  function ToUint32(x: int): uint32 {
    x % TWO_32
  }

  function ToInt32(x: int): int32 {
    var low := x % TWO_32;
    if low < 0x8000_0000 then low else low - TWO_32
  }

  lemma ToInt64Small(x: int)
    requires -TWO_63 <= x < TWO_63
    ensures ToInt64(x) == x
  {
  }

  lemma ToInt64Forward(x: int)
    requires 0 <= x < TWO_64
    ensures ToInt64(x) < 0 || ToInt64(x) == x
  {
  }

  lemma LowBitsAgree(x: int)
    ensures ToInt64(x % TWO_64) == ToInt64(x) && ToInt32(x % TWO_64) == ToInt32(x)
    ensures ToUint32(x % TWO_64) == ToUint32(x) && ToInt64(x) % TWO_64 == x % TWO_64
  {
    var q, r := x / TWO_64, x % TWO_64;
    MultipleMod(q * TWO_32, TWO_32, r);
  }

  function Pow2(n: nat): (p: nat)
    ensures p > 0
  {
    if n == 0 then 1 else 2 * Pow2(n - 1)
  }

  /** Bitwise or of two naturals, one bit at a time. */
  function BitOr(a: nat, b: nat): nat
    decreases a + b
  {
    if a == 0 then b
    else if b == 0 then a
    else (if a % 2 == 1 || b % 2 == 1 then 1 else 0) + 2 * BitOr(a / 2, b / 2)
  }

  /** Or-ing in bits above everything already set is addition. */
  lemma {:induction false} BitOrAboveIsAdd(a: nat, c: nat, shift: nat)
    requires a < Pow2(shift)
    ensures BitOr(a, c * Pow2(shift)) == a + c * Pow2(shift)
    decreases shift
  {
    if shift > 0 && a > 0 && c > 0 {
      var half := Pow2(shift - 1);
      assert c * Pow2(shift) == 2 * (c * half);
      BitOrAboveIsAdd(a / 2, c, shift - 1);
    }
  }

  lemma {:induction false} Pow2Adds(m: nat, n: nat)
    ensures Pow2(m + n) == Pow2(m) * Pow2(n)
    decreases n
  {
    if n > 0 {
      Pow2Adds(m, n - 1);
      assert Pow2(m + n) == 2 * Pow2(m + (n - 1));
    }
  }

  lemma Pow2Literals()
    ensures Pow2(7) == 128 && Pow2(8) == 256 && Pow2(32) == TWO_32 && Pow2(63) == TWO_63 && Pow2(64) == TWO_64
  {
    hide Pow2;
    Pow2Small();
    Pow2Adds(8, 8);
    Pow2Adds(16, 16);
    Pow2Adds(32, 32);
    Pow2Adds(63, 1);
  }

  lemma Pow2Small()
    ensures Pow2(1) == 2 && Pow2(7) == 128 && Pow2(8) == 256
  {
  }

  // ---- division ----

  lemma DivModUnique(x: int, m: int, q: int, r: int)
    requires 0 <= r < m && x == q * m + r
    ensures x / m == q && x % m == r
  {
    var d := x / m - q;
    assert d * m == r - x % m;
    assert d > 0 ==> d * m >= m;
    assert d < 0 ==> d * m <= -m;
  }

  lemma MultipleMod(k: int, m: int, r: int)
    requires m > 0
    ensures (k * m + r) % m == r % m
  {
    var q := r / m;
    assert k * m + r == (k + q) * m + r % m;
    DivModUnique(k * m + r, m, k + q, r % m);
  }

  lemma ScaledMod(low: nat, s: nat, q: nat)
    requires s > 0 && q > 0
    ensures s * q > 0
    ensures (low * s) % (s * q) == (low % q) * s
  {
    var d, r := low / q, low % q;
    assert low * s == d * (s * q) + r * s by { assert low == d * q + r; }
    assert r * s < s * q by { assert (r + 1) * s <= q * s; }
    DivModUnique(low * s, s * q, d, r * s);
  }

  lemma DivDiv(x: int, a: int, b: int)
    requires a > 0 && b > 0
    ensures a * b > 0 && (x / a) / b == x / (a * b)
    ensures x % (a * b) == a * ((x / a) % b) + x % a
  {
    var q, r := (x / a) / b, (x / a) % b;
    assert x == a * (b * q + r) + x % a;
    assert a * (b * q + r) == q * (a * b) + a * r;
    assert a * r + x % a < a * b by { assert a * (r + 1) <= a * b; }
    DivModUnique(x, a * b, q, a * r + x % a);
  }

  lemma {:induction false} Pow2Grows(m: nat, n: nat)
    requires m <= n
    ensures Pow2(m) <= Pow2(n)
    decreases n - m
  {
    if m < n { Pow2Grows(m, n - 1); }
  }
}
