/** Lexicographic order on byte strings (`bytes.Compare`), and big-endian numbers, whose order it is. */
module ByteOrder {
  import opened Words

  /** `bytes.Compare(a, b) <= 0`. */
  predicate LexLeq(a: bytes, b: bytes) {
    a == [] || (b != [] && (a[0] < b[0] || (a[0] == b[0] && LexLeq(a[1..], b[1..]))))
  }

  lemma {:induction false} LexTotal(a: bytes, b: bytes)
    ensures LexLeq(a, b) || LexLeq(b, a)
  {
    if a != [] && b != [] { LexTotal(a[1..], b[1..]); }
  }

  lemma {:induction false} LexAntisymmetric(a: bytes, b: bytes)
    requires LexLeq(a, b) && LexLeq(b, a)
    ensures a == b
  {
    if a != [] {
      LexAntisymmetric(a[1..], b[1..]);
      assert a == [a[0]] + a[1..] && b == [b[0]] + b[1..];
    }
  }

  lemma {:induction false} LexTransitive(a: bytes, b: bytes, c: bytes)
    requires LexLeq(a, b) && LexLeq(b, c)
    ensures LexLeq(a, c)
  {
    if a != [] && a[0] == b[0] == c[0] { LexTransitive(a[1..], b[1..], c[1..]); }
  }

  /** Equal prefixes of equal length decide nothing; different ones decide everything. */
  lemma {:induction false} LexConcat(a: bytes, b: bytes, s: bytes, t: bytes)
    requires |a| == |b|
    ensures LexLeq(a + s, b + t) <==> if a == b then LexLeq(s, t) else LexLeq(a, b)
  {
    if a == [] {
      assert a + s == s && b + t == t;
    } else {
      assert (a + s)[1..] == a[1..] + s && (b + t)[1..] == b[1..] + t;
      assert a == [a[0]] + a[1..] && b == [b[0]] + b[1..];
      LexConcat(a[1..], b[1..], s, t);
    }
  }

  /** The low `n` bytes of a number, most significant first; of a negative one, in two's complement. */
  function BigEndian(v: int, n: nat): (bs: bytes)
    ensures |bs| == n
    decreases n
  {
    if n == 0 then [] else BigEndian(v / 256, n - 1) + [v % 256]
  }

  function FromBigEndian(bs: bytes): nat {
    if bs == [] then 0 else 256 * FromBigEndian(bs[..|bs| - 1]) + bs[|bs| - 1]
  }

  lemma Pow2Times256(n: nat)
    ensures Pow2(8 * (n + 1)) == 256 * Pow2(8 * n)
  {
    Pow2Literals();
    Pow2Adds(8 * n, 8);
  }

  lemma {:induction false} BigEndianRoundTrip(v: nat, n: nat)
    requires v < Pow2(8 * n)
    ensures FromBigEndian(BigEndian(v, n)) == v
    decreases n
  {
    if n > 0 {
      Pow2Times256(n - 1);
      BigEndianRoundTrip(v / 256, n - 1);
      assert BigEndian(v, n)[..n - 1] == BigEndian(v / 256, n - 1);
    } else {
      assert Pow2(0) == 1;
    }
  }

  /** Numeric order is the order of the encodings. */
  lemma {:induction false} BigEndianOrder(v: nat, w: nat, n: nat)
    requires v < Pow2(8 * n) && w < Pow2(8 * n)
    ensures LexLeq(BigEndian(v, n), BigEndian(w, n)) <==> v <= w
    decreases n
  {
    if n > 0 {
      Pow2Times256(n - 1);
      var a, b := BigEndian(v / 256, n - 1), BigEndian(w / 256, n - 1);
      BigEndianOrder(v / 256, w / 256, n - 1);
      BigEndianOrder(w / 256, v / 256, n - 1);
      LexConcat(a, b, [v % 256], [w % 256]);
      LexByte(v % 256, w % 256);
      if a == b {
        BigEndianRoundTrip(v / 256, n - 1);
        BigEndianRoundTrip(w / 256, n - 1);
      }
    } else {
      assert Pow2(0) == 1;
    }
  }

  lemma LexByte(x: byte, y: byte)
    ensures LexLeq([x], [y]) <==> x <= y
  {
  }

  /** Every byte string is the encoding of its number. */
  lemma {:induction false} FromBigEndianRoundTrip(bs: bytes)
    ensures FromBigEndian(bs) < Pow2(8 * |bs|) && BigEndian(FromBigEndian(bs), |bs|) == bs
    decreases |bs|
  {
    if bs == [] {
      assert Pow2(0) == 1;
    } else {
      var n := |bs| - 1;
      FromBigEndianRoundTrip(bs[..n]);
      Pow2Times256(n);
      DivModUnique(FromBigEndian(bs), 256, FromBigEndian(bs[..n]), bs[n]);
      assert bs == bs[..n] + [bs[n]];
    }
  }

  /** On strings of one length the order is that of the numbers. */
  lemma LexIsNumeric(a: bytes, b: bytes)
    requires |a| == |b|
    ensures LexLeq(a, b) <==> FromBigEndian(a) <= FromBigEndian(b)
  {
    hide LexLeq, FromBigEndian, BigEndian;
    FromBigEndianRoundTrip(a);
    FromBigEndianRoundTrip(b);
    BigEndianOrder(FromBigEndian(a), FromBigEndian(b), |a|);
  }
}
