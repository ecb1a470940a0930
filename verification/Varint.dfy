/** Base-128 varints: the printer and the reader that `types/indexer.pb.go` and `types/web3.pb.go`
    repeat for every field, and that `binary.PutUvarint` writes for the Merkle leaves. */
module Varint {
  import opened Words

  const MAX_TOKEN := 10

  datatype WireError =
    | IntOverflow
    | UnexpectedEof
    | InvalidLength
    | UnexpectedEndOfGroup
    | EndGroupForNonGroup
    | IllegalTag(fieldNum: int)
    | WrongWireType(fieldNum: int, wireType: int)
    | IllegalWireType(wireType: int)

  // ---- what a varint is ----

  /** A token: up to ten bytes, all but the last with the continuation bit set. */
  predicate IsToken(t: bytes) {
    && 1 <= |t| <= MAX_TOKEN
    && t[|t| - 1] < 128
    && forall k :: 0 <= k < |t| - 1 ==> t[k] >= 128
  }

  /** The number spelled by the low seven bits of each byte, least significant first. */
  function Spelled(t: bytes): nat {
    if t == [] then 0 else t[0] % 128 + 128 * Spelled(t[1..])
  }

  /** The shortest token of a number. */
  function Encode(v: nat): (t: bytes)
    ensures |t| >= 1
  {
    if v < 128 then [v] else [v % 128 + 128] + Encode(v / 128)
  }

  lemma {:induction false} EncodeShape(v: nat)
    ensures Encode(v)[|Encode(v)| - 1] < 128
    ensures forall k :: 0 <= k < |Encode(v)| - 1 ==> Encode(v)[k] >= 128
  {
    if v >= 128 { EncodeShape(v / 128); }
  }

  lemma {:induction false} EncodeSpells(v: nat)
    ensures Spelled(Encode(v)) == v
  {
    if v >= 128 {
      EncodeSpells(v / 128);
      assert Encode(v)[1..] == Encode(v / 128);
    }
  }

  lemma {:induction false} EncodeLength(v: nat, k: nat)
    requires v < Pow2(7 * k) && k >= 1
    ensures |Encode(v)| <= k
    decreases k
  {
    Pow2Times128(k - 1);
    if v >= 128 {
      assert k > 1 by { assert Pow2(0) == 1; }
      EncodeLength(v / 128, k - 1);
    }
  }

  lemma EncodeIsToken(v: uint64)
    ensures IsToken(Encode(v)) && Spelled(Encode(v)) == v
  {
    Pow2Literals();
    Pow2Adds(64, 6);
    assert v < Pow2(70);
    EncodeLength(v, 10);
    EncodeSpells(v);
    EncodeShape(v);
  }

  /** Two encodings that start the same bytes are the same number: the code is prefix free. */
  lemma {:induction false} EncodePrefixFree(v: nat, w: nat, s: bytes, t: bytes)
    requires Encode(v) + s == Encode(w) + t
    ensures v == w && s == t
  {
    var a, b := Encode(v), Encode(w);
    EncodeShape(v);
    EncodeShape(w);
    assert (a + s)[|a| - 1] == a[|a| - 1] && (b + t)[|b| - 1] == b[|b| - 1];
    assert |a| == |b|;
    assert a == (a + s)[..|a|] == (b + t)[..|b|] == b;
    assert s == (a + s)[|a|..] == (b + t)[|b|..] == t;
    EncodeSpells(v);
    EncodeSpells(w);
  }

  // ---- the size formula ----

  /** `math/bits.Len64`. */
  function BitLen(x: nat): nat {
    if x == 0 then 0 else 1 + BitLen(x / 2)
  }

  /** `sovIndexer`, `sovWeb3`: a closed formula for the length of the encoding. */
  function Sov(x: uint64): nat {
    (BitLen(BitOr(x, 1)) + 6) / 7
  }

  lemma BitLenHalf(x: nat)
    requires x > 0
    ensures BitLen(x) == 1 + BitLen(x / 2)
  {
  }

  lemma BitLenShift7(x: nat)
    requires x >= 128
    ensures BitLen(x) == 7 + BitLen(x / 128)
  {
    hide BitLen;
    BitLenHalf(x);
    BitLenHalf(x / 2);
    BitLenHalf(x / 4);
    BitLenHalf(x / 8);
    BitLenHalf(x / 16);
    BitLenHalf(x / 32);
    BitLenHalf(x / 64);
  }

  lemma {:induction false} BitLenGroups(x: nat)
    requires x > 0
    ensures (BitLen(x) + 6) / 7 == |Encode(x)|
  {
    if x < 128 {
      assert BitLen(x) == 1 + BitLen(x / 2);
      assert BitLen(x / 2) <= 6 by { BitLenBelow(x / 2, 6); }
    } else {
      BitLenShift7(x);
      BitLenGroups(x / 128);
    }
  }

  lemma {:induction false} BitLenBelow(x: nat, k: nat)
    requires x < Pow2(k)
    ensures BitLen(x) <= k
  {
    if x > 0 { BitLenBelow(x / 2, k - 1); }
  }

  lemma BitOrOne(x: nat)
    ensures BitOr(x, 1) == if x % 2 == 1 then x else x + 1
  {
  }

  /** Each varint takes exactly `sov` bytes. */
  lemma SovIsLength(x: uint64)
    ensures Sov(x) == |Encode(x)|
  {
    BitOrOne(x);
    if x == 0 {
      assert BitLen(1) == 1;
    } else {
      BitLenGroups(x);
      if x % 2 == 0 {
        assert BitLen(x) == 1 + BitLen(x / 2) && BitLen(x + 1) == 1 + BitLen((x + 1) / 2);
        assert (x + 1) / 2 == x / 2;
      }
    }
  }

  // ---- writing a varint into a buffer, backwards ----

  /** `uint8(v&0x7f | 0x80)`. */
  function ContinuationByte(v: nat): (b: byte)
    ensures b == v % 128 + 128
  {
    BitOrLow7(v % 128);
    BitOr(v % 128, 0x80)
  }

  /** Claims the `Sov(v)` bytes that end at `offset` and fills them; returns where they start. */
  method EncodeVarint(dAtA: array<byte>, offset: nat, v: uint64) returns (base: nat)
    requires offset <= dAtA.Length && Sov(v) <= offset
    modifies dAtA
    ensures base + Sov(v) == offset
    ensures dAtA[base..offset] == Encode(v)
    ensures forall k :: 0 <= k < base || offset <= k < dAtA.Length ==> dAtA[k] == old(dAtA[k])
  {
    SovIsLength(v);
    hide Sov, Encode;
    base := offset - Sov(v);
    var at, rest: uint64 := base, v;
    while rest >= 128
      invariant base <= at < offset
      invariant Encode(v) == dAtA[base..at] + Encode(rest)
      invariant forall k :: 0 <= k < base || offset <= k < dAtA.Length ==> dAtA[k] == old(dAtA[k])
      decreases rest
    {
      ghost var done, b := dAtA[base..at], ContinuationByte(rest);
      EncodeUnfolds(rest);
      dAtA[at] := ContinuationByte(rest);
      assert dAtA[base..at + 1] == done + [b];
      assert done + ([b] + Encode(rest / 128)) == (done + [b]) + Encode(rest / 128);
      rest := rest / 128;
      at := at + 1;
    }
    EncodeUnfolds(rest);
    dAtA[at] := rest;
    assert dAtA[base..offset] == dAtA[base..at] + [rest];
  }

  lemma EncodeUnfolds(v: nat)
    ensures Encode(v) == if v < 128 then [v] else [ContinuationByte(v)] + Encode(v / 128)
  {
  }

  lemma BitOrLow7(low: nat)
    requires low < 128
    ensures BitOr(low, 0x80) == low + 128
  {
    Pow2Literals();
    BitOrAboveIsAdd(low, 1, 7);
  }

  // ---- reading a varint ----

  datatype Scan = Token(end: nat) | NoToken(err: WireError)

  /** Where the token that starts at `start` ends, `k` continuation bytes of it already seen. */
  function ScanFrom(data: bytes, start: nat, k: nat): (s: Scan)
    requires start + k <= |data| && k <= MAX_TOKEN
    requires forall j :: start <= j < start + k ==> data[j] >= 128
    ensures s.Token? ==> start < s.end <= |data| && IsToken(data[start..s.end])
    decreases MAX_TOKEN - k
  {
    if k == MAX_TOKEN then NoToken(IntOverflow)
    else if start + k >= |data| then NoToken(UnexpectedEof)
    else if data[start + k] < 128 then Token(start + k + 1)
    else ScanFrom(data, start, k + 1)
  }

  function ScanVarint(data: bytes, start: nat): (s: Scan)
    requires start <= |data|
    ensures s.Token? ==> start < s.end <= |data| && IsToken(data[start..s.end])
  {
    ScanFrom(data, start, 0)
  }

  /** There is no token exactly when ten bytes all go on, or when all that is left goes on. */
  lemma {:induction false} ScanFailures(data: bytes, start: nat, k: nat)
    requires start + k <= |data| && k <= MAX_TOKEN && forall j :: start <= j < start + k ==> data[j] >= 128
    ensures ScanFrom(data, start, k) == NoToken(IntOverflow) <==>
            start + 10 <= |data| && forall j :: start <= j < start + 10 ==> data[j] >= 128
    ensures ScanFrom(data, start, k) == NoToken(UnexpectedEof) <==>
            |data| < start + 10 && forall j :: start <= j < |data| ==> data[j] >= 128
    decreases MAX_TOKEN - k
  {
    if k < MAX_TOKEN && start + k < |data| && data[start + k] >= 128 { ScanFailures(data, start, k + 1); }
  }

  /** The number 150 of the Protocol Buffers encoding guide. */
  lemma EncodeExample()
    ensures Encode(150) == [0x96, 0x01] && Encode(1) == [1]
  {
    assert Encode(1) == [1];
  }

  /** How far the scan looks: to the end of the token, or as far as it got without finding one. */
  function ScanEnd(data: bytes, start: nat): (end: nat)
    requires start <= |data|
    ensures start <= end <= |data|
  {
    match ScanVarint(data, start)
    case Token(end) => end
    case NoToken(_) => if start + MAX_TOKEN <= |data| then start + MAX_TOKEN else |data|
  }

  /** The scan finds exactly the token that is there, whatever surrounds it. */
  lemma {:induction false} ScanFromFinds(data: bytes, start: nat, t: bytes, k: nat)
    requires IsToken(t) && start + |t| <= |data| && data[start..start + |t|] == t
    requires k < |t|
    requires forall j :: start <= j < start + k ==> data[j] >= 128
    ensures ScanFrom(data, start, k) == Token(start + |t|)
    decreases |t| - k
  {
    assert data[start + k] == t[k];
    if k < |t| - 1 { ScanFromFinds(data, start, t, k + 1); }
  }

  lemma ScanFinds(data: bytes, start: nat, t: bytes)
    requires IsToken(t) && start + |t| <= |data| && data[start..start + |t|] == t
    ensures ScanVarint(data, start) == Token(start + |t|)
  {
    ScanFromFinds(data, start, t, 0);
  }

  lemma {:induction false} SpelledBound(t: bytes)
    ensures Spelled(t) < Pow2(7 * |t|)
  {
    if t != [] {
      SpelledBound(t[1..]);
      Pow2Times128(|t| - 1);
    }
  }

  lemma Pow2Times128(k: nat)
    ensures Pow2(7 * (k + 1)) == 128 * Pow2(7 * k)
  {
    Pow2Literals();
    Pow2Adds(7 * k, 7);
  }

  lemma {:induction false} SpelledSnoc(t: bytes, b: byte)
    ensures Spelled(t + [b]) == Spelled(t) + (b % 128) * Pow2(7 * |t|)
  {
    if t == [] {
      assert t + [b] == [b];
      assert Spelled([b]) == b % 128;
    } else {
      var tail, p, c := t[1..], Pow2(7 * (|t| - 1)), b % 128;
      assert (t + [b])[1..] == tail + [b];
      SpelledSnoc(tail, b);
      Pow2Times128(|t| - 1);
      assert Spelled(t + [b]) == t[0] % 128 + 128 * (Spelled(tail) + c * p);
      assert 128 * (c * p) == c * (128 * p);
    }
  }

  /** One `|=` of the decode loop, on an accumulator of `width` bits, is addition modulo 2^width. */
  lemma OrStep(acc: nat, low: nat, shift: nat, width: nat)
    requires acc < Pow2(shift)
    ensures BitOr(acc % Pow2(width), (low * Pow2(shift)) % Pow2(width)) == (acc + low * Pow2(shift)) % Pow2(width)
  {
    if shift >= width {
      OrStepAbove(acc, low, shift, width);
    } else {
      OrStepBelow(acc, low, shift, width);
    }
  }

  lemma OrStepAbove(acc: nat, low: nat, shift: nat, width: nat)
    requires acc < Pow2(shift) && shift >= width
    ensures BitOr(acc % Pow2(width), (low * Pow2(shift)) % Pow2(width)) == (acc + low * Pow2(shift)) % Pow2(width)
  {
    var m := Pow2(width);
    var k := low * Pow2(shift - width);
    assert low * Pow2(shift) == k * m by { Pow2Adds(width, shift - width); }
    MultipleMod(k, m, 0);
    MultipleMod(k, m, acc);
  }

  lemma OrStepBelow(acc: nat, low: nat, shift: nat, width: nat)
    requires acc < Pow2(shift) && shift < width
    ensures BitOr(acc % Pow2(width), (low * Pow2(shift)) % Pow2(width)) == (acc + low * Pow2(shift)) % Pow2(width)
  {
    var s, q := Pow2(shift), Pow2(width - shift);
    Pow2Adds(shift, width - shift);
    ScaledMod(low, s, q);
    LowPartMod(acc, low, s, q);
    BitOrAboveIsAdd(acc, low % q, shift);
  }

  lemma LowPartMod(acc: nat, low: nat, s: nat, q: nat)
    requires acc < s && q > 0
    ensures s * q > 0
    ensures acc % (s * q) == acc
    ensures (acc + low * s) % (s * q) == acc + (low % q) * s
  {
    var d, r := low / q, low % q;
    assert acc + r * s < s * q by { assert (r + 1) * s <= q * s; }
    assert acc + low * s == d * (s * q) + (acc + r * s) by { assert low == d * q + r; }
    assert r * s >= 0;
    DivModUnique(acc + low * s, s * q, d, acc + r * s);
    DivModUnique(acc, s * q, 0, acc);
  }

  /** `acc |= T(b&0x7F) << shift`, where `T` is `width` bits wide. */
  function OrIn(acc: nat, b: byte, shift: nat, width: nat): nat {
    BitOr(acc, (b % 128) * Pow2(shift) % Pow2(width))
  }

  lemma ReadStep(data: bytes, start: nat, i: nat, width: nat)
    requires start <= i < |data|
    ensures OrIn(Spelled(data[start..i]) % Pow2(width), data[i], 7 * (i - start), width)
         == Spelled(data[start..i + 1]) % Pow2(width)
  {
    var t := data[start..i];
    SpelledBound(t);
    OrStep(Spelled(t), data[i] % 128, 7 * (i - start), width);
    SpelledSnoc(t, data[i]);
    assert t + [data[i]] == data[start..i + 1];
  }

  /** The generated decode loop, for an accumulator of `width` bits: the token at `start` and the
      low `width` bits of what it spells, or of what was read when there is no token. */
  method ReadVarint(data: bytes, start: nat, width: nat) returns (s: Scan, value: nat)
    requires start <= |data|
    ensures s == ScanVarint(data, start)
    ensures value == Spelled(data[start..ScanEnd(data, start)]) % Pow2(width)
  {
    var i, shift := start, 0;
    value := 0;
    assert Spelled(data[start..start]) == 0;
    hide Spelled, Pow2, OrIn;
    while true
      invariant start <= i <= |data| && i - start <= MAX_TOKEN && shift == 7 * (i - start)
      invariant forall j :: start <= j < i ==> data[j] >= 128
      invariant ScanVarint(data, start) == ScanFrom(data, start, i - start)
      invariant value == Spelled(data[start..i]) % Pow2(width)
      decreases |data| - i
    {
      if shift >= 64 { return NoToken(IntOverflow), value; }
      if i >= |data| { return NoToken(UnexpectedEof), value; }
      var b := data[i];
      ReadStep(data, start, i, width);
      value := OrIn(value, b, shift, width);
      i := i + 1;
      if b < 128 { return Token(i), value; }
      shift := shift + 7;
    }
  }
}
