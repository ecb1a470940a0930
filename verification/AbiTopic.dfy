/** Event topics (`precompiles/common/abi.go`): a number becomes a 32-byte word, negative ones in two's
    complement as in "Formal Specification of the Encoding" of the Contract ABI Specification. */
module AbiTopic {
  import opened Words
  import opened ByteOrder

  const HASH_LENGTH := 32
  const ADDRESS_LENGTH := 20

  // ---- two's complement ----

  predicate Within(v: int, bound: int) {
    -bound <= v < bound
  }

  /** The ABI encoding of an integer. */
  function Word(v: int): bytes {
    BigEndian(v, HASH_LENGTH)
  }

  function Signed(word: bytes): int {
    var u := FromBigEndian(word);
    if u < Pow2(255) then u else u - Pow2(256)
  }

  lemma {:induction false} BigEndianReads(v: int, n: nat)
    ensures FromBigEndian(BigEndian(v, n)) == v % Pow2(8 * n)
    decreases n
  {
    if n == 0 {
      assert Pow2(0) == 1;
    } else {
      Pow2Times256(n - 1);
      BigEndianReads(v / 256, n - 1);
      assert BigEndian(v, n)[..n - 1] == BigEndian(v / 256, n - 1);
      DivDiv(v, 256, Pow2(8 * (n - 1)));
    }
  }

  /** Equal encodings are equal remainders. */
  lemma {:induction false} BigEndianEqual(v: int, w: int, n: nat)
    ensures BigEndian(v, n) == BigEndian(w, n) <==> v % Pow2(8 * n) == w % Pow2(8 * n)
    decreases n
  {
    BigEndianReads(v, n);
    BigEndianReads(w, n);
    if n > 0 && v % Pow2(8 * n) == w % Pow2(8 * n) {
      var p := Pow2(8 * (n - 1));
      Pow2Times256(n - 1);
      DivDiv(v, 256, p);
      DivDiv(w, 256, p);
      BigEndianEqual(v / 256, w / 256, n - 1);
    }
  }

  /** The high bytes of a number are the bytes of its quotient. */
  lemma {:induction false} BigEndianSplit(v: int, a: nat, b: nat)
    ensures BigEndian(v, a + b) == BigEndian(v / Pow2(8 * b), a) + BigEndian(v, b)
    decreases b
  {
    if b == 0 {
      assert Pow2(0) == 1;
      assert v / 1 == v;
    } else {
      Pow2Times256(b - 1);
      DivDiv(v, 256, Pow2(8 * (b - 1)));
      BigEndianSplit(v / 256, a, b - 1);
    }
  }

  /** Every signed 256-bit number is read back from its word. */
  lemma WordReads(v: int)
    requires Within(v, Pow2(255))
    ensures Signed(Word(v)) == v
  {
    hide BigEndian, FromBigEndian;
    BigEndianReads(v, HASH_LENGTH);
    assert Pow2(256) == 2 * Pow2(255);
    DivModUnique(v, Pow2(256), if v < 0 then -1 else 0, if v < 0 then v + Pow2(256) else v);
  }

  // ---- genIntType ----

  function Filled(x: byte, n: nat): bytes {
    seq(n, i => x)
  }

  /** The low bytes of the number behind copies of its sign. */
  function IntTopic(rule: int, size: nat): bytes
    requires size <= HASH_LENGTH
  {
    Filled(if rule < 0 then 255 else 0, HASH_LENGTH - size) + BigEndian(rule, size)
  }

  method GenIntType(rule: int64, size: nat) returns (topic: array<byte>)
    requires size <= HASH_LENGTH
    ensures fresh(topic) && topic[..] == IntTopic(rule, size)
  {
    hide BigEndian, Pow2;
    var fill: byte := if rule < 0 then 255 else 0;
    topic := new byte[HASH_LENGTH](_ => fill);
    EmptyEncoding(rule);
    for i := 0 to size
      invariant forall k :: 0 <= k < HASH_LENGTH - i ==> topic[k] == fill
      invariant topic[HASH_LENGTH - i..] == BigEndian(rule, i)
    {
      BigEndianFront(rule, i);
      ghost var low := topic[HASH_LENGTH - i..];
      topic[HASH_LENGTH - i - 1] := (rule / Pow2(8 * i)) % 256;
      assert topic[HASH_LENGTH - i..] == low;
      assert topic[HASH_LENGTH - (i + 1)..] == [topic[HASH_LENGTH - i - 1]] + topic[HASH_LENGTH - i..];
    }
    assert topic[..HASH_LENGTH - size] == Filled(fill, HASH_LENGTH - size);
    assert topic[..] == topic[..HASH_LENGTH - size] + topic[HASH_LENGTH - size..];
  }

  lemma EmptyEncoding(v: int)
    ensures BigEndian(v, 0) == []
  {
  }

  lemma BigEndianFront(v: int, n: nat)
    ensures BigEndian(v, n + 1) == [(v / Pow2(8 * n)) % 256] + BigEndian(v, n)
  {
    hide Pow2;
    BigEndianSplit(v, 1, n);
    var q := v / Pow2(8 * n);
    assert BigEndian(q, 1) == BigEndian(q / 256, 0) + [q % 256];
  }

  lemma {:induction false} FillIsEncoding(n: nat)
    ensures BigEndian(0, n) == Filled(0, n) && BigEndian(-1, n) == Filled(255, n)
  {
    if n > 0 {
      FillIsEncoding(n - 1);
      assert Filled(0, n) == Filled(0, n - 1) + [0] && Filled(255, n) == Filled(255, n - 1) + [255];
      assert 0 / 256 == 0 && (-1) / 256 == -1 && (-1) % 256 == 255;
    }
  }

  /** `genIntType` yields the ABI word of the number exactly when the number fits in `size` bytes and a
      sign: in particular for every signed number of `size` bytes. */
  lemma IntTopicExact(rule: int64, size: nat)
    requires size <= HASH_LENGTH
    ensures IntTopic(rule, size) == Word(rule) <==> Within(rule, Pow2(8 * size))
  {
    hide BigEndian, Pow2, Filled;
    var high, p := HASH_LENGTH - size, Pow2(8 * size);
    var q, sign := rule / p, if rule < 0 then -1 else 0;
    BigEndianSplit(rule, high, size);
    FillIsEncoding(high);
    var fill, bytesOfQ, low := BigEndian(sign, high), BigEndian(q, high), BigEndian(rule, size);
    assert (fill + low)[..high] == fill && (bytesOfQ + low)[..high] == bytesOfQ;
    BigEndianEqual(q, sign, high);
    Pow2Literals();
    if size <= 24 {
      Pow2Grows(64, 8 * high);
      QuotientBounds(rule, p);
      SmallEqual(q, sign, Pow2(8 * high));
    } else {
      Pow2Grows(64, 8 * size);
    }
    QuotientIs(rule, p);
  }

  /** A quotient is its sign exactly when the number is within one divisor of zero. */
  lemma QuotientIs(v: int, p: int)
    requires p > 0
    ensures v / p == (if v < 0 then -1 else 0) <==> -p <= v < p
  {
  }

  lemma QuotientBounds(v: int64, p: int)
    requires p > 0
    ensures -TWO_63 <= v / p < TWO_63
  {
  }

  /** Modulo 2^64 or more, a 64-bit number tells whether it is just a sign. */
  lemma SmallEqual(a: int64, b: int, m: int)
    requires TWO_64 <= m && -1 <= b <= 0
    ensures a % m == b % m <==> a == b
  {
  }

  // ---- MakeTopic ----

  /** The number-like rules. A signed rule has 1, 2, 4 or 8 bytes. */
  datatype Rule =
    | Hash(hash: bytes)
    | Address(address: bytes)
    | BigInt(x: int)
    | Bool(b: bool)
    | Int(v: int64, size: nat)
    | Uint(u: uint64)

  predicate WellTyped(rule: Rule) {
    match rule
    case Hash(h) => |h| == HASH_LENGTH
    case Address(a) => |a| == ADDRESS_LENGTH
    case Int(v, size) => size in {1, 2, 4, 8} && Within(v, Pow2(8 * size - 1))
    case _ => true
  }

  /** `big.Int.Bytes`: the absolute value, big-endian, without leading zeros. */
  function Minimal(v: nat): bytes {
    if v == 0 then [] else Minimal(v / 256) + [v % 256]
  }

  function Abs(x: int): nat {
    if x < 0 then -x else x
  }

  lemma {:induction false} MinimalPads(v: nat, n: nat)
    ensures |Minimal(v)| <= n <==> v < Pow2(8 * n)
    ensures |Minimal(v)| <= n ==> Filled(0, n - |Minimal(v)|) + Minimal(v) == BigEndian(v, n)
    decreases n
  {
    if n == 0 {
      assert Pow2(0) == 1;
    } else if v == 0 {
      FillIsEncoding(n);
    } else {
      Pow2Times256(n - 1);
      MinimalPads(v / 256, n - 1);
    }
  }

  datatype Outcome = Topic(word: bytes) | Panic

  /** The word a rule stands for; an integer of more than 32 bytes has none. */
  function TopicOf(rule: Rule): Outcome
    requires WellTyped(rule)
  {
    match rule
    case Hash(h) => Topic(h)
    case Address(a) => Topic(Filled(0, HASH_LENGTH - ADDRESS_LENGTH) + a)
    case BigInt(x) => if Abs(x) < Pow2(256) then Topic(Word(Abs(x))) else Panic
    case Bool(b) => Topic(Word(if b then 1 else 0))
    case Int(v, _) => Topic(Word(v))
    case Uint(u) => Topic(Word(u))
  }

  method CopyTo(topic: array<byte>, at: nat, source: bytes)
    requires topic.Length == HASH_LENGTH && at + |source| == HASH_LENGTH
    requires topic[..] == Filled(0, HASH_LENGTH)
    modifies topic
    ensures topic[..] == Filled(0, at) + source
  {
    forall k | 0 <= k < |source| { topic[at + k] := source[k]; }
  }

  method MakeTopic(rule: Rule) returns (r: Outcome)
    requires WellTyped(rule)
    ensures r == TopicOf(rule)
  {
    hide BigEndian, Pow2, Minimal;
    var topic := new byte[HASH_LENGTH](_ => 0);
    assert topic[..] == Filled(0, HASH_LENGTH);
    match rule {
      case Hash(hash) =>
        CopyTo(topic, 0, hash);
        assert Filled(0, 0) + hash == hash;
      case Address(address) =>
        CopyTo(topic, HASH_LENGTH - ADDRESS_LENGTH, address);
      case BigInt(x) =>
        var blob := Minimal(Abs(x));
        MinimalPads(Abs(x), HASH_LENGTH);
        if |blob| > HASH_LENGTH { return Panic; }
        CopyTo(topic, HASH_LENGTH - |blob|, blob);
      case Bool(b) =>
        BitWord(b);
        if b { topic[HASH_LENGTH - 1] := 1; }
        assert topic[..] == Filled(0, HASH_LENGTH - 1) + [if b then 1 else 0];
      case Int(v, size) =>
        IntFits(v, size);
        var word := GenIntType(v, size);
        topic := word;
      case Uint(u) =>
        var blob := Minimal(u);
        MinimalPads(u, HASH_LENGTH);
        UintFits(u);
        CopyTo(topic, HASH_LENGTH - |blob|, blob);
    }
    return Topic(topic[..]);
  }

  lemma BitWord(b: bool)
    ensures Word(if b then 1 else 0) == Filled(0, HASH_LENGTH - 1) + [if b then 1 else 0]
  {
    FillIsEncoding(HASH_LENGTH - 1);
  }

  lemma UintFits(u: uint64)
    ensures u < Pow2(256)
  {
    Pow2Literals();
    Pow2Grows(64, 256);
  }

  lemma IntFits(v: int64, size: nat)
    requires size in {1, 2, 4, 8} && Within(v, Pow2(8 * size - 1))
    ensures IntTopic(v, size) == Word(v)
  {
    hide BigEndian, IntTopic;
    Pow2Grows(8 * size - 1, 8 * size);
    IntTopicExact(v, size);
  }

  // ---- what a topic tells ----

  /** The number a rule stands for. */
  function Number(rule: Rule): int {
    match rule
    case Hash(h) => FromBigEndian(h)
    case Address(a) => FromBigEndian(a)
    case BigInt(x) => x
    case Bool(b) => if b then 1 else 0
    case Int(v, _) => v
    case Uint(u) => u
  }

  /** Fixed-size integers are read back from their topic, so different ones have different topics. */
  lemma TopicReads(rule: Rule)
    requires WellTyped(rule) && (rule.Bool? || rule.Int? || rule.Uint?)
    ensures TopicOf(rule).Topic? && Signed(TopicOf(rule).word) == Number(rule)
  {
    hide BigEndian, FromBigEndian, Pow2, Signed;
    Pow2Literals();
    Pow2Grows(64, 255);
    WordReads(Number(rule));
  }

  lemma {:induction false} LeadingZeros(n: nat, bs: bytes)
    ensures FromBigEndian(Filled(0, n) + bs) == FromBigEndian(bs)
    decreases |bs|, n
  {
    var all := Filled(0, n) + bs;
    if bs != [] {
      assert all[..|all| - 1] == Filled(0, n) + bs[..|bs| - 1];
      LeadingZeros(n, bs[..|bs| - 1]);
    } else if n > 0 {
      assert all[..|all| - 1] == Filled(0, n - 1) + [];
      LeadingZeros(n - 1, []);
    }
  }

  /** A hash is its own topic; an address stands in the last 20 bytes and has the same value. */
  lemma BytesTopicReads(rule: Rule)
    requires WellTyped(rule) && (rule.Hash? || rule.Address?)
    ensures TopicOf(rule).Topic? && |TopicOf(rule).word| == 32
    ensures FromBigEndian(TopicOf(rule).word) == Number(rule)
    ensures rule.Hash? ==> TopicOf(rule).word == rule.hash
    ensures rule.Address? ==> TopicOf(rule).word[12..] == rule.address
  {
    hide FromBigEndian;
    if rule.Address? { LeadingZeros(HASH_LENGTH - ADDRESS_LENGTH, rule.address); }
  }

  /** A big integer's topic is its ABI word exactly when it is an unsigned 256-bit number or the least
      signed one, because the sign is dropped. */
  lemma BigTopicExact(x: int)
    ensures TopicOf(BigInt(x)) == Topic(Word(x)) <==> 0 <= x < Pow2(256) || x == 0 - Pow2(255)
  {
    hide BigEndian;
    assert Pow2(256) == 2 * Pow2(255);
    if Abs(x) < Pow2(256) {
      BigEndianEqual(Abs(x), x, HASH_LENGTH);
      if x < 0 { DivModUnique(x, Pow2(256), -1, x + Pow2(256)); }
      DivModUnique(Abs(x), Pow2(256), 0, Abs(x));
    }
  }

  lemma NegativeBigTopic()
    ensures TopicOf(BigInt(-1)) == TopicOf(BigInt(1)) && TopicOf(BigInt(-1)) != Topic(Word(-1))
  {
    hide BigEndian;
    assert Pow2(255) > 1 by { assert Pow2(255) == 2 * Pow2(254); }
    assert Pow2(256) == 2 * Pow2(255);
    BigTopicExact(-1);
  }
}
