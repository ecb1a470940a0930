/** `ExtensionOptionsWeb3Tx` and its generated codec (`types/web3.pb.go`). Go strings are byte
    strings, and a nil signature is the empty one. */
module Web3Codec {
  import opened Words
  import opened Varint
  import opened Wire
  import opened Message

  /** A length a Go slice can have. */
  type slice = s: bytes | |s| < TWO_63

  datatype Web3Value = Web3Value(typedDataChainID: uint64, feePayer: slice, feePayerSig: slice)

  const ZERO := Web3Value(0, [], [])

  /** The field that is accumulated in place. */
  const IN_PLACE: set<int> := {1}

  const SCHEMA: Schema := map[1 := 0, 2 := 2, 3 := 2]

  function PayerAndSig(m: Web3Value): bytes {
    BytesField(0x12, m.feePayer) + BytesField(0x1a, m.feePayerSig)
  }

  function Wired(m: Web3Value): bytes {
    VarintField(0x08, m.typedDataChainID) + PayerAndSig(m)
  }

  function Apply(m: Web3Value, e: Event): Web3Value {
    match e
    case SetVarint(num, v) => if num == 1 then m.(typedDataChainID := v) else m
    case SetBytes(num, s) =>
      if |s| >= TWO_63 then m
      else if num == 2 then m.(feePayer := s)
      else if num == 3 then m.(feePayerSig := s)
      else m
  }

  function ApplyAll(m: Web3Value, es: seq<Event>): Web3Value
    decreases es
  {
    if es == [] then m else ApplyAll(Apply(m, es[0]), es[1..])
  }

  lemma {:induction false} ApplyAllConcat(m: Web3Value, es: seq<Event>, fs: seq<Event>)
    ensures ApplyAll(m, es + fs) == ApplyAll(ApplyAll(m, es), fs)
    decreases es
  {
    hide Apply;
    if es == [] {
      assert es + fs == fs;
    } else {
      assert (es + fs)[1..] == es[1..] + fs;
      ApplyAllConcat(Apply(m, es[0]), es[1..], fs);
    }
  }

  lemma ApplyOne(m: Web3Value, e: Event)
    ensures ApplyAll(m, [e]) == Apply(m, e)
  {
  }

  // ---- round trip ----

  function FieldEvents(m: Web3Value): seq<Event> {
    VarintEvents(1, m.typedDataChainID) + (BytesEvents(2, m.feePayer) + BytesEvents(3, m.feePayerSig))
  }

  lemma WiredMeans(m: Web3Value) returns (rs: seq<Record>)
    ensures Means(SCHEMA, rs, Wired(m), FieldEvents(m))
  {
    hide Means, VarintField, BytesField, VarintEvents, BytesEvents, VarintRecords, BytesRecords;
    VarintMeans(SCHEMA, 1, m.typedDataChainID);
    BytesMeans(SCHEMA, 2, m.feePayer);
    BytesMeans(SCHEMA, 3, m.feePayerSig);
    var r1 := VarintRecords(0x08, m.typedDataChainID);
    var r2, r3 := BytesRecords(0x12, m.feePayer), BytesRecords(0x1a, m.feePayerSig);
    MeansConcat(SCHEMA, r2, BytesField(0x12, m.feePayer), BytesEvents(2, m.feePayer),
                r3, BytesField(0x1a, m.feePayerSig), BytesEvents(3, m.feePayerSig));
    MeansConcat(SCHEMA, r1, VarintField(0x08, m.typedDataChainID), VarintEvents(1, m.typedDataChainID),
                r2 + r3, PayerAndSig(m), BytesEvents(2, m.feePayer) + BytesEvents(3, m.feePayerSig));
    rs := r1 + (r2 + r3);
  }

  lemma ApplyFieldEvents(m: Web3Value)
    ensures ApplyAll(ZERO, FieldEvents(m)) == m
  {
    var e1, e2, e3 := VarintEvents(1, m.typedDataChainID), BytesEvents(2, m.feePayer), BytesEvents(3, m.feePayerSig);
    var m1 := ZERO.(typedDataChainID := m.typedDataChainID);
    var m2 := m1.(feePayer := m.feePayer);
    assert ApplyAll(ZERO, e1) == m1 by { ApplyOne(ZERO, SetVarint(1, m.typedDataChainID)); }
    assert ApplyAll(m1, e2) == m2 by { ApplyOne(m1, SetBytes(2, m.feePayer)); }
    assert ApplyAll(m2, e3) == m by { ApplyOne(m2, SetBytes(3, m.feePayerSig)); }
    hide ApplyAll;
    ApplyAllConcat(m1, e2, e3);
    ApplyAllConcat(ZERO, e1, e2 + e3);
  }

  /** Every chain id, fee payer and signature survive encoding and decoding, empty ones too. */
  lemma RoundTrip(m: Web3Value)
    requires |Wired(m)| < TWO_63
    ensures Parse(SCHEMA, Wired(m)).Events?
    ensures ApplyAll(ZERO, Parse(SCHEMA, Wired(m)).events) == m
  {
    var rs := WiredMeans(m);
    hide Wired, FieldEvents, Acceptable, ParseFrom;
    ParseRecords(SCHEMA, rs);
    ApplyFieldEvents(m);
  }

  // ---- size ----

  function SizeOf(m: Web3Value): nat {
    (if m.typedDataChainID != 0 then 1 + Sov(m.typedDataChainID) else 0)
    + (if |m.feePayer| > 0 then 1 + |m.feePayer| + Sov(|m.feePayer|) else 0)
    + (if |m.feePayerSig| > 0 then 1 + |m.feePayerSig| + Sov(|m.feePayerSig|) else 0)
  }

  lemma SizeIsLength(m: Web3Value)
    ensures SizeOf(m) == |Wired(m)|
  {
    SovIsLength(m.typedDataChainID);
    SovIsLength(|m.feePayer|);
    SovIsLength(|m.feePayerSig|);
    hide Sov, Encode;
  }

  // ---- the fields by number ----

  /** What a decoder does with one field: 1 is the chain id, 2 the fee payer, 3 its signature. */
  lemma ReadsFields(m: Web3Value, v: uint64, content: slice)
    ensures ApplyAll(m, Decoded([0x08] + Encode(v))) == m.(typedDataChainID := v)
    ensures |[0x12] + Encode(|content|) + content| < TWO_63 ==>
              && ApplyAll(m, Decoded([0x12] + Encode(|content|) + content)) == m.(feePayer := content)
              && ApplyAll(m, Decoded([0x1a] + Encode(|content|) + content)) == m.(feePayerSig := content)
  {
    hide Encode, Parse;
    VarintFieldReads(SCHEMA, 1, v);
    if |[0x12 as byte] + Encode(|content|) + content| < TWO_63 {
      BytesFieldReads(SCHEMA, 2, content);
      BytesFieldReads(SCHEMA, 3, content);
    }
    assert forall e: Event :: [e][1..] == [];
  }

  /** The chain id keeps what was read of a number that is cut short. */
  lemma CutShortKept()
    ensures Assigned(SCHEMA, IN_PLACE, [0x08, 0x85], 0) == [SetVarint(1, 5)]
  {
    hide Assigned;
    CutShort(SCHEMA, IN_PLACE, 1);
  }

  /** The assignments of an input that decodes. */
  function Decoded(data: bytes): seq<Event> {
    if |data| < TWO_63 && Parse(SCHEMA, data).Events? then Parse(SCHEMA, data).events else []
  }

  // ---- the message object ----

  class ExtensionOptionsWeb3Tx {
    var TypedDataChainID: uint64
    var FeePayer: slice
    var FeePayerSig: slice

    constructor ()
      ensures Value() == ZERO
    {
      TypedDataChainID, FeePayer, FeePayerSig := 0, [], [];
    }

    function Value(): Web3Value
      reads this
    {
      Web3Value(TypedDataChainID, FeePayer, FeePayerSig)
    }

    method MarshalToSizedBuffer(dAtA: array<byte>) returns (n: nat)
      requires SizeOf(Value()) <= dAtA.Length
      modifies dAtA
      ensures n == SizeOf(Value())
      ensures dAtA[dAtA.Length - n..] == Wired(Value())
      ensures dAtA[..dAtA.Length - n] == old(dAtA[..dAtA.Length - n])
    {
      ghost var m := Value();
      SizeIsLength(m);
      hide SizeOf, VarintField, BytesField;
      var s := PutBytesField(dAtA, dAtA.Length, 0x1a, FeePayerSig);
      assert dAtA[s..] == BytesField(0x1a, m.feePayerSig);
      var p := PutBytesField(dAtA, s, 0x12, FeePayer);
      assert dAtA[s..] == BytesField(0x1a, m.feePayerSig);
      assert dAtA[p..] == dAtA[p..s] + dAtA[s..] == PayerAndSig(m);
      var i := PutVarintField(dAtA, p, 0x08, TypedDataChainID);
      assert dAtA[p..] == PayerAndSig(m);
      assert dAtA[i..] == dAtA[i..p] + dAtA[p..] == Wired(m);
      n := dAtA.Length - i;
    }

    method Marshal() returns (dAtA: array<byte>)
      ensures fresh(dAtA) && dAtA.Length == SizeOf(Value())
      ensures dAtA[..] == Wired(Value())
    {
      hide SizeOf, Wired, Value;
      dAtA := new byte[SizeOf(Value())];
      var n := MarshalToSizedBuffer(dAtA);
      assert dAtA[..] == dAtA[dAtA.Length - n..];
    }

    /** The length-delimited case: `num` 2 is the fee payer, 3 its signature. */
    method ReadBytes(num: int, data: bytes, e: nat) returns (status: Status, next: nat)
      requires num in {2, 3} && e <= |data| < TWO_63
      modifies this
      ensures match ParseBytesField(data, num, e)
              case Reject(err) => status == Err(err) && Value() == old(Value())
              case Advance(j, es) => status == Ok && next == j && Value() == ApplyAll(old(Value()), es)
    {
      Pow2Literals();
      hide Spelled, ScanVarint, Pow2, ToInt64;
      var s, v := ReadVarint(data, e, 64);
      if s.NoToken? { return Err(s.err), e; }
      LowBitsAgree(Spelled(data[e..s.end]));
      var length := ToInt64(v);
      if length < 0 { return Err(InvalidLength), e; }
      var post := ToInt64(s.end + length);
      if post < 0 { return Err(InvalidLength), e; }
      if post > |data| { return Err(UnexpectedEof), e; }
      ToInt64Forward(s.end + length);
      var content := data[s.end..post];
      ApplyOne(Value(), SetBytes(num, content));
      if num == 2 { FeePayer := content; } else { FeePayerSig := content; }
      return Ok, post;
    }

    method ReadField(data: bytes, i: nat) returns (status: Status, next: nat)
      requires i < |data| < TWO_63
      modifies this
      ensures match ParseField(SCHEMA, data, i)
              case Reject(err) =>
                status == Err(err) && Value() == ApplyAll(old(Value()), Interrupted(SCHEMA, IN_PLACE, data, i))
              case Advance(j, es) => status == Ok && next == j && Value() == ApplyAll(old(Value()), es)
    {
      Pow2Literals();
      hide Spelled, ScanVarint, Pow2, SkipFrom, ToInt32, ToInt64, ParseBytesField;
      var tag, wire := ReadVarint(data, i, 64);
      if tag.NoToken? { return Err(tag.err), i; }
      var fieldNum, wireType := ToInt32(wire / 8), wire % 8;
      if wireType == 4 { return Err(EndGroupForNonGroup), i; }
      if fieldNum <= 0 { return Err(IllegalTag(fieldNum)), i; }
      if fieldNum == 1 {
        if wireType != 0 { return Err(WrongWireType(fieldNum, wireType)), i; }
        var s, v := ReadVarint(data, tag.end, 64);
        ApplyOne(Value(), SetVarint(1, v));
        TypedDataChainID := v;
        if s.NoToken? { return Err(s.err), i; }
        return Ok, s.end;
      } else if fieldNum == 2 || fieldNum == 3 {
        if wireType != 2 { return Err(WrongWireType(fieldNum, wireType)), i; }
        status, next := ReadBytes(fieldNum, data, tag.end);
      } else {
        var skippy := Skip(data[i..]);
        if skippy.SkipFailed? { return Err(skippy.err), i; }
        var post := ToInt64(i + skippy.n);
        if post < 0 { return Err(InvalidLength), i; }
        if post > |data| { return Err(UnexpectedEof), i; }
        return Ok, post;
      }
    }

    /** Succeeds exactly when the input parses, and then has made the assignments of its records, in
        order; after an error, those before it. */
    method Unmarshal(data: bytes) returns (status: Status)
      requires |data| < TWO_63
      modifies this
      ensures status.Ok? <==> Parse(SCHEMA, data).Events?
      ensures status.Ok? ==> Value() == ApplyAll(old(Value()), Parse(SCHEMA, data).events)
      ensures status.Err? ==> Parse(SCHEMA, data) == ParseFailed(status.err)
      ensures Value() == ApplyAll(old(Value()), Assigned(SCHEMA, IN_PLACE, data, 0))
    {
      hide ParseField, Apply, Value, Interrupted;
      var i := 0;
      ghost var done: seq<Event> := [];
      assert Assigned(SCHEMA, IN_PLACE, data, 0) == done + Assigned(SCHEMA, IN_PLACE, data, 0);
      while i < |data|
        invariant i <= |data|
        invariant Parse(SCHEMA, data) == Prepend(done, ParseFrom(SCHEMA, data, i))
        invariant Assigned(SCHEMA, IN_PLACE, data, 0) == done + Assigned(SCHEMA, IN_PLACE, data, i)
        invariant Value() == ApplyAll(old(Value()), done)
        decreases |data| - i
      {
        ghost var step := ParseField(SCHEMA, data, i);
        var s, next := ReadField(data, i);
        if s.Err? {
          ApplyAllConcat(old(Value()), done, Interrupted(SCHEMA, IN_PLACE, data, i));
          return s;
        }
        ApplyAllConcat(old(Value()), done, step.events);
        PrependConcat(done, step.events, ParseFrom(SCHEMA, data, next));
        assert done + (step.events + Assigned(SCHEMA, IN_PLACE, data, next))
            == (done + step.events) + Assigned(SCHEMA, IN_PLACE, data, next);
        done := done + step.events;
        i := next;
      }
      assert done + [] == done;
      return Ok;
    }
  }
}
