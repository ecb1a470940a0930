/** `TxResult`, the value stored by the eth tx indexer, and its generated codec
    (`types/indexer.pb.go`). */
module TxResultCodec {
  import opened Words
  import opened Varint
  import opened Wire
  import opened Message

  datatype TxResultValue = TxResultValue(
    height: int64,
    txIndex: uint32,
    msgIndex: uint32,
    ethTxIndex: int32,
    failed: bool,
    gasUsed: uint64,
    cumulativeGasUsed: uint64
  )

  const ZERO := TxResultValue(0, 0, 0, 0, false, 0, 0)

  // ---- the encoding ----

  function Wired(m: TxResultValue): bytes {
    WiredFrom(m, 1)
  }

  /** The varint that field `num` carries: signed fields are sign-extended to 64 bits. */
  function Carried(m: TxResultValue, num: int): uint64 {
    match num
    case 1 => ToUint64(m.height)
    case 2 => m.txIndex
    case 3 => m.msgIndex
    case 4 => ToUint64(m.ethTxIndex)
    case 5 => if m.failed then 1 else 0
    case 6 => m.gasUsed
    case _ => m.cumulativeGasUsed
  }

  /** Fields `num` to 7 in ascending order. */
  function WiredFrom(m: TxResultValue, num: int): bytes
    requires 1 <= num <= 8
    decreases 8 - num
  {
    if num == 8 then [] else VarintField(8 * num, Carried(m, num)) + WiredFrom(m, num + 1)
  }

  // ---- the meaning of decoded fields ----

  /** The fields that are accumulated in place. */
  const IN_PLACE: set<int> := {1, 2, 3, 4, 6, 7}

  const SCHEMA: Schema := map[1 := 0, 2 := 0, 3 := 0, 4 := 0, 5 := 0, 6 := 0, 7 := 0]

  /** What a single decoded assignment does to the record: the field keeps the low bits of the
      varint, as many as it is wide. */
  function Apply(m: TxResultValue, e: Event): TxResultValue {
    if !e.SetVarint? then m
    else match e.num
      case 1 => m.(height := ToInt64(e.value))
      case 2 => m.(txIndex := ToUint32(e.value))
      case 3 => m.(msgIndex := ToUint32(e.value))
      case 4 => m.(ethTxIndex := ToInt32(e.value))
      case 5 => m.(failed := e.value != 0)
      case 6 => m.(gasUsed := e.value)
      case 7 => m.(cumulativeGasUsed := e.value)
      case _ => m
  }

  function ApplyAll(m: TxResultValue, es: seq<Event>): TxResultValue
    decreases es
  {
    if es == [] then m else ApplyAll(Apply(m, es[0]), es[1..])
  }

  lemma {:induction false} ApplyAllConcat(m: TxResultValue, es: seq<Event>, fs: seq<Event>)
    ensures ApplyAll(m, es + fs) == ApplyAll(ApplyAll(m, es), fs)
    decreases es
  {
    if es == [] {
      assert es + fs == fs;
    } else {
      assert (es + fs)[1..] == es[1..] + fs;
      ApplyAllConcat(Apply(m, es[0]), es[1..], fs);
    }
  }

  // ---- round trip ----

  function EventsFrom(m: TxResultValue, num: int): seq<Event>
    requires 1 <= num <= 8
    decreases 8 - num
  {
    if num == 8 then [] else VarintEvents(num, Carried(m, num)) + EventsFrom(m, num + 1)
  }

  lemma {:induction false} WiredMeans(m: TxResultValue, num: int) returns (rs: seq<Record>)
    requires 1 <= num <= 8
    ensures Means(SCHEMA, rs, WiredFrom(m, num), EventsFrom(m, num))
    decreases 8 - num
  {
    hide Means, Carried, VarintField, VarintRecords, VarintEvents, WiredFrom, EventsFrom;
    if num == 8 {
      rs := [];
      NothingMeans(m);
    } else {
      var v := Carried(m, num);
      var more := WiredMeans(m, num + 1);
      WiredStep(m, num);
      VarintMeans(SCHEMA, num, v);
      rs := VarintRecords(8 * num, v) + more;
      MeansConcat(SCHEMA, VarintRecords(8 * num, v), VarintField(8 * num, v), VarintEvents(num, v),
                  more, WiredFrom(m, num + 1), EventsFrom(m, num + 1));
    }
  }

  lemma NothingMeans(m: TxResultValue)
    ensures Means(SCHEMA, [], WiredFrom(m, 8), EventsFrom(m, 8))
  {
  }

  /** Fields below `num` taken from `m`, the others still zero. */
  function Upto(m: TxResultValue, num: int): TxResultValue {
    TxResultValue(
      if num > 1 then m.height else 0,
      if num > 2 then m.txIndex else 0,
      if num > 3 then m.msgIndex else 0,
      if num > 4 then m.ethTxIndex else 0,
      num > 5 && m.failed,
      if num > 6 then m.gasUsed else 0,
      if num > 7 then m.cumulativeGasUsed else 0)
  }

  /** Narrowing to 32 or 64 bits undoes the sign extension. */
  lemma ApplyCarried(m: TxResultValue, num: int)
    requires 1 <= num <= 7
    ensures ApplyAll(Upto(m, num), VarintEvents(num, Carried(m, num))) == Upto(m, num + 1)
  {
    var v := Carried(m, num);
    LowBitsAgree(m.height);
    LowBitsAgree(m.ethTxIndex);
    ToInt64Small(m.height);
    assert ToInt32(m.ethTxIndex) == m.ethTxIndex;
    if v != 0 {
      var e := SetVarint(num, v);
      assert [e][1..] == [];
      assert ApplyAll(Upto(m, num), [e]) == Apply(Upto(m, num), e);
    }
  }

  lemma {:induction false} ApplyWired(m: TxResultValue, num: int)
    requires 1 <= num <= 8
    ensures ApplyAll(Upto(m, num), EventsFrom(m, num)) == m
    decreases 8 - num
  {
    if num < 8 {
      hide Carried, VarintEvents, Upto, Apply, EventsFrom;
      WiredStep(m, num);
      ApplyCarried(m, num);
      ApplyWired(m, num + 1);
      ApplyAllConcat(Upto(m, num), VarintEvents(num, Carried(m, num)), EventsFrom(m, num + 1));
    }
  }

  lemma {:induction false} WiredLength(m: TxResultValue, num: int)
    requires 1 <= num <= 8
    ensures |WiredFrom(m, num)| <= 11 * (8 - num)
    decreases 8 - num
  {
    if num < 8 {
      EncodeIsToken(Carried(m, num));
      WiredLength(m, num + 1);
    }
  }

  /** Decoding an encoded record into a zero value gives the record back, negative heights and
      indexes included. */
  lemma RoundTrip(m: TxResultValue)
    ensures |Wired(m)| <= 77
    ensures Parse(SCHEMA, Wired(m)).Events?
    ensures ApplyAll(ZERO, Parse(SCHEMA, Wired(m)).events) == m
  {
    WiredLength(m, 1);
    var rs := WiredMeans(m, 1);
    hide Acceptable, ParseFrom;
    ParseRecords(SCHEMA, rs);
    ApplyWired(m, 1);
  }

  /** Different records have different encodings. */
  lemma WiredInjective(m: TxResultValue, n: TxResultValue)
    requires Wired(m) == Wired(n)
    ensures m == n
  {
    RoundTrip(m);
    RoundTrip(n);
  }

  lemma WiredEmptyOnlyForZero(m: TxResultValue)
    ensures Wired(m) == [] <==> m == ZERO
  {
  }

  // ---- size ----

  function FieldSize(v: uint64): nat {
    if v != 0 then 1 + Sov(v) else 0
  }

  function SizeOf(m: TxResultValue): nat {
    FieldSize(ToUint64(m.height)) + FieldSize(m.txIndex) + FieldSize(m.msgIndex) + FieldSize(ToUint64(m.ethTxIndex))
    + (if m.failed then 2 else 0) + FieldSize(m.gasUsed) + FieldSize(m.cumulativeGasUsed)
  }

  lemma FieldSizeIsLength(tag: byte, v: uint64)
    ensures FieldSize(v) == |VarintField(tag, v)|
  {
    SovIsLength(v);
  }

  lemma SizeIsLength(m: TxResultValue)
    ensures SizeOf(m) == |Wired(m)|
  {
    forall num | 1 <= num <= 7
      ensures |WiredFrom(m, num)| == FieldSize(Carried(m, num)) + |WiredFrom(m, num + 1)|
    {
      FieldSizeIsLength(8 * num, Carried(m, num));
    }
    FieldSizeIsLength(0x28, Carried(m, 5));
    assert Encode(1) == [1];
    hide FieldSize, WiredFrom;
    assert |WiredFrom(m, 1)| == FieldSize(Carried(m, 1)) + |WiredFrom(m, 2)|;
    assert |WiredFrom(m, 3)| == FieldSize(Carried(m, 3)) + |WiredFrom(m, 4)|;
  }

  // ---- the fields by number ----

  /** What a decoder does with one field of any 64-bit value: which field a tag stands for, and how the
      value is narrowed. */
  lemma ReadsFields(m: TxResultValue, v: uint64)
    ensures ApplyAll(m, Decoded([0x08] + Encode(v))) == m.(height := if v < TWO_63 then v else v - TWO_64)
    ensures ApplyAll(m, Decoded([0x10] + Encode(v))) == m.(txIndex := v % TWO_32)
    ensures ApplyAll(m, Decoded([0x18] + Encode(v))) == m.(msgIndex := v % TWO_32)
    ensures ApplyAll(m, Decoded([0x20] + Encode(v)))
         == m.(ethTxIndex := if v % TWO_32 < 0x8000_0000 then v % TWO_32 else v % TWO_32 - TWO_32)
    ensures ApplyAll(m, Decoded([0x28] + Encode(v))) == m.(failed := v != 0)
    ensures ApplyAll(m, Decoded([0x30] + Encode(v))) == m.(gasUsed := v)
    ensures ApplyAll(m, Decoded([0x38] + Encode(v))) == m.(cumulativeGasUsed := v)
  {
    hide Encode, Decoded, ApplyAll;
    ReadsField(m, 1, v);
    ReadsField(m, 2, v);
    ReadsField(m, 3, v);
    ReadsField(m, 4, v);
    ReadsField(m, 5, v);
    ReadsField(m, 6, v);
    ReadsField(m, 7, v);
  }

  lemma ReadsField(m: TxResultValue, num: int, v: uint64)
    requires 1 <= num <= 7
    ensures ApplyAll(m, Decoded([8 * num] + Encode(v))) == Apply(m, SetVarint(num, v))
  {
    hide Encode, Parse, Apply;
    VarintFieldReads(SCHEMA, num, v);
    assert [SetVarint(num, v)][1..] == [];
  }

  /** All fields but `Failed` keep what was read of a number that is cut short. */
  lemma CutShortKept(num: int)
    requires 1 <= num <= 7
    ensures Assigned(SCHEMA, IN_PLACE, [8 * num, 0x85], 0) == if num == 5 then [] else [SetVarint(num, 5)]
  {
    hide Assigned;
    CutShort(SCHEMA, IN_PLACE, num);
  }

  /** The assignments of an input that decodes. */
  function Decoded(data: bytes): seq<Event> {
    if |data| < TWO_63 && Parse(SCHEMA, data).Events? then Parse(SCHEMA, data).events else []
  }

  /** A record is printed field after field in the order of their numbers, signed ones as 64-bit two's
      complement, and zeros not at all. */
  lemma WireLayout(m: TxResultValue)
    ensures Wired(m) ==
            VarintField(0x08, m.height % TWO_64) + (VarintField(0x10, m.txIndex) + (VarintField(0x18, m.msgIndex)
            + (VarintField(0x20, m.ethTxIndex % TWO_64) + (VarintField(0x28, if m.failed then 1 else 0)
            + (VarintField(0x30, m.gasUsed) + VarintField(0x38, m.cumulativeGasUsed))))))
  {
    hide VarintField, WiredFrom;
    WiredStep(m, 1);
    WiredStep(m, 2);
    WiredStep(m, 3);
    WiredStep(m, 4);
    WiredStep(m, 5);
    WiredStep(m, 6);
    WiredStep(m, 7);
    NothingMore(m);
    assert VarintField(0x38, m.cumulativeGasUsed) + [] == VarintField(0x38, m.cumulativeGasUsed);
  }

  lemma NothingMore(m: TxResultValue)
    ensures WiredFrom(m, 8) == []
  {
  }

  // ---- the message object ----

  class TxResult {
    var Height: int64
    var TxIndex: uint32
    var MsgIndex: uint32
    var EthTxIndex: int32
    var Failed: bool
    var GasUsed: uint64
    var CumulativeGasUsed: uint64

    constructor ()
      ensures Value() == ZERO
    {
      Height, TxIndex, MsgIndex, EthTxIndex, Failed, GasUsed, CumulativeGasUsed := 0, 0, 0, 0, false, 0, 0;
    }

    function Value(): TxResultValue
      reads this
    {
      TxResultValue(Height, TxIndex, MsgIndex, EthTxIndex, Failed, GasUsed, CumulativeGasUsed)
    }

    /** Fills the end of the buffer with the encoding, last field first. */
    method MarshalToSizedBuffer(dAtA: array<byte>) returns (n: nat)
      requires SizeOf(Value()) <= dAtA.Length
      modifies dAtA
      ensures n == SizeOf(Value())
      ensures dAtA[dAtA.Length - n..] == Wired(Value())
      ensures dAtA[..dAtA.Length - n] == old(dAtA[..dAtA.Length - n])
    {
      ghost var orig := dAtA[..];
      var m := Value();
      SizeIsLength(m);
      hide SizeOf, Wired, WiredFrom, Value, Carried;
      var i := PutFields(dAtA, m);
      n := dAtA.Length - i;
      assert dAtA[..i] == orig[..i];
    }

    /** The encoding fills exactly `Size()` bytes. */
    method Marshal() returns (dAtA: array<byte>)
      ensures fresh(dAtA) && dAtA.Length == SizeOf(Value())
      ensures dAtA[..] == Wired(Value())
    {
      hide SizeOf, Wired, Value;
      dAtA := new byte[SizeOf(Value())];
      var n := MarshalToSizedBuffer(dAtA);
      assert dAtA[..] == dAtA[dAtA.Length - n..];
    }

    /** The decode loop of one known field. A field narrower than 64 bits accumulates in its own
        width; all but `Failed` accumulate in place, so that they keep what was read before an error. */
    method ReadKnown(num: int, data: bytes, e: nat) returns (s: Scan)
      requires 1 <= num <= 7 && e <= |data|
      modifies this
      ensures s == ScanVarint(data, e)
      ensures Value() == if s.NoToken? && num == 5 then old(Value())
                         else Apply(old(Value()), SetVarint(num, Value64(data[e..ScanEnd(data, e)])))
    {
      Pow2Literals();
      hide Spelled, ScanVarint, Pow2;
      LowBitsAgree(Spelled(data[e..ScanEnd(data, e)]));
      var v: nat;
      match num {
        case 1 =>
          s, v := ReadVarint(data, e, 64);
          Height := ToInt64(v);
        case 2 =>
          s, v := ReadVarint(data, e, 32);
          TxIndex := v;
        case 3 =>
          s, v := ReadVarint(data, e, 32);
          MsgIndex := v;
        case 4 =>
          s, v := ReadVarint(data, e, 32);
          EthTxIndex := ToInt32(v);
        case 5 =>
          s, v := ReadVarint(data, e, 64);
          if s.Token? { Failed := v != 0; }
        case 6 =>
          s, v := ReadVarint(data, e, 64);
          GasUsed := v;
        case 7 =>
          s, v := ReadVarint(data, e, 64);
          CumulativeGasUsed := v;
      }
    }

    /** One iteration of the field loop, from the tag at `i` on. */
    method ReadField(data: bytes, i: nat) returns (status: Status, next: nat)
      requires i < |data| < TWO_63
      modifies this
      ensures match ParseField(SCHEMA, data, i)
              case Reject(err) =>
                status == Err(err) && Value() == ApplyAll(old(Value()), Interrupted(SCHEMA, IN_PLACE, data, i))
              case Advance(j, es) => status == Ok && next == j && Value() == ApplyAll(old(Value()), es)
    {
      Pow2Literals();
      hide Spelled, ScanVarint, Pow2, SkipFrom, ToInt32, ToInt64, Apply;
      next := i;
      var tag, wire := ReadVarint(data, i, 64);
      if tag.NoToken? { return Err(tag.err), i; }
      var fieldNum, wireType := ToInt32(wire / 8), wire % 8;
      if wireType == 4 { return Err(EndGroupForNonGroup), i; }
      if fieldNum <= 0 { return Err(IllegalTag(fieldNum)), i; }
      if 1 <= fieldNum <= 7 {
        if wireType != 0 { return Err(WrongWireType(fieldNum, wireType)), i; }
        ghost var e := SetVarint(fieldNum, Value64(data[tag.end..ScanEnd(data, tag.end)]));
        assert [e][1..] == [];
        var v := ReadKnown(fieldNum, data, tag.end);
        if v.NoToken? { return Err(v.err), i; }
        return Ok, v.end;
      } else {
        var skippy := Skip(data[i..]);
        if skippy.SkipFailed? { return Err(skippy.err), i; }
        var post := ToInt64(i + skippy.n);
        if post < 0 { return Err(InvalidLength), i; }
        if post > |data| { return Err(UnexpectedEof), i; }
        return Ok, post;
      }
    }

    /** Decodes into this object: succeeds exactly when the input parses, and then has made the
        assignments of its records, in order; after an error, those before it. */
    method Unmarshal(data: bytes) returns (status: Status)
      requires |data| < TWO_63
      modifies this
      ensures status.Ok? <==> Parse(SCHEMA, data).Events?
      ensures status.Ok? ==> Value() == ApplyAll(old(Value()), Parse(SCHEMA, data).events)
      ensures status.Err? ==> Parse(SCHEMA, data) == ParseFailed(status.err)
      ensures Value() == ApplyAll(old(Value()), Assigned(SCHEMA, IN_PLACE, data, 0))
    {
      hide ParseField, Apply, Value, Interrupted;
      var i := 0;
      ghost var done: seq<Event> := [];
      assert Assigned(SCHEMA, IN_PLACE, data, 0) == done + Assigned(SCHEMA, IN_PLACE, data, 0);
      while i < |data|
        invariant i <= |data|
        invariant Parse(SCHEMA, data) == Prepend(done, ParseFrom(SCHEMA, data, i))
        invariant Assigned(SCHEMA, IN_PLACE, data, 0) == done + Assigned(SCHEMA, IN_PLACE, data, i)
        invariant Value() == ApplyAll(old(Value()), done)
        decreases |data| - i
      {
        ghost var step := ParseField(SCHEMA, data, i);
        var s, next := ReadField(data, i);
        if s.Err? {
          ApplyAllConcat(old(Value()), done, Interrupted(SCHEMA, IN_PLACE, data, i));
          return s;
        }
        ApplyAllConcat(old(Value()), done, step.events);
        PrependConcat(done, step.events, ParseFrom(SCHEMA, data, next));
        assert done + (step.events + Assigned(SCHEMA, IN_PLACE, data, next))
            == (done + step.events) + Assigned(SCHEMA, IN_PLACE, data, next);
        done := done + step.events;
        i := next;
      }
      assert done + [] == done;
      return Ok;
    }
  }

  lemma WiredStep(m: TxResultValue, num: int)
    requires 1 <= num <= 7
    ensures WiredFrom(m, num) == VarintField(8 * num, Carried(m, num)) + WiredFrom(m, num + 1)
    ensures EventsFrom(m, num) == VarintEvents(num, Carried(m, num)) + EventsFrom(m, num + 1)
  {
  }

  lemma {:induction false} WiredFits(m: TxResultValue, num: int)
    requires 1 <= num <= 8
    ensures |WiredFrom(m, num)| <= |Wired(m)|
    decreases num
  {
    hide VarintField, Carried, WiredFrom;
    if num > 1 {
      WiredFits(m, num - 1);
      WiredStep(m, num - 1);
    }
  }

  /** Prints field `num`, given that the later fields already fill the end of the buffer. */
  method PutField(dAtA: array<byte>, i: nat, tag: byte, v: uint64, ghost m: TxResultValue, ghost num: int)
    returns (j: nat)
    requires 1 <= num <= 7 && tag == 8 * num && v == Carried(m, num)
    requires |Wired(m)| <= dAtA.Length && i + |WiredFrom(m, num + 1)| == dAtA.Length
    requires dAtA[i..] == WiredFrom(m, num + 1)
    modifies dAtA
    ensures j <= i && j + |WiredFrom(m, num)| == dAtA.Length
    ensures dAtA[j..] == WiredFrom(m, num)
    ensures forall k :: 0 <= k < j ==> dAtA[k] == old(dAtA[k])
  {
    hide VarintField, Carried, WiredFrom, Wired;
    WiredFits(m, num);
    WiredStep(m, num);
    j := PutVarintField(dAtA, i, tag, v);
    assert dAtA[i..] == old(dAtA[i..]);
    SliceSplits(dAtA, j, i);
  }

  /** All fields, last field first, so that they end where the buffer ends. */
  method PutFields(dAtA: array<byte>, m: TxResultValue) returns (i: nat)
    requires |Wired(m)| <= dAtA.Length
    modifies dAtA
    ensures i + |Wired(m)| == dAtA.Length && dAtA[i..] == Wired(m)
    ensures forall k :: 0 <= k < i ==> dAtA[k] == old(dAtA[k])
  {
    i := dAtA.Length;
    assert WiredFrom(m, 8) == [];
    hide WiredFrom;
    i := PutField(dAtA, i, 0x38, m.cumulativeGasUsed, m, 7);
    i := PutField(dAtA, i, 0x30, m.gasUsed, m, 6);
    i := PutField(dAtA, i, 0x28, if m.failed then 1 else 0, m, 5);
    i := PutField(dAtA, i, 0x20, ToUint64(m.ethTxIndex), m, 4);
    i := PutField(dAtA, i, 0x18, m.msgIndex, m, 3);
    i := PutField(dAtA, i, 0x10, m.txIndex, m, 2);
    i := PutField(dAtA, i, 0x08, ToUint64(m.height), m, 1);
  }
}
