/** The protobuf wire format as the generated code reads it: a grammar of records, the `skip`
    loop that steps over an unknown record, and the field loop every `Unmarshal` runs.
    The loops are proved to accept exactly the grammar. */
module Wire {
  import opened Words
  import opened Varint

  // ---- the grammar ----

  /** One record as it stands in the bytes. Tags, lengths and varint values are tokens, not
      numbers: longer-than-needed varints are accepted. A group's closing tag may carry any field
      number, because the skip loop does not compare it with the opening one. */
  datatype Record =
    | VarintRecord(tag: bytes, value: bytes)
    | Fixed64(tag: bytes, payload: bytes)
    | Delimited(tag: bytes, len: bytes, payload: bytes)
    | Group(tag: bytes, members: seq<Record>, close: bytes)
    | Fixed32(tag: bytes, payload: bytes)

  function Value64(token: bytes): uint64 {
    ToUint64(Spelled(token))
  }

  function WireType(tag: bytes): int {
    Value64(tag) % 8
  }

  function FieldNum(tag: bytes): int32 {
    ToInt32(Value64(tag) / 8)
  }

  predicate WellFormed(r: Record) {
    && IsToken(r.tag)
    && match r
       case VarintRecord(tag, value) => WireType(tag) == 0 && IsToken(value)
       case Fixed64(tag, payload) => WireType(tag) == 1 && |payload| == 8
       case Delimited(tag, len, payload) => WireType(tag) == 2 && IsToken(len) && ToInt64(Spelled(len)) == |payload|
       case Group(tag, members, close) =>
         && WireType(tag) == 3
         && IsToken(close) && WireType(close) == 4
         && forall m :: m in members ==> WellFormed(m)
       case Fixed32(tag, payload) => WireType(tag) == 5 && |payload| == 4
  }

  function Print(r: Record): bytes
    decreases r, 1
  {
    match r
    case VarintRecord(tag, value) => tag + value
    case Fixed64(tag, payload) => tag + payload
    case Delimited(tag, len, payload) => tag + len + payload
    case Group(tag, members, close) => tag + PrintAll(members) + close
    case Fixed32(tag, payload) => tag + payload
  }

  function PrintAll(rs: seq<Record>): bytes
    decreases rs, 0
  {
    if rs == [] then [] else Print(rs[0]) + PrintAll(rs[1..])
  }

  lemma {:induction false} PrintAllConcat(a: seq<Record>, b: seq<Record>)
    ensures PrintAll(a + b) == PrintAll(a) + PrintAll(b)
  {
    if a == [] {
      assert a + b == b;
    } else {
      assert (a + b)[1..] == a[1..] + b;
      PrintAllConcat(a[1..], b);
    }
  }

  /** The bytes `t` stand in `data` from index `i` on. */
  predicate At(data: bytes, i: nat, t: bytes) {
    i + |t| <= |data| && data[i..i + |t|] == t
  }

  lemma AtSplit(data: bytes, i: nat, s: bytes, t: bytes)
    requires At(data, i, s + t)
    ensures At(data, i, s) && At(data, i + |s|, t)
  {
    assert data[i..i + |s|] == data[i..i + |s + t|][..|s|] == s;
    assert data[i + |s|..i + |s| + |t|] == data[i..i + |s + t|][|s|..] == t;
  }

  lemma AtJoin(data: bytes, i: nat, s: bytes, t: bytes)
    requires At(data, i, s) && At(data, i + |s|, t)
    ensures At(data, i, s + t)
  {
  }

  lemma ScanAt(data: bytes, i: nat, token: bytes)
    requires IsToken(token) && At(data, i, token)
    ensures ScanVarint(data, i) == Token(i + |token|)
    ensures data[i..i + |token|] == token
  {
    ScanFinds(data, i, token);
  }

  // ---- skipping an unknown record ----

  datatype SkipResult = Skipped(n: nat) | SkipFailed(err: WireError)

  datatype Hop = Hop(at: int, depth: nat) | HopFailed(err: WireError)

  /** What follows a tag of the given wire type; `e` is the index after the tag. The new index is
      a Go `int` and wraps. */
  function HopOver(data: bytes, e: nat, wireType: int, depth: nat): Hop
    requires e <= |data|
  {
    match wireType
    case 0 =>
      (match ScanVarint(data, e)
       case NoToken(err) => HopFailed(err)
       case Token(end) => Hop(end, depth))
    case 1 => Hop(ToInt64(e + 8), depth)
    case 2 =>
      (match ScanVarint(data, e)
       case NoToken(err) => HopFailed(err)
       case Token(end) =>
         var length := ToInt64(Spelled(data[e..end]));
         if length < 0 then HopFailed(InvalidLength) else Hop(ToInt64(end + length), depth))
    case 3 => Hop(e, depth + 1)
    case 4 => if depth == 0 then HopFailed(UnexpectedEndOfGroup) else Hop(e, depth - 1)
    case 5 => Hop(ToInt64(e + 4), depth)
    case _ => HopFailed(IllegalWireType(wireType))
  }

  lemma HopForward(data: bytes, e: nat, wireType: int, depth: nat)
    requires e <= |data| < TWO_63
    ensures var h := HopOver(data, e, wireType, depth); h.Hop? ==> h.at < 0 || h.at >= e
  {
  }

  function SkipFrom(data: bytes, i: nat, depth: nat): SkipResult
    requires |data| < TWO_63
    decreases |data| - i
  {
    if i >= |data| then SkipFailed(UnexpectedEof)
    else
      match ScanVarint(data, i)
      case NoToken(err) => SkipFailed(err)
      case Token(e) =>
        HopForward(data, e, WireType(data[i..e]), depth);
        match HopOver(data, e, WireType(data[i..e]), depth)
        case HopFailed(err) => SkipFailed(err)
        case Hop(j, d) =>
          if j < 0 then SkipFailed(InvalidLength)
          else if d == 0 then Skipped(j)
          else SkipFrom(data, j, d)
  }

  /** The `switch wireType` of the skip loop. */
  method HopOnce(data: bytes, e: nat, wireType: int, depth: nat) returns (h: Hop)
    requires e <= |data|
    ensures h == HopOver(data, e, wireType, depth)
  {
    Pow2Literals();
    hide Pow2, Spelled, ScanVarint, ToInt64;
    match wireType {
      case 0 =>
        var v, _ := ReadVarint(data, e, 64);
        if v.NoToken? { return HopFailed(v.err); }
        return Hop(v.end, depth);
      case 1 => return Hop(ToInt64(e + 8), depth);
      case 2 =>
        var v, bits := ReadVarint(data, e, 64);
        if v.NoToken? { return HopFailed(v.err); }
        LowBitsAgree(Spelled(data[e..v.end]));
        var length := ToInt64(bits);
        if length < 0 { return HopFailed(InvalidLength); }
        return Hop(ToInt64(v.end + length), depth);
      case 3 => return Hop(e, depth + 1);
      case 4 =>
        if depth == 0 { return HopFailed(UnexpectedEndOfGroup); }
        return Hop(e, depth - 1);
      case 5 => return Hop(ToInt64(e + 4), depth);
      case _ => return HopFailed(IllegalWireType(wireType));
    }
  }

  /** `skipIndexer` and `skipWeb3`: the flat loop with a depth counter. */
  method Skip(data: bytes) returns (r: SkipResult)
    requires |data| < TWO_63
    ensures r == SkipFrom(data, 0, 0)
  {
    Pow2Literals();
    hide Pow2, Spelled, ScanVarint, HopOver;
    var i, depth: nat := 0, 0;
    while i < |data|
      invariant SkipFrom(data, 0, 0) == SkipFrom(data, i, depth)
      decreases |data| - i
    {
      var tag, wire := ReadVarint(data, i, 64);
      if tag.NoToken? { return SkipFailed(tag.err); }
      HopForward(data, tag.end, WireType(data[i..tag.end]), depth);
      var h := HopOnce(data, tag.end, wire % 8, depth);
      if h.HopFailed? { return SkipFailed(h.err); }
      if h.at < 0 { return SkipFailed(InvalidLength); }
      if h.depth == 0 { return Skipped(h.at); }
      i, depth := h.at, h.depth;
    }
    return SkipFailed(UnexpectedEof);
  }

  /** What the loop does once a record inside `depth` open groups has been stepped over. */
  function Continue(data: bytes, j: nat, depth: nat): SkipResult
    requires |data| < TWO_63
  {
    if depth == 0 then Skipped(j) else SkipFrom(data, j, depth)
  }

  lemma SkipUnfold(data: bytes, i: nat, e: nat, depth: nat)
    requires i < |data| < TWO_63 && ScanVarint(data, i) == Token(e)
    requires var h := HopOver(data, e, WireType(data[i..e]), depth); h.Hop? && h.at >= 0
    ensures var h := HopOver(data, e, WireType(data[i..e]), depth);
            SkipFrom(data, i, depth) == Continue(data, h.at, h.depth)
  {
  }

  // ---- skip accepts every record ----

  /** Over a record that is not a group the loop hops in one iteration. */
  lemma HopOverDelimited(data: bytes, e: nat, len: bytes, payload: bytes, depth: nat)
    requires |data| < TWO_63 && IsToken(len) && ToInt64(Spelled(len)) == |payload|
    requires At(data, e, len) && At(data, e + |len|, payload)
    ensures HopOver(data, e, 2, depth) == Hop(e + |len| + |payload|, depth)
  {
    hide ScanVarint, Spelled, IsToken, ToInt64;
    ScanAt(data, e, len);
    ToInt64Small(e + |len| + |payload|);
  }

  lemma HopOverPlain(data: bytes, i: nat, r: Record, depth: nat)
    requires |data| < TWO_63 && WellFormed(r) && !r.Group? && At(data, i, Print(r))
    ensures ScanVarint(data, i) == Token(i + |r.tag|) && data[i..i + |r.tag|] == r.tag
    ensures HopOver(data, i + |r.tag|, WireType(r.tag), depth) == Hop(i + |Print(r)|, depth)
  {
    hide ScanVarint, WireType, Spelled, IsToken, ToInt64;
    var e := i + |r.tag|;
    if r.Delimited? {
      AtSplit(data, i, r.tag + r.len, r.payload);
      AtSplit(data, i, r.tag, r.len);
      HopOverDelimited(data, e, r.len, r.payload, depth);
    } else {
      ToInt64Small(i + |Print(r)|);
      AtSplit(data, i, r.tag, if r.VarintRecord? then r.value else r.payload);
      if r.VarintRecord? { ScanAt(data, e, r.value); }
    }
    ScanAt(data, i, r.tag);
  }

  lemma {:induction false} SkipStepsOver(data: bytes, i: nat, r: Record, depth: nat)
    requires |data| < TWO_63 && WellFormed(r) && At(data, i, Print(r))
    ensures SkipFrom(data, i, depth) == Continue(data, i + |Print(r)|, depth)
    decreases r, 1
  {
    hide ScanVarint, WireType, Spelled, IsToken, SkipFrom;
    TokenNotEmpty(r.tag);
    if !r.Group? {
      HopOverPlain(data, i, r, depth);
      SkipUnfold(data, i, i + |r.tag|, depth);
    } else {
      var tag, body, close := r.tag, PrintAll(r.members), r.close;
      AtSplit(data, i, tag + body, close);
      AtSplit(data, i, tag, body);
      ScanAt(data, i, tag);
      SkipUnfold(data, i, i + |tag|, depth);
      SkipStepsOverAll(data, i + |tag|, r.members, depth + 1);
      var c := i + |tag| + |body|;
      ScanAt(data, c, close);
      TokenNotEmpty(close);
      SkipUnfold(data, c, c + |close|, depth + 1);
    }
  }

  lemma TokenNotEmpty(t: bytes)
    requires IsToken(t)
    ensures |t| > 0
  {
  }

  lemma {:induction false} SkipStepsOverAll(data: bytes, i: nat, rs: seq<Record>, depth: nat)
    requires |data| < TWO_63 && depth > 0
    requires forall r :: r in rs ==> WellFormed(r)
    requires At(data, i, PrintAll(rs))
    ensures SkipFrom(data, i, depth) == SkipFrom(data, i + |PrintAll(rs)|, depth)
    decreases rs, 0
  {
    hide SkipFrom, WellFormed;
    if rs != [] {
      AtSplit(data, i, Print(rs[0]), PrintAll(rs[1..]));
      SkipStepsOver(data, i, rs[0], depth);
      SkipStepsOverAll(data, i + |Print(rs[0])|, rs[1..], depth);
    }
  }

  // ---- and nothing else ----

  /** A skip that ends well read a tag and hopped. */
  lemma SkipFold(data: bytes, i: nat, depth: nat, n: nat) returns (tag: bytes, h: Hop)
    requires |data| < TWO_63 && SkipFrom(data, i, depth) == Skipped(n)
    ensures IsToken(tag) && At(data, i, tag) && ScanVarint(data, i) == Token(i + |tag|)
    ensures h == HopOver(data, i + |tag|, WireType(tag), depth) && h.Hop? && h.at >= i + |tag|
    ensures Continue(data, h.at, h.depth) == Skipped(n)
  {
    hide WireType, Spelled;
    var e := ScanVarint(data, i).end;
    tag := data[i..e];
    HopForward(data, e, WireType(tag), depth);
    h := HopOver(data, e, WireType(tag), depth);
  }

  /** A hop that stays inside the input covers a record that is not a group. */
  lemma HopReadPlain(data: bytes, i: nat, tag: bytes, depth: nat) returns (r: Record)
    requires |data| < TWO_63 && IsToken(tag) && At(data, i, tag)
    requires var h := HopOver(data, i + |tag|, WireType(tag), depth);
             h.Hop? && i + |tag| <= h.at <= |data| && WireType(tag) !in {3, 4}
    ensures WellFormed(r) && At(data, i, Print(r))
    ensures HopOver(data, i + |tag|, WireType(tag), depth) == Hop(i + |Print(r)|, depth)
  {
    hide Spelled, ScanVarint, ToInt64;
    var e, wt := i + |tag|, WireType(tag);
    if wt in {1, 5} { ToInt64Forward(e + if wt == 1 then 8 else 4); }
    if wt == 0 {
      var value := data[e..ScanVarint(data, e).end];
      r := VarintRecord(tag, value);
      AtJoin(data, i, tag, value);
    } else if wt == 1 {
      r := Fixed64(tag, data[e..e + 8]);
      AtJoin(data, i, tag, data[e..e + 8]);
    } else if wt == 2 {
      var end := ScanVarint(data, e).end;
      var len := data[e..end];
      ToInt64Forward(end + ToInt64(Spelled(len)));
      var payload := data[end..end + ToInt64(Spelled(len))];
      r := Delimited(tag, len, payload);
      AtJoin(data, i, tag, len);
      AtJoin(data, i, tag + len, payload);
    } else {
      r := Fixed32(tag, data[e..e + 4]);
      AtJoin(data, i, tag, data[e..e + 4]);
    }
  }

  lemma SkipBeyond(data: bytes, i: nat, depth: nat, n: nat)
    requires |data| < TWO_63 && n <= |data| && Continue(data, i, depth) == Skipped(n)
    ensures i <= |data|
  {
  }

  /** A record that is not a closing tag was stepped over in one piece. */
  lemma {:induction false} SkipReadRecord(data: bytes, i: nat, depth: nat, n: nat, tag: bytes) returns (r: Record)
    requires |data| < TWO_63 && n <= |data|
    requires SkipFrom(data, i, depth) == Skipped(n)
    requires IsToken(tag) && At(data, i, tag) && (depth > 0 ==> WireType(tag) != 4)
    ensures WellFormed(r) && At(data, i, Print(r)) && |Print(r)| > 0
    ensures Continue(data, i + |Print(r)|, depth) == Skipped(n)
    decreases |data| - i, 0
  {
    hide SkipFrom, ScanVarint, WireType, IsToken;
    var tag', h := SkipFold(data, i, depth, n);
    ScanAt(data, i, tag);
    assert tag' == tag;
    TokenNotEmpty(tag);
    SkipBeyond(data, h.at, h.depth, n);
    if WireType(tag) == 3 {
      var rs, close := SkipReadGroup(data, i + |tag|, depth + 1, n);
      r := Group(tag, rs, close);
      AtJoin(data, i, tag, PrintAll(rs) + close);
      assert tag + (PrintAll(rs) + close) == tag + PrintAll(rs) + close;
    } else {
      r := HopReadPlain(data, i, tag, depth);
      ScanAtPlain(data, i, r);
    }
  }

  lemma ScanAtPlain(data: bytes, i: nat, r: Record)
    requires WellFormed(r) && At(data, i, Print(r))
    ensures |Print(r)| > 0
  {
  }

  /** Inside `depth` open groups the loop read some records and the tag that closes the innermost. */
  lemma {:induction false} SkipReadGroup(data: bytes, i: nat, depth: nat, n: nat)
    returns (rs: seq<Record>, close: bytes)
    requires |data| < TWO_63 && depth > 0 && n <= |data|
    requires SkipFrom(data, i, depth) == Skipped(n)
    ensures forall r :: r in rs ==> WellFormed(r)
    ensures IsToken(close) && WireType(close) == 4
    ensures At(data, i, PrintAll(rs) + close)
    ensures Continue(data, i + |PrintAll(rs) + close|, depth - 1) == Skipped(n)
    decreases |data| - i, 1
  {
    hide SkipFrom, ScanVarint, WireType, IsToken, WellFormed;
    var tag, h := SkipFold(data, i, depth, n);
    if WireType(tag) == 4 {
      rs, close := [], tag;
      assert PrintAll([]) + tag == tag;
    } else {
      var r := SkipReadRecord(data, i, depth, n, tag);
      var more, c := SkipReadGroup(data, i + |Print(r)|, depth, n);
      rs, close := [r] + more, c;
      assert rs[1..] == more;
      AtJoin(data, i, Print(r), PrintAll(more) + c);
      assert PrintAll(rs) + close == Print(r) + (PrintAll(more) + c);
    }
  }

  /** The skip loop, started outside any group, stops inside the input exactly when a record of
      the grammar stands there, groups properly nested to any depth, and at its end. */
  lemma SkipExact(data: bytes, n: nat)
    requires |data| < TWO_63 && n <= |data|
    ensures SkipFrom(data, 0, 0) == Skipped(n) <==> exists r :: WellFormed(r) && Print(r) == data[..n]
  {
    hide SkipFrom, WellFormed, Print;
    if SkipFrom(data, 0, 0) == Skipped(n) {
      var tag, h := SkipFold(data, 0, 0, n);
      var r := SkipReadRecord(data, 0, 0, n, tag);
      assert Print(r) == data[..n];
    }
    if r :| WellFormed(r) && Print(r) == data[..n] {
      assert At(data, 0, Print(r));
      SkipStepsOver(data, 0, r, 0);
    }
  }

  /** A group of field 1 closed by the end tag of field 2 is skipped as a whole. */
  lemma MismatchedGroupSkipped()
    ensures FieldNum([11]) == 1 && FieldNum([20]) == 2 && SkipFrom([11, 20], 0, 0) == Skipped(2)
  {
    var r := Group([11], [], [20]);
    assert Spelled([11]) == 11 by { assert [11 as byte][1..] == []; }
    assert Spelled([20]) == 20 by { assert [20 as byte][1..] == []; }
    assert WellFormed(r);
    assert PrintAll([]) == [];
    assert Print(r) == [11, 20];
    SkipStepsOver([11, 20], 0, r, 0);
  }

  /** Two bytes for a zero: not what the encoder writes, and read all the same. */
  lemma LongZeroRead()
    ensures Encode(0) == [0] && ScanVarint([128, 0], 0) == Token(2) && Spelled([128, 0]) == 0
  {
    var t: bytes := [128, 0];
    assert t[1..] == [0] && t[1..][1..] == [];
    assert t[0..2] == t;
    ScanFinds(t, 0, t);
  }
}
