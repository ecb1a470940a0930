/** The field loop of a generated `Unmarshal`, for any message: which inputs it accepts and what
    it does to the message, in terms of the records the input consists of. */
module Message {
  import opened Words
  import opened Varint
  import opened Wire

  /** The fields a message knows, with the wire type each must have: 0 (varint) or 2 (bytes). */
  type Schema = s: map<int, int> | forall k :: k in s ==> s[k] in {0, 2}

  /** An assignment the loop makes to a known field. */
  datatype Event = SetVarint(num: int, value: uint64) | SetBytes(num: int, content: bytes)

  datatype Parsed = Events(events: seq<Event>) | ParseFailed(err: WireError)

  /** How an `Unmarshal` call ends. */
  datatype Status = Ok | Err(err: WireError)

  datatype FieldStep = Advance(next: nat, events: seq<Event>) | Reject(err: WireError)

  /** Everything after the tag, which ends at `e`; `i` is where the tag starts. */
  function ParseBody(schema: Schema, data: bytes, i: nat, e: nat): (s: FieldStep)
    requires i < e <= |data| < TWO_63
    ensures s.Advance? ==> i < s.next <= |data|
  {
    var num, wt := FieldNum(data[i..e]), WireType(data[i..e]);
    if wt == 4 then Reject(EndGroupForNonGroup)
    else if num <= 0 then Reject(IllegalTag(num))
    else if num in schema then
      if wt != schema[num] then Reject(WrongWireType(num, wt))
      else if wt == 0 then ParseVarintField(data, num, e)
      else ParseBytesField(data, num, e)
    else ParseUnknown(data, i)
  }

  function ParseVarintField(data: bytes, num: int, e: nat): (s: FieldStep)
    requires e <= |data|
    ensures s.Advance? ==> e < s.next <= |data|
  {
    match ScanVarint(data, e)
    case NoToken(err) => Reject(err)
    case Token(end) => Advance(end, [SetVarint(num, Value64(data[e..end]))])
  }

  function ParseBytesField(data: bytes, num: int, e: nat): (s: FieldStep)
    requires e <= |data| < TWO_63
    ensures s.Advance? ==> e < s.next <= |data|
  {
    match ScanVarint(data, e)
    case NoToken(err) => Reject(err)
    case Token(end) =>
      var length := ToInt64(Spelled(data[e..end]));
      if length < 0 then Reject(InvalidLength)
      else
        var post := ToInt64(end + length);
        ToInt64Forward(end + length);
        if post < 0 then Reject(InvalidLength)
        else if post > |data| then Reject(UnexpectedEof)
        else Advance(post, [SetBytes(num, data[end..post])])
  }

  /** An unknown field is skipped from its tag on, in the slice that starts there. */
  function ParseUnknown(data: bytes, i: nat): (s: FieldStep)
    requires i < |data| < TWO_63
    ensures s.Advance? ==> i < s.next <= |data|
  {
    match SkipFrom(data[i..], 0, 0)
    case SkipFailed(err) => Reject(err)
    case Skipped(n) =>
      var post := ToInt64(i + n);
      if post < 0 then Reject(InvalidLength)
      else if post > |data| then Reject(UnexpectedEof)
      else
        SkipAdvances(data[i..], 0, n);
        ToInt64Skip(data, i, n);
        Advance(post, [])
  }

  lemma SkipAdvances(data: bytes, i: nat, n: nat)
    requires |data| < TWO_63 && SkipFrom(data, i, 0) == Skipped(n)
    ensures n > i
  {
    var tag, h := SkipFold(data, i, 0, n);
    TokenNotEmpty(tag);
    if h.depth > 0 { SkipGrows(data, h.at, h.depth, n); }
  }

  lemma {:induction false} SkipGrows(data: bytes, i: nat, depth: nat, n: nat)
    requires |data| < TWO_63 && SkipFrom(data, i, depth) == Skipped(n)
    ensures n > i && n < TWO_63
    decreases |data| - i
  {
    hide WireType, ScanVarint, SkipFrom;
    var tag, h := SkipFold(data, i, depth, n);
    TokenNotEmpty(tag);
    if h.depth > 0 { SkipGrows(data, h.at, h.depth, n); }
  }

  lemma ToInt64Skip(data: bytes, i: nat, n: nat)
    requires i < |data| < TWO_63 && SkipFrom(data[i..], 0, 0) == Skipped(n)
    requires ToInt64(i + n) >= 0
    ensures ToInt64(i + n) == i + n
  {
    SkipGrows(data[i..], 0, 0, n);
    ToInt64Forward(i + n);
  }

  function ParseField(schema: Schema, data: bytes, i: nat): (s: FieldStep)
    requires i < |data| < TWO_63
    ensures s.Advance? ==> i < s.next <= |data|
  {
    match ScanVarint(data, i)
    case NoToken(err) => Reject(err)
    case Token(e) => ParseBody(schema, data, i, e)
  }

  function ParseFrom(schema: Schema, data: bytes, i: nat): Parsed
    requires |data| < TWO_63
    decreases |data| - i
  {
    if i >= |data| then Events([])
    else
      match ParseField(schema, data, i)
      case Reject(err) => ParseFailed(err)
      case Advance(j, es) => Prepend(es, ParseFrom(schema, data, j))
  }

  function Prepend(es: seq<Event>, p: Parsed): Parsed {
    if p.Events? then Events(es + p.events) else p
  }

  lemma PrependConcat(a: seq<Event>, b: seq<Event>, p: Parsed)
    ensures Prepend(a, Prepend(b, p)) == Prepend(a + b, p)
  {
  }

  function Parse(schema: Schema, data: bytes): Parsed
    requires |data| < TWO_63
  {
    ParseFrom(schema, data, 0)
  }

  // ---- which error ----

  /** A field is refused for its tag exactly when the tag closes a group, has no positive number, or is a
      known field of another wire type, in this order. */
  lemma TagErrors(schema: Schema, data: bytes, i: nat, e: nat)
    requires i < |data| < TWO_63 && ScanVarint(data, i) == Token(e)
    ensures var wire := Value64(data[i..e]);
            var num, wt, r := ToInt32(wire / 8), wire % 8, ParseField(schema, data, i);
            && (wt == 4 ==> r == Reject(EndGroupForNonGroup))
            && (wt != 4 && num <= 0 ==> r == Reject(IllegalTag(num)))
            && (wt != 4 && num > 0 && num in schema && schema[num] != wt ==> r == Reject(WrongWireType(num, wt)))
  {
    hide ScanVarint, ParseVarintField, ParseBytesField, ParseUnknown, Value64;
  }

  /** A length of 2^63 or more, or one that carries the position that far, is invalid; one that only
      passes the end of the input is an unexpected end. */
  lemma LengthErrors(data: bytes, num: int, e: nat, end: nat)
    requires e <= |data| < TWO_63 && ScanVarint(data, e) == Token(end)
    ensures var n, r := Value64(data[e..end]), ParseBytesField(data, num, e);
            && (r == Reject(InvalidLength) <==> end + n >= TWO_63)
            && (r == Reject(UnexpectedEof) <==> |data| < end + n < TWO_63)
            && (r.Advance? <==> end + n <= |data|)
  {
    hide ScanVarint, Spelled;
    LowBitsAgree(Spelled(data[e..end]));
  }

  // ---- what a failed decode has assigned ----

  /** A rejected field has assigned something when its number was being read in place, into one of the
      fields `inPlace`: what was read of it. */
  function Interrupted(schema: Schema, inPlace: set<int>, data: bytes, i: nat): seq<Event>
    requires i <= |data|
  {
    match ScanVarint(data, i)
    case NoToken(_) => []
    case Token(e) =>
      var num := FieldNum(data[i..e]);
      if num in inPlace && num in schema && num > 0 && schema[num] == 0 == WireType(data[i..e])
         && ScanVarint(data, e).NoToken?
      then [SetVarint(num, Value64(data[e..ScanEnd(data, e)]))]
      else []
  }

  /** The assignments of a decode, up to the end or up to the error. */
  function Assigned(schema: Schema, inPlace: set<int>, data: bytes, i: nat): seq<Event>
    requires |data| < TWO_63
    decreases |data| - i
  {
    if i >= |data| then []
    else
      match ParseField(schema, data, i)
      case Reject(_) => Interrupted(schema, inPlace, data, i)
      case Advance(j, es) => es + Assigned(schema, inPlace, data, j)
  }

  /** A decode that succeeds has made the assignments of its records. */
  lemma {:induction false} AssignedOnSuccess(schema: Schema, inPlace: set<int>, data: bytes, i: nat)
    requires |data| < TWO_63 && ParseFrom(schema, data, i).Events?
    ensures Assigned(schema, inPlace, data, i) == ParseFrom(schema, data, i).events
    decreases |data| - i
  {
    hide ParseField, Interrupted;
    if i < |data| { AssignedOnSuccess(schema, inPlace, data, ParseField(schema, data, i).next); }
  }

  // ---- the records a message accepts, and what they mean ----

  predicate Acceptable(schema: Schema, r: Record) {
    var num := FieldNum(r.tag);
    WellFormed(r) && num > 0 && (num in schema ==> WireType(r.tag) == schema[num])
  }

  predicate AllAcceptable(schema: Schema, rs: seq<Record>) {
    forall r :: r in rs ==> Acceptable(schema, r)
  }

  function RecordEvents(schema: Schema, r: Record): seq<Event> {
    var num := FieldNum(r.tag);
    if num !in schema then []
    else if r.VarintRecord? then [SetVarint(num, Value64(r.value))]
    else if r.Delimited? then [SetBytes(num, r.payload)]
    else []
  }

  function AllEvents(schema: Schema, rs: seq<Record>): seq<Event> {
    if rs == [] then [] else RecordEvents(schema, rs[0]) + AllEvents(schema, rs[1..])
  }

  lemma {:induction false} AllEventsConcat(schema: Schema, a: seq<Record>, b: seq<Record>)
    ensures AllEvents(schema, a + b) == AllEvents(schema, a) + AllEvents(schema, b)
  {
    if a == [] {
      assert a + b == b;
    } else {
      assert (a + b)[1..] == a[1..] + b;
      AllEventsConcat(schema, a[1..], b);
    }
  }

  // ---- every acceptable input is parsed to its meaning ----

  lemma ParseVarintReads(data: bytes, num: int, e: nat, value: bytes)
    requires IsToken(value) && At(data, e, value)
    ensures ParseVarintField(data, num, e) == Advance(e + |value|, [SetVarint(num, Value64(value))])
  {
    hide ScanVarint, Value64, IsToken;
    ScanAt(data, e, value);
  }

  lemma ParseBytesReads(data: bytes, num: int, e: nat, len: bytes, payload: bytes)
    requires |data| < TWO_63 && IsToken(len) && ToInt64(Spelled(len)) == |payload|
    requires At(data, e, len) && At(data, e + |len|, payload)
    ensures ParseBytesField(data, num, e) == Advance(e + |len| + |payload|, [SetBytes(num, payload)])
  {
    hide ScanVarint, Spelled, IsToken, ToInt64;
    ScanAt(data, e, len);
    ToInt64Small(e + |len| + |payload|);
  }

  lemma ParseUnknownReads(data: bytes, i: nat, r: Record)
    requires i < |data| < TWO_63 && WellFormed(r) && At(data, i, Print(r))
    ensures ParseUnknown(data, i) == Advance(i + |Print(r)|, [])
  {
    hide SkipFrom, ToInt64, WellFormed, Print;
    var slice := data[i..];
    assert At(slice, 0, Print(r)) by { assert slice[..|Print(r)|] == data[i..i + |Print(r)|]; }
    SkipStepsOver(slice, 0, r, 0);
    ToInt64Small(i + |Print(r)|);
  }

  lemma ParseFieldReads(schema: Schema, data: bytes, i: nat, r: Record)
    requires |data| < TWO_63 && Acceptable(schema, r) && At(data, i, Print(r))
    ensures i < |data|
    ensures ParseField(schema, data, i) == Advance(i + |Print(r)|, RecordEvents(schema, r))
  {
    hide ScanVarint, Spelled, IsToken, ToInt64, Value64, FieldNum, ParseVarintField, ParseBytesField, ParseUnknown;
    var e := i + |r.tag|;
    TagOf(data, i, r);
    if FieldNum(r.tag) !in schema {
      ParseUnknownReads(data, i, r);
    } else if r.VarintRecord? {
      AtSplit(data, i, r.tag, r.value);
      ParseVarintReads(data, FieldNum(r.tag), e, r.value);
    } else {
      AtSplit(data, i, r.tag + r.len, r.payload);
      AtSplit(data, i, r.tag, r.len);
      ParseBytesReads(data, FieldNum(r.tag), e, r.len, r.payload);
    }
  }

  lemma TagOf(data: bytes, i: nat, r: Record)
    requires WellFormed(r) && At(data, i, Print(r))
    ensures |r.tag| > 0 && i + |r.tag| <= |data|
    ensures ScanVarint(data, i) == Token(i + |r.tag|) && data[i..i + |r.tag|] == r.tag
    ensures WireType(r.tag) != 4
  {
    hide ScanVarint, Spelled;
    assert Print(r)[..|r.tag|] == r.tag;
    AtSplit(data, i, r.tag, Print(r)[|r.tag|..]) by { assert Print(r) == r.tag + Print(r)[|r.tag|..]; }
    ScanAt(data, i, r.tag);
  }

  lemma ParseFromUnfolds(schema: Schema, data: bytes, i: nat, next: nat, es: seq<Event>)
    requires i < |data| < TWO_63 && ParseField(schema, data, i) == Advance(next, es)
    ensures ParseFrom(schema, data, i) == Prepend(es, ParseFrom(schema, data, next))
  {
  }

  lemma PrependNothing(p: Parsed)
    ensures Prepend([], p) == p
  {
  }

  lemma {:induction false} ParseReads(schema: Schema, data: bytes, i: nat, rs: seq<Record>)
    requires |data| < TWO_63 && AllAcceptable(schema, rs) && At(data, i, PrintAll(rs))
    ensures ParseFrom(schema, data, i)
         == Prepend(AllEvents(schema, rs), ParseFrom(schema, data, i + |PrintAll(rs)|))
    decreases |rs|
  {
    hide ParseField, ParseFrom, Prepend, Acceptable, RecordEvents, Print;
    var rest := ParseFrom(schema, data, i + |PrintAll(rs)|);
    if rs == [] {
      PrependNothing(rest);
    } else {
      var r := rs[0];
      AtSplit(data, i, Print(r), PrintAll(rs[1..]));
      ParseFieldReads(schema, data, i, r);
      ParseFromUnfolds(schema, data, i, i + |Print(r)|, RecordEvents(schema, r));
      ParseReads(schema, data, i + |Print(r)|, rs[1..]);
      PrependConcat(RecordEvents(schema, r), AllEvents(schema, rs[1..]), rest);
    }
  }

  // ---- and nothing else parses ----

  lemma ParseVarintRead(data: bytes, num: int, e: nat) returns (value: bytes)
    requires e <= |data| && ParseVarintField(data, num, e).Advance?
    ensures IsToken(value) && At(data, e, value)
    ensures ParseVarintField(data, num, e) == Advance(e + |value|, [SetVarint(num, Value64(value))])
  {
    hide ScanVarint, Value64;
    value := data[e..ScanVarint(data, e).end];
  }

  lemma ParseBytesRead(data: bytes, num: int, e: nat) returns (len: bytes, payload: bytes)
    requires e <= |data| < TWO_63 && ParseBytesField(data, num, e).Advance?
    ensures IsToken(len) && ToInt64(Spelled(len)) == |payload|
    ensures At(data, e, len) && At(data, e + |len|, payload)
    ensures ParseBytesField(data, num, e) == Advance(e + |len| + |payload|, [SetBytes(num, payload)])
  {
    hide ScanVarint, Spelled, ToInt64;
    var end := ScanVarint(data, e).end;
    len := data[e..end];
    ToInt64Forward(end + ToInt64(Spelled(len)));
    payload := data[end..end + ToInt64(Spelled(len))];
  }

  lemma ParseFieldRead(schema: Schema, data: bytes, i: nat) returns (r: Record)
    requires i < |data| < TWO_63 && ParseField(schema, data, i).Advance?
    ensures Acceptable(schema, r) && At(data, i, Print(r))
    ensures ParseField(schema, data, i) == Advance(i + |Print(r)|, RecordEvents(schema, r))
  {
    hide ScanVarint, Spelled, ToInt64, Value64, FieldNum, ParseVarintField, ParseBytesField, ParseUnknown;
    var e := ScanVarint(data, i).end;
    var tag := data[i..e];
    if FieldNum(tag) !in schema {
      r := ParseUnknownRead(data, i, e);
    } else if WireType(tag) == 0 {
      var value := ParseVarintRead(data, FieldNum(tag), e);
      r := VarintRecord(tag, value);
      AtJoin(data, i, tag, value);
    } else {
      var len, payload := ParseBytesRead(data, FieldNum(tag), e);
      r := Delimited(tag, len, payload);
      AtJoin(data, i, tag, len);
      AtJoin(data, i, tag + len, payload);
    }
  }

  lemma ParseUnknownRead(data: bytes, i: nat, e: nat) returns (r: Record)
    requires i < |data| < TWO_63 && ScanVarint(data, i) == Token(e) && ParseUnknown(data, i).Advance?
    ensures WellFormed(r) && At(data, i, Print(r)) && r.tag == data[i..e]
    ensures ParseUnknown(data, i) == Advance(i + |Print(r)|, [])
  {
    hide ScanVarint, Spelled, SkipFrom, WireType;
    var slice, tag := data[i..], data[i..e];
    var n := SkipFrom(slice, 0, 0).n;
    ToInt64Skip(data, i, n);
    ScanSlice(data, i, e);
    r := SkipReadRecord(slice, 0, 0, n, tag);
    assert At(data, i, Print(r)) by { assert data[i..i + |Print(r)|] == slice[..|Print(r)|]; }
    TagOf(data, i, r);
  }

  lemma ScanSlice(data: bytes, i: nat, e: nat)
    requires i <= |data| && ScanVarint(data, i) == Token(e)
    ensures At(data[i..], 0, data[i..e])
  {
  }

  lemma {:induction false} ParseRead(schema: Schema, data: bytes, i: nat) returns (rs: seq<Record>)
    requires i <= |data| < TWO_63 && ParseFrom(schema, data, i).Events?
    ensures AllAcceptable(schema, rs) && PrintAll(rs) == data[i..]
    ensures ParseFrom(schema, data, i) == Events(AllEvents(schema, rs))
    decreases |data| - i
  {
    hide ParseField, Acceptable, RecordEvents;
    if i == |data| {
      rs := [];
    } else {
      var r := ParseFieldRead(schema, data, i);
      var j := i + |Print(r)|;
      var more := ParseRead(schema, data, j);
      rs := [r] + more;
      assert rs[1..] == more;
      assert data[i..] == data[i..j] + data[j..];
    }
  }

  /** An input parses exactly when it is a sequence of acceptable records, all of it, and then the
      assignments made are those of the records, in order. */
  lemma ParseExact(schema: Schema, data: bytes, events: seq<Event>)
    requires |data| < TWO_63
    ensures Parse(schema, data) == Events(events)
       <==> exists rs :: AllAcceptable(schema, rs) && PrintAll(rs) == data && AllEvents(schema, rs) == events
  {
    hide ParseField, ParseFrom, Acceptable;
    if Parse(schema, data) == Events(events) {
      var rs := ParseRead(schema, data, 0);
      assert data[0..] == data;
    }
    if rs :| AllAcceptable(schema, rs) && PrintAll(rs) == data && AllEvents(schema, rs) == events {
      ParseRecords(schema, rs);
    }
  }

  lemma ParseRecords(schema: Schema, rs: seq<Record>)
    requires AllAcceptable(schema, rs) && |PrintAll(rs)| < TWO_63
    ensures Parse(schema, PrintAll(rs)) == Events(AllEvents(schema, rs))
  {
    hide ParseField, Acceptable;
    var data := PrintAll(rs);
    assert data[0..|data|] == data;
    ParseReads(schema, data, 0, rs);
    assert ParseFrom(schema, data, |data|) == Events([]);
    assert AllEvents(schema, rs) + [] == AllEvents(schema, rs);
  }

  /** Parsing a concatenation is parsing one part after the other (the merge rule of the
      Protocol Buffers encoding guide). */
  lemma ParseConcat(schema: Schema, a: bytes, b: bytes)
    requires |a + b| < TWO_63
    requires Parse(schema, a).Events? && Parse(schema, b).Events?
    ensures Parse(schema, a + b) == Events(Parse(schema, a).events + Parse(schema, b).events)
  {
    hide ParseField, ParseFrom, Acceptable;
    var ra := ParseRead(schema, a, 0);
    var rb := ParseRead(schema, b, 0);
    assert a[0..] == a && b[0..] == b;
    PrintAllConcat(ra, rb);
    AllEventsConcat(schema, ra, rb);
    ParseRecords(schema, ra + rb);
  }

  predicate AllUnknown(schema: Schema, rs: seq<Record>) {
    forall r :: r in rs ==> FieldNum(r.tag) !in schema
  }

  lemma {:induction false} UnknownMeansNothing(schema: Schema, rs: seq<Record>)
    requires AllUnknown(schema, rs)
    ensures AllEvents(schema, rs) == []
  {
    if rs != [] { UnknownMeansNothing(schema, rs[1..]); }
  }

  /** Inserting unknown records, nested groups included, between two fields changes nothing:
      neither acceptance nor the result. */
  lemma UnknownInsertion(schema: Schema, a: bytes, unknown: seq<Record>, b: bytes)
    requires |a + PrintAll(unknown) + b| < TWO_63
    requires AllAcceptable(schema, unknown) && AllUnknown(schema, unknown)
    requires Parse(schema, a).Events?
    ensures |a + b| < TWO_63
    ensures Parse(schema, a + b).Events? ==> Parse(schema, a + PrintAll(unknown) + b) == Parse(schema, a + b)
    ensures Parse(schema, a + PrintAll(unknown) + b).Events? ==> Parse(schema, a + b).Events?
  {
    hide Parse, PrintAll, AllEvents, AllAcceptable, AllUnknown;
    var u, events := PrintAll(unknown), Parse(schema, a).events;
    ParseRecords(schema, unknown);
    UnknownMeansNothing(schema, unknown);
    ParseConcat(schema, a, u);
    assert events + [] == events;
    if Parse(schema, a + b).Events? {
      ParseCancel(schema, a, b);
      ParseConcat(schema, a, b);
      ParseConcat(schema, a + u, b);
    }
    if Parse(schema, a + u + b).Events? {
      ParseCancel(schema, a + u, b);
      ParseConcat(schema, a, b);
    }
  }

  lemma ParseCancel(schema: Schema, a: bytes, b: bytes)
    requires |a + b| < TWO_63 && Parse(schema, a).Events? && Parse(schema, a + b).Events?
    ensures Parse(schema, b).Events?
  {
    hide ParseField, ParseFrom, Acceptable;
    var ra := ParseRead(schema, a, 0);
    assert a[0..] == a && (a + b)[0..0 + |a|] == a;
    ParseReads(schema, a + b, 0, ra);
    var rb := ParseRead(schema, a + b, |a|);
    assert (a + b)[|a|..] == b;
    ParseRecords(schema, rb);
  }

  // ---- printing known fields ----

  /** A one-byte tag. */
  lemma TagByte(num: int, wt: int)
    requires 1 <= num <= 15 && 0 <= wt <= 7
    ensures var t: bytes := [8 * num + wt]; IsToken(t) && FieldNum(t) == num && WireType(t) == wt
  {
    hide IsToken, Spelled;
    OneByteToken(8 * num + wt);
    DivModUnique(8 * num + wt, 8, num, wt);
  }

  lemma OneByteToken(b: byte)
    requires b < 128
    ensures IsToken([b]) && Spelled([b]) == b
  {
  }

  function VarintRecords(tag: byte, v: uint64): seq<Record> {
    if v == 0 then [] else [VarintRecord([tag], Encode(v))]
  }

  /** A proto3 varint field as it is printed: absent when zero, a tag byte and a varint otherwise. */
  function VarintField(tag: byte, v: uint64): bytes {
    if v == 0 then [] else [tag] + Encode(v)
  }

  function VarintEvents(num: int, v: uint64): seq<Event> {
    if v == 0 then [] else [SetVarint(num, v)]
  }

  function BytesRecords(tag: byte, content: bytes): seq<Record>
    requires |content| < TWO_63
  {
    if content == [] then [] else [Delimited([tag], Encode(|content|), content)]
  }

  /** A proto3 bytes or string field as it is printed: absent when empty. */
  function BytesField(tag: byte, content: bytes): bytes
    requires |content| < TWO_63
  {
    if content == [] then [] else [tag] + (Encode(|content|) + content)
  }

  function BytesEvents(num: int, content: bytes): seq<Event> {
    if content == [] then [] else [SetBytes(num, content)]
  }

  /** Records that print as `printed`, are accepted, and mean `events`. */
  predicate Means(schema: Schema, rs: seq<Record>, printed: bytes, events: seq<Event>) {
    PrintAll(rs) == printed && AllAcceptable(schema, rs) && AllEvents(schema, rs) == events
  }

  lemma SingleMeans(schema: Schema, r: Record)
    requires Acceptable(schema, r)
    ensures Means(schema, [r], Print(r), RecordEvents(schema, r))
  {
  }

  lemma VarintAcceptable(schema: Schema, num: int, v: uint64)
    requires 1 <= num <= 15 && num in schema && schema[num] == 0
    ensures var r := VarintRecord([8 * num], Encode(v));
            Acceptable(schema, r) && RecordEvents(schema, r) == [SetVarint(num, v)]
  {
    hide IsToken, Encode, Spelled, FieldNum, WireType;
    TagByte(num, 0);
    EncodeIsToken(v);
  }

  lemma VarintMeans(schema: Schema, num: int, v: uint64)
    requires 1 <= num <= 15 && num in schema && schema[num] == 0
    ensures Means(schema, VarintRecords(8 * num, v), VarintField(8 * num, v), VarintEvents(num, v))
  {
    hide Encode, Acceptable, RecordEvents;
    if v != 0 {
      VarintAcceptable(schema, num, v);
      SingleMeans(schema, VarintRecord([8 * num], Encode(v)));
    }
  }

  /** A tag byte and a varint are read as one assignment of that field. */
  lemma VarintFieldReads(schema: Schema, num: int, v: uint64)
    requires 1 <= num <= 15 && num in schema && schema[num] == 0
    ensures |[8 * num as byte] + Encode(v)| < TWO_63
    ensures Parse(schema, [8 * num] + Encode(v)) == Events([SetVarint(num, v)])
  {
    hide Encode, Acceptable, RecordEvents, Parse;
    EncodeIsToken(v);
    VarintAcceptable(schema, num, v);
    var r := VarintRecord([8 * num], Encode(v));
    SingleMeans(schema, r);
    ParseRecords(schema, [r]);
  }

  /** A tag byte, a length and that many bytes are read as one assignment of that field. */
  lemma BytesFieldReads(schema: Schema, num: int, content: bytes)
    requires 1 <= num <= 15 && num in schema && schema[num] == 2
    requires |content| < TWO_63 && |[8 * num as byte + 2] + Encode(|content|) + content| < TWO_63
    ensures Parse(schema, [8 * num + 2] + Encode(|content|) + content) == Events([SetBytes(num, content)])
  {
    hide Encode, Acceptable, RecordEvents, Parse;
    BytesAcceptable(schema, num, content);
    var r := Delimited([8 * num + 2], Encode(|content|), content);
    SingleMeans(schema, r);
    ParseRecords(schema, [r]);
  }

  /** A number cut short after its first byte, here 5 to be continued, is left in a field that is read in
      place and nowhere else. */
  lemma CutShort(schema: Schema, inPlace: set<int>, num: int)
    requires 1 <= num <= 15 && num in schema && schema[num] == 0
    ensures Assigned(schema, inPlace, [8 * num, 0x85], 0) == if num in inPlace then [SetVarint(num, 5)] else []
  {
    hide ScanVarint, Spelled, FieldNum, WireType, IsToken;
    var data: bytes := [8 * num, 0x85];
    assert data[0..1] == [8 * num] && data[1..2] == [0x85];
    TagByte(num, 0);
    ScanFinds(data, 0, [8 * num]);
    NoSecondByte(data);
    assert Spelled([0x85]) == 5 by { LastGroup(); }
  }

  lemma NoSecondByte(data: bytes)
    requires |data| == 2 && data[1] >= 128
    ensures ScanVarint(data, 1) == NoToken(UnexpectedEof)
  {
    ScanFailures(data, 1, 0);
  }

  lemma LastGroup()
    ensures Spelled([0x85]) == 5
  {
    assert [0x85 as byte][1..] == [];
  }

  lemma BytesAcceptable(schema: Schema, num: int, content: bytes)
    requires 1 <= num <= 15 && num in schema && schema[num] == 2 && |content| < TWO_63
    ensures var r := Delimited([8 * num + 2], Encode(|content|), content);
            Acceptable(schema, r) && RecordEvents(schema, r) == [SetBytes(num, content)]
  {
    hide IsToken, Encode, Spelled, FieldNum, WireType;
    TagByte(num, 2);
    EncodeIsToken(|content|);
    ToInt64Small(|content|);
  }

  lemma BytesMeans(schema: Schema, num: int, content: bytes)
    requires 1 <= num <= 15 && num in schema && schema[num] == 2 && |content| < TWO_63
    ensures var tag := 8 * num + 2;
            Means(schema, BytesRecords(tag, content), BytesField(tag, content), BytesEvents(num, content))
  {
    hide Encode, Acceptable, RecordEvents;
    if content != [] {
      BytesAcceptable(schema, num, content);
      SingleMeans(schema, Delimited([8 * num + 2], Encode(|content|), content));
      assert [8 * num + 2] + Encode(|content|) + content == BytesField(8 * num + 2, content);
    }
  }

  lemma MeansConcat(schema: Schema, a: seq<Record>, pa: bytes, ea: seq<Event>, b: seq<Record>, pb: bytes,
                    eb: seq<Event>)
    requires Means(schema, a, pa, ea) && Means(schema, b, pb, eb)
    ensures Means(schema, a + b, pa + pb, ea + eb)
  {
    hide Acceptable;
    PrintAllConcat(a, b);
    AllEventsConcat(schema, a, b);
  }

  /** Prints a varint field so that it ends at `i`; returns where it starts. */
  method PutVarintField(dAtA: array<byte>, i: nat, tag: byte, v: uint64) returns (j: nat)
    requires |VarintField(tag, v)| <= i <= dAtA.Length
    modifies dAtA
    ensures j + |VarintField(tag, v)| == i
    ensures dAtA[j..i] == VarintField(tag, v)
    ensures forall k :: 0 <= k < j || i <= k < dAtA.Length ==> dAtA[k] == old(dAtA[k])
  {
    j := i;
    if v != 0 {
      SovIsLength(v);
      hide Sov, Encode;
      var k := EncodeVarint(dAtA, i, v);
      ghost var token := dAtA[k..i];
      j := k - 1;
      dAtA[j] := tag;
      assert dAtA[k..i] == token;
      assert dAtA[j..i] == [dAtA[j]] + dAtA[k..i];
    }
  }

  lemma SliceSplits(a: array<byte>, j: nat, i: nat)
    requires j <= i <= a.Length
    ensures a[j..] == a[j..i] + a[i..]
  {
  }

  /** Go's `copy` into the buffer. */
  method CopyInto(dAtA: array<byte>, at: nat, content: bytes)
    requires at + |content| <= dAtA.Length
    modifies dAtA
    ensures dAtA[at..at + |content|] == content
    ensures forall k :: 0 <= k < at || at + |content| <= k < dAtA.Length ==> dAtA[k] == old(dAtA[k])
  {
    forall k | 0 <= k < |content| { dAtA[at + k] := content[k]; }
  }

  /** Prints a length and the bytes so that they end at `i`; returns where they start. */
  method PutPayload(dAtA: array<byte>, i: nat, content: bytes) returns (t: nat)
    requires |content| < TWO_63 && |Encode(|content|)| + |content| <= i <= dAtA.Length
    modifies dAtA
    ensures t + |Encode(|content|)| + |content| == i
    ensures dAtA[t..i] == Encode(|content|) + content
    ensures forall k :: 0 <= k < t || i <= k < dAtA.Length ==> dAtA[k] == old(dAtA[k])
  {
    hide Sov, Encode;
    SovIsLength(|content|);
    var c := i - |content|;
    CopyInto(dAtA, c, content);
    t := EncodeVarint(dAtA, c, |content|);
    assert dAtA[c..i] == content;
    assert dAtA[t..i] == dAtA[t..c] + dAtA[c..i];
  }

  /** Prints a bytes or string field so that it ends at `i`; returns where it starts. */
  method PutBytesField(dAtA: array<byte>, i: nat, tag: byte, content: bytes) returns (j: nat)
    requires |content| < TWO_63 && |BytesField(tag, content)| <= i <= dAtA.Length
    modifies dAtA
    ensures j + |BytesField(tag, content)| == i
    ensures dAtA[j..i] == BytesField(tag, content)
    ensures forall k :: 0 <= k < j || i <= k < dAtA.Length ==> dAtA[k] == old(dAtA[k])
  {
    hide Encode;
    j := i;
    if content != [] {
      var t := PutPayload(dAtA, i, content);
      ghost var rest := dAtA[t..i];
      j := t - 1;
      dAtA[j] := tag;
      assert dAtA[j..i] == [tag] + rest;
    }
  }
}
