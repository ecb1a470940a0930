/** The EIP-712 types of a whole transaction (`createEIP712Types` in `ethereum/eip712/types.go`): the
    fixed entries, one generated entry per kind of object, and a field of `Tx` per message. */
module Eip712Create {
  import opened Wrappers
  import opened Json
  import opened Eip712Types
  import opened Eip712Names
  import opened Eip712Schema
  import opened Eip712Order
  import opened Eip712Message
  import opened Eip712Fields

  const DOMAIN := "EIP712Domain"
  const TX := "Tx"
  const FEE := "Fee"
  const COIN := "Coin"
  const MSG_TYPE := "type"

  const BASE_TX: seq<Field> := [
    Field("account_number", "string"), Field("chain_id", "string"), Field("fee", FEE),
    Field("memo", "string"), Field("sequence", "string")]

  const BASE: TypeMap := map[
    DOMAIN := [Field("name", "string"), Field("version", "string"), Field("chainId", "uint256"),
               Field("verifyingContract", "string"), Field("salt", "string")],
    TX := BASE_TX,
    FEE := [Field("amount", "Coin[]"), Field("gas", "string")],
    COIN := [Field("denom", "string"), Field("amount", "string")]]

  // ---- the steps ----

  /** `msgRootType`: `cosmos-sdk/MsgSend` becomes `TypeMsgSend`; no type string, no root type. */
  function RootType(ms: seq<Member>): Option<string> {
    if Has(ms, MSG_TYPE) && Get(ms, MSG_TYPE).Str? && Get(ms, MSG_TYPE).s != "" then
      var parts := Split(Get(ms, MSG_TYPE).s, '/');
      Some(TYPE_PREFIX + parts[|parts| - 1])
    else None
  }

  datatype Step = Step(tm: TypeMap, ok: bool)

  /** `addMsgTypesToRoot`. */
  function AddMsg(tm: TypeMap, field: string, msg: Json): Step {
    if !msg.Obj? then Step(tm, false)
    else
      var root := RootType(msg.members);
      if root.None? then Step(tm, false)
      else
        var r := AddObject(tm, root.value, ROOT_PREFIX, msg.members);
        if r.key.None? then Step(r.tm, false)
        else Step(WithTxField(r.tm, Field(field, r.key.value)), true)
  }

  /** `addMsgTypeDefToTxSchema`. */
  function WithTxField(tm: TypeMap, f: Field): TypeMap {
    tm[TX := (if TX in tm then tm[TX] else []) + [f]]
  }

  /** What `payload.Get` finds, with null for nothing: neither is an object. */
  function Lookup(ms: seq<Member>, key: string): Json {
    if Has(ms, key) then Get(ms, key) else Null
  }

  /** The messages `msg0` to `msg{n-1}`, one after another; an error stops. */
  function AddMsgs(tm: TypeMap, ms: seq<Member>, n: nat): Step {
    if n == 0 then Step(tm, true)
    else
      var r := AddMsgs(tm, ms, n - 1);
      if !r.ok then r else AddMsg(r.tm, MsgField(n - 1), Lookup(ms, MsgField(n - 1)))
  }

  function Create(ms: seq<Member>, n: nat): Option<TypeMap> {
    var r := AddMsgs(BASE, ms, n);
    if r.ok then Some(r.tm) else None
  }

  // ---- what the result says ----

  predicate KeepsBase(tm: TypeMap) {
    DOMAIN in tm && FEE in tm && COIN in tm && TX in tm
    && tm[DOMAIN] == BASE[DOMAIN] && tm[FEE] == BASE[FEE] && tm[COIN] == BASE[COIN]
  }

  /** Besides the fixed names there are only generated ones. */
  predicate OnlyGenerated(tm: TypeMap) {
    forall k :: k in tm && k !in BASE ==> TypeKey(k)
  }

  /** Field `i` of message `i` is named after it and its type spells the message's schema. */
  predicate Describes(tm: TypeMap, f: Field, i: nat, msg: Json) {
    f.name == MsgField(i) && msg.Obj? && Spells(tm, f.typ, ObjectSchema(msg.members))
  }

  /** `Tx` is the fixed fields followed by one field per message. */
  predicate TxDescribes(tm: TypeMap, ms: seq<Member>, n: nat)
    requires TX in tm
  {
    && |tm[TX]| == |BASE_TX| + n
    && tm[TX][..|BASE_TX|] == BASE_TX
    && forall i: nat :: i < n ==> Describes(tm, tm[TX][|BASE_TX| + i], i, Lookup(ms, MsgField(i)))
  }

  lemma NotGenerated(k: string)
    requires k in {DOMAIN, TX, FEE, COIN}
    ensures !TypeKey(k) && !EndsInDigit(k)
  {
  }

  lemma BaseClosed()
    ensures Closed(BASE)
  {
    forall k | k in BASE ensures AllKnown(BASE, BASE[k]) {
      forall i | 0 <= i < |BASE[k]| ensures Known(BASE, BASE[k][i].typ) {
        var typ := BASE[k][i].typ;
        assert typ in {"string", "uint256", FEE, "Coin[]"};
        assert "string"[4..] == "ng" && "uint256"[5..] == "56" && FEE[1..] == "ee";
        assert "Coin[]"[4..] == "[]" && "Coin[]"[..4] == COIN;
      }
    }
  }

  /** The root type is `Type` and what follows the last slash of a non-empty type string; any other
      value of `type` has none. */
  lemma RootTypeExactly(ms: seq<Member>, a: string, b: string)
    ensures Has(ms, "type") && Get(ms, "type") == Str(a + "/" + b) && '/' !in b ==> RootType(ms) == Some("Type" + b)
    ensures Has(ms, "type") && Get(ms, "type") == Str(b) && '/' !in b && b != "" ==> RootType(ms) == Some("Type" + b)
    ensures RootType(ms).None? <==> !Has(ms, "type") || !Get(ms, "type").Str? || Get(ms, "type").s == ""
  {
    hide IndexOf;
    if '/' !in b {
      SplitNone(b, '/');
      SplitConcat(a, b, '/');
    }
  }

  lemma RootTypeStarts(ms: seq<Member>)
    requires RootType(ms).Some?
    ensures StartsWithType(RootType(ms).value)
  {
  }

  /** Growing by generated entries leaves the fixed ones and what `Tx` says. */
  lemma GrowsKeeps(a: TypeMap, b: TypeMap)
    requires Grows(a, b) && KeepsBase(a) && OnlyGenerated(a)
    ensures KeepsBase(b) && OnlyGenerated(b) && b[TX] == a[TX] && Extends(a, b)
  {
  }

  lemma TxAppended(a: TypeMap, f: Field)
    requires KeepsBase(a) && OnlyGenerated(a) && Closed(a) && Known(a, f.typ)
    ensures var b := WithTxField(a, f); KeepsBase(b) && OnlyGenerated(b) && Closed(b) && Extends(a, b)
  {
  }

  /** One message adds its field to `Tx` and keeps everything said so far. */
  lemma AddMsgGood(tm: TypeMap, i: nat, msg: Json)
    requires Plain(msg) && Closed(tm) && KeepsBase(tm) && OnlyGenerated(tm)
    ensures var r := AddMsg(tm, MsgField(i), msg);
            r.ok ==>
              && Closed(r.tm) && KeepsBase(r.tm) && OnlyGenerated(r.tm) && Extends(tm, r.tm)
              && |r.tm[TX]| == |tm[TX]| + 1 && r.tm[TX][..|tm[TX]|] == tm[TX]
              && Describes(r.tm, r.tm[TX][|tm[TX]|], i, msg)
  {
    hide Plain, Closed, KeepsBase, Spells, ObjectSchema, AddObject, MsgField, RootType, Known, TypeKey, Grows, Prefix;
    var r := AddMsg(tm, MsgField(i), msg);
    if r.ok {
      var root := RootType(msg.members).value;
      RootTypeStarts(msg.members);
      RootIsPrefix();
      AddObjectGood(tm, root, ROOT_PREFIX, msg.members);
      var a := AddObject(tm, root, ROOT_PREFIX, msg.members);
      var f := Field(MsgField(i), a.key.value);
      GrowsKeeps(tm, a.tm);
      SpelledKnown(a.tm, a.key.value, ObjectSchema(msg.members));
      TxAppended(a.tm, f);
      SpellsExtended(a.tm, r.tm, a.key.value, ObjectSchema(msg.members));
      TxOf(a.tm, f);
    }
  }

  lemma RootIsPrefix()
    ensures Prefix(ROOT_PREFIX)
  {
  }

  lemma SpelledKnown(tm: TypeMap, key: string, s: Schema)
    requires Spells(tm, key, s)
    ensures Known(tm, key)
  {
  }

  lemma TxOf(tm: TypeMap, f: Field)
    requires KeepsBase(tm)
    ensures KeepsBase(WithTxField(tm, f)) && TX in tm && WithTxField(tm, f)[TX] == tm[TX] + [f]
  {
  }

  predicate PlainMessages(ms: seq<Member>, n: nat) {
    forall i: nat :: i < n ==> Plain(Lookup(ms, MsgField(i)))
  }

  lemma {:induction false} AddMsgsGood(ms: seq<Member>, n: nat)
    requires PlainMessages(ms, n)
    ensures var r := AddMsgs(BASE, ms, n);
            r.ok ==> Closed(r.tm) && KeepsBase(r.tm) && OnlyGenerated(r.tm) && TxDescribes(r.tm, ms, n)
  {
    hide Plain, Closed, OnlyGenerated, Spells, ObjectSchema, AddMsg, MsgField, Extends, Lookup;
    if n == 0 {
      BaseClosed();
      BaseGood();
    } else {
      AddMsgsGood(ms, n - 1);
      var r := AddMsgs(BASE, ms, n - 1);
      if r.ok {
        AddMsgGood(r.tm, n - 1, Lookup(ms, MsgField(n - 1)));
        var s := AddMsg(r.tm, MsgField(n - 1), Lookup(ms, MsgField(n - 1)));
        if s.ok { TxDescribesNext(r.tm, s.tm, ms, n - 1); }
      }
    }
  }

  lemma BaseGood()
    ensures KeepsBase(BASE) && OnlyGenerated(BASE) && BASE[TX][..|BASE_TX|] == BASE_TX
  {
  }

  lemma TxDescribesNext(a: TypeMap, b: TypeMap, ms: seq<Member>, n: nat)
    requires TX in a && TX in b && TxDescribes(a, ms, n) && Extends(a, b)
    requires |b[TX]| == |a[TX]| + 1 && b[TX][..|a[TX]|] == a[TX]
    requires Describes(b, b[TX][|a[TX]|], n, Lookup(ms, MsgField(n)))
    ensures TxDescribes(b, ms, n + 1)
  {
    hide Spells, ObjectSchema, MsgField, Extends, Lookup;
    assert b[TX][..|BASE_TX|] == a[TX][..|BASE_TX|] by {
      assert a[TX][..|BASE_TX|] == b[TX][..|a[TX]|][..|BASE_TX|];
    }
    forall i: nat | i < n + 1 ensures Describes(b, b[TX][|BASE_TX| + i], i, Lookup(ms, MsgField(i))) {
      if i < n {
        var f := a[TX][|BASE_TX| + i];
        assert f == b[TX][..|a[TX]|][|BASE_TX| + i] == b[TX][|BASE_TX| + i];
        assert Describes(a, f, i, Lookup(ms, MsgField(i)));
        SpellsExtended(a, b, f.typ, ObjectSchema(Lookup(ms, MsgField(i)).members));
      }
    }
  }

  /** The types made for a payload: every referenced type is defined, the fixed entries are as given,
      other entries have generated names, and `Tx` describes every message. */
  lemma CreateDescribes(ms: seq<Member>, n: nat)
    requires PlainMessages(ms, n)
    ensures var r := Create(ms, n);
            r.Some? ==>
              && Closed(r.value) && KeepsBase(r.value) && OnlyGenerated(r.value)
              && TxDescribes(r.value, ms, n)
  {
    hide PlainMessages, Closed, KeepsBase, OnlyGenerated, AddMsgs, Describes;
    AddMsgsGood(ms, n);
  }

  // ---- from the sign document ----

  /** Flattening stores message `i` under `msg{i}`. */
  lemma FlattenedMessage(ms: seq<Member>, i: nat)
    requires Flatten(ms).Ok? && i < Flatten(ms).value.1
    ensures Messages(ms).Ok? && |Messages(ms).value| == Flatten(ms).value.1
    ensures Lookup(Flatten(ms).value.0, MsgField(i)) == Messages(ms).value[i]
  {
    hide MsgField, Messages, Without, IndexOf, Numbered;
    var items := Messages(ms).value;
    var a, b := Without(ms, MSGS), Numbered(items, 0);
    assert !BlockedAt(ms, items, i);
    WithoutHas(ms, MSGS, MsgField(i));
    IndexOfConcat(a, b, MsgField(i));
    NumberedKeys(items, MsgField(i));
    var k := IndexOf(b, MsgField(i));
    NumberedAt(items, 0, i);
    NumberedAt(items, 0, k);
    MsgFieldInjective(i, k);
  }

  lemma WithoutHas(ms: seq<Member>, key: string, other: string)
    requires !Has(ms, other)
    ensures !Has(Without(ms, key), other)
  {
  }

  lemma MessagePlain(ms: seq<Member>, i: nat)
    requires Plain(Obj(ms)) && Messages(ms).Ok? && i < |Messages(ms).value|
    ensures Plain(Messages(ms).value[i])
  {
  }

  /** The types of a sign document describe its messages, in order. */
  lemma SignDocDescribed(ms: seq<Member>)
    requires Plain(Obj(ms)) && Flatten(ms).Ok?
    ensures Messages(ms).Ok? && |Messages(ms).value| == Flatten(ms).value.1
    ensures var n, r := Flatten(ms).value.1, Create(Flatten(ms).value.0, Flatten(ms).value.1);
            r.Some? ==>
              && Closed(r.value) && KeepsBase(r.value) && OnlyGenerated(r.value)
              && |r.value[TX]| == |BASE_TX| + n && r.value[TX][..|BASE_TX|] == BASE_TX
              && forall i: nat :: i < n ==> Describes(r.value, r.value[TX][|BASE_TX| + i], i, Messages(ms).value[i])
  {
    hide Plain, Create, MsgField, Closed, OnlyGenerated, Describes, Messages, Without, Numbered, Lookup;
    var (flat, n) := Flatten(ms).value;
    forall i: nat | i < n
      ensures Lookup(flat, MsgField(i)) == Messages(ms).value[i] && Plain(Lookup(flat, MsgField(i)))
    {
      FlattenedMessage(ms, i);
      MessagePlain(ms, i);
    }
    CreateDescribes(flat, n);
  }

  // ---- the order of members does not matter ----

  lemma AddMsgSame(tm: TypeMap, field: string, a: Json, b: Json)
    requires Same(a, b) && WellKeyed(a) && WellKeyed(b)
    ensures AddMsg(tm, field, a) == AddMsg(tm, field, b)
  {
    hide AddObject, IndexOf;
    if a.Obj? {
      SameMember(a.members, b.members, MSG_TYPE);
      assert RootType(a.members) == RootType(b.members);
      if RootType(a.members).Some? { AddObjectSame(tm, RootType(a.members).value, ROOT_PREFIX, a.members, b.members); }
    }
  }

  predicate SameMessage(a: seq<Member>, b: seq<Member>, i: nat) {
    var x, y := Lookup(a, MsgField(i)), Lookup(b, MsgField(i));
    Same(x, y) && WellKeyed(x) && WellKeyed(y)
  }

  lemma {:induction false} AddMsgsSame(tm: TypeMap, a: seq<Member>, b: seq<Member>, n: nat)
    requires forall i: nat :: i < n ==> SameMessage(a, b, i)
    ensures AddMsgs(tm, a, n) == AddMsgs(tm, b, n)
  {
    hide AddMsg, Same, WellKeyed, MsgField, Lookup;
    if n > 0 {
      AddMsgsSame(tm, a, b, n - 1);
      assert SameMessage(a, b, n - 1);
      AddMsgSame(AddMsgs(tm, a, n - 1).tm, MsgField(n - 1), Lookup(a, MsgField(n - 1)), Lookup(b, MsgField(n - 1)));
    }
  }

  lemma MessagesSame(a: seq<Member>, b: seq<Member>)
    requires WellKeyed(Obj(a)) && WellKeyed(Obj(b)) && Same(Obj(a), Obj(b))
    ensures Messages(a).Ok? == Messages(b).Ok?
    ensures Messages(a).Ok? ==>
              var x, y := Messages(a).value, Messages(b).value;
              |x| == |y| && forall i :: 0 <= i < |x| ==> Same(x[i], y[i]) && WellKeyed(x[i]) && WellKeyed(y[i])
  {
  }

  lemma BlockedSame(a: seq<Member>, b: seq<Member>, x: seq<Json>, y: seq<Json>)
    requires Same(Obj(a), Obj(b)) && |x| == |y| && forall i :: 0 <= i < |x| ==> Same(x[i], y[i])
    ensures Blocked(a, x) == Blocked(b, y)
  {
    hide MsgField, IndexOf;
    forall i | 0 <= i < |x| ensures BlockedAt(a, x, i) == BlockedAt(b, y, i) {
      SameMember(a, b, MsgField(i));
      assert Same(x[i], y[i]);
    }
  }

  /** Two sign documents that are equal as nested maps flatten alike and get the same types. */
  lemma SignDocSame(a: seq<Member>, b: seq<Member>)
    requires WellKeyed(Obj(a)) && WellKeyed(Obj(b)) && Same(Obj(a), Obj(b))
    ensures Flatten(a).Ok? == Flatten(b).Ok?
    ensures Flatten(a).Ok? ==>
              var (x, n) := Flatten(a).value;
              var (y, m) := Flatten(b).value;
              n == m && Create(x, n) == Create(y, m)
  {
    hide Same, WellKeyed, Messages, Blocked, MsgField, AddMsgs, Lookup, Without, Numbered;
    MessagesSame(a, b);
    if Messages(a).Ok? { BlockedSame(a, b, Messages(a).value, Messages(b).value); }
    if Flatten(a).Ok? {
      var (x, n) := Flatten(a).value;
      var (y, m) := Flatten(b).value;
      forall i: nat | i < n ensures SameMessage(x, y, i) {
        FlattenedMessage(a, i);
        FlattenedMessage(b, i);
      }
      AddMsgsSame(BASE, x, y, n);
    }
  }

  // ---- the fixed types ----

  /** The domain has the fields of EIP-712 with a string for the contract and the salt; the others are
      those of a Cosmos transaction, whose message fields follow. */
  lemma FixedTypes(ms: seq<Member>, n: nat)
    requires PlainMessages(ms, n) && Create(ms, n).Some?
    ensures var tm := Create(ms, n).value;
            && "EIP712Domain" in tm && "Fee" in tm && "Coin" in tm && "Tx" in tm
            && tm["EIP712Domain"] == [Field("name", "string"), Field("version", "string"), Field("chainId", "uint256"),
                                      Field("verifyingContract", "string"), Field("salt", "string")]
            && tm["Fee"] == [Field("amount", "Coin[]"), Field("gas", "string")]
            && tm["Coin"] == [Field("denom", "string"), Field("amount", "string")]
            && |tm["Tx"]| == 5 + n
            && tm["Tx"][..5] == [Field("account_number", "string"), Field("chain_id", "string"), Field("fee", "Fee"),
                                 Field("memo", "string"), Field("sequence", "string")]
  {
    hide PlainMessages, Create, Closed, OnlyGenerated, Describes;
    CreateDescribes(ms, n);
  }
}
