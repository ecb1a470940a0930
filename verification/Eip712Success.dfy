/** When type creation succeeds: the only limits are well-typed messages and a thousand entries under
    one name. */
module Eip712Success {
  import opened Wrappers
  import opened Json
  import opened Eip712Types
  import opened Eip712Names
  import opened Eip712Schema
  import opened Eip712Create
  import opened Eip712Message
  import opened Eip712Sharing

  /** The number of objects a schema describes, itself included. */
  function Structs(s: Schema): (n: nat)
    ensures n >= 1
    decreases s, 1
  {
    1 + FieldStructs(s.fields)
  }

  function FieldStructs(fs: seq<SchemaField>): nat
    decreases fs, 0
  {
    if fs == [] then 0
    else (if fs[0].kind.Struct? then Structs(fs[0].kind.schema) else 0) + FieldStructs(fs[1..])
  }

  lemma {:induction false} FieldStructsConcat(a: seq<SchemaField>, b: seq<SchemaField>)
    ensures FieldStructs(a + b) == FieldStructs(a) + FieldStructs(b)
    decreases |a|
  {
    hide Structs;
    if a == [] {
      assert a + b == b;
    } else {
      assert (a + b)[1..] == a[1..] + b;
      FieldStructsConcat(a[1..], b);
    }
  }

  /** The generated entries. */
  function Generated(tm: TypeMap): set<string> {
    set k | k in tm && EndsInDigit(k)
  }

  function Slots(typeDef: string, n: nat): set<string> {
    set i | 0 <= i < n :: Indexed(typeDef, i)
  }

  lemma IndexedInjective(typeDef: string, i: nat, j: nat)
    requires Indexed(typeDef, i) == Indexed(typeDef, j)
    ensures i == j
  {
    hide Decimal.Render;
    assert Indexed(typeDef, i)[|typeDef|..] == Decimal.Render(i);
    assert Indexed(typeDef, j)[|typeDef|..] == Decimal.Render(j);
    Decimal.RenderInjective(i, j);
  }

  lemma IndexedEndsInDigit(typeDef: string, i: nat)
    ensures EndsInDigit(Indexed(typeDef, i))
  {
  }

  lemma {:induction false} SlotsCount(typeDef: string, n: nat)
    ensures |Slots(typeDef, n)| == n
  {
    hide Indexed;
    if n > 0 {
      var s, last := Slots(typeDef, n - 1), Indexed(typeDef, n - 1);
      SlotsCount(typeDef, n - 1);
      if last in s {
        var i: nat :| i < n - 1 && Indexed(typeDef, i) == last;
        IndexedInjective(typeDef, i, n - 1);
      }
      assert Slots(typeDef, n) == s + {last};
    }
  }

  /** Adding a type fails exactly when every number under its name is taken by other fields. */
  lemma {:induction false} SlotsExhausted(tm: TypeMap, typeDef: string, fields: seq<Field>, n: nat)
    ensures FindSlot(tm, typeDef, fields, n).None? <==>
            forall i: nat :: n <= i < 1000 ==> Indexed(typeDef, i) in tm && tm[Indexed(typeDef, i)] != fields
    decreases MAX_DUPLICATES - n
  {
    hide Indexed;
    if n < MAX_DUPLICATES { SlotsExhausted(tm, typeDef, fields, n + 1); }
  }

  lemma SubsetSize(a: set<string>, b: set<string>)
    requires a <= b
    ensures |a| <= |b|
  {
    assert b == a + (b - a);
  }

  /** With fewer than a thousand generated entries there is always a slot. */
  lemma SlotExists(tm: TypeMap, typeDef: string, fields: seq<Field>)
    requires |Generated(tm)| < MAX_DUPLICATES
    ensures FindSlot(tm, typeDef, fields, 0).Some?
  {
    hide Indexed, FindSlot, EndsInDigit;
    if FindSlot(tm, typeDef, fields, 0).None? {
      SlotsExhausted(tm, typeDef, fields, 0);
      forall k | k in Slots(typeDef, MAX_DUPLICATES) ensures k in Generated(tm) {
        var i: nat :| i < MAX_DUPLICATES && k == Indexed(typeDef, i);
        IndexedEndsInDigit(typeDef, i);
      }
      SlotsCount(typeDef, MAX_DUPLICATES);
      SubsetSize(Slots(typeDef, MAX_DUPLICATES), Generated(tm));
    }
  }

  lemma AddTypesSucceeds(tm: TypeMap, typeDef: string, fields: seq<Field>)
    requires |Generated(tm)| < MAX_DUPLICATES
    ensures var (after, key) := AddTypes(tm, typeDef, fields); key.Some? && |Generated(after)| <= |Generated(tm)| + 1
  {
    hide Indexed, FindSlot, EndsInDigit;
    SlotExists(tm, typeDef, fields);
    var key := Indexed(typeDef, FindSlot(tm, typeDef, fields, 0).value);
    assert Generated(tm[key := fields]) <= Generated(tm) + {key};
    SubsetSize(Generated(tm[key := fields]), Generated(tm) + {key});
  }

  /** The walk over an object succeeds as long as the generated entries stay within a thousand. */
  lemma {:induction false} AddObjectSucceeds(tm: TypeMap, rootType: string, prefix: string, ms: seq<Member>)
    requires |Generated(tm)| + Structs(ObjectSchema(ms)) <= MAX_DUPLICATES
    ensures var r := AddObject(tm, rootType, prefix, ms);
            r.key.Some? && |Generated(r.tm)| <= |Generated(tm)| + Structs(ObjectSchema(ms))
    decreases ms, |ms| + 1, 1
  {
    hide Generated, AddTypes, SortedKeys, TypeDefForPrefix, FieldStructs, AddField, FieldSchema;
    var names := SortedKeys(ms);
    AddFieldsSucceeds(tm, rootType, prefix, ms, names);
    var r := AddFields(tm, rootType, prefix, ms, names);
    AddTypesSucceeds(r.tm, TypeDefForPrefix(prefix, rootType), r.fields.value);
  }

  lemma {:induction false} AddFieldsSucceeds(tm: TypeMap, rootType: string, prefix: string, ms: seq<Member>,
                                             names: seq<string>)
    requires |Generated(tm)| + FieldStructs(FieldSchemas(ms, names)) < MAX_DUPLICATES
    ensures var r := AddFields(tm, rootType, prefix, ms, names);
            r.fields.Some? && |Generated(r.tm)| <= |Generated(tm)| + FieldStructs(FieldSchemas(ms, names))
    decreases ms, 0, |names|
  {
    hide Generated, AddField, FieldSchema, FieldStructs;
    if names != [] {
      FieldStructsConcat(FieldSchema(ms, names[0]), FieldSchemas(ms, names[1..]));
      AddFieldSucceeds(tm, rootType, prefix, ms, names[0]);
      AddFieldsSucceeds(AddField(tm, rootType, prefix, ms, names[0]).tm, rootType, prefix, ms, names[1..]);
    } else {
      NoStructs();
    }
  }

  lemma NoStructs()
    ensures FieldStructs([]) == 0
  {
  }

  lemma OneStructs(f: SchemaField)
    ensures FieldStructs([f]) == if f.kind.Struct? then Structs(f.kind.schema) else 0
  {
  }

  lemma {:induction false} AddFieldSucceeds(tm: TypeMap, rootType: string, prefix: string, ms: seq<Member>,
                                            name: string)
    requires |Generated(tm)| + FieldStructs(FieldSchema(ms, name)) < MAX_DUPLICATES
    ensures var r := AddField(tm, rootType, prefix, ms, name);
            r.fields.Some? && |Generated(r.tm)| <= |Generated(tm)| + FieldStructs(FieldSchema(ms, name))
    decreases ms, 0, 0
  {
    hide Generated, AddObject, ObjectSchema, FieldStructs, IndexOf, Sanitize;
    var fs := FieldSchema(ms, name);
    NoStructs();
    if fs != [] {
      OneStructs(fs[0]);
      assert fs == [fs[0]];
      var v := Get(ms, name);
      var x := Sample(v);
      if !(v.Arr? && v.items == []) && EthType(x) == "" && x.Obj? {
        AddObjectSucceeds(tm, rootType, SubPrefix(prefix, name), x.members);
      }
    }
  }

  // ---- whole payloads ----

  /** An object with a non-empty type string. */
  predicate Typed(msg: Json) {
    msg.Obj? && RootType(msg.members).Some?
  }

  /** The number of objects in the first `n` messages. */
  function MessageStructs(ms: seq<Member>, n: nat): nat {
    if n == 0 then 0
    else
      var msg := Lookup(ms, MsgField(n - 1));
      MessageStructs(ms, n - 1) + if msg.Obj? then Structs(ObjectSchema(msg.members)) else 0
  }

  lemma TxNotCounted(tm: TypeMap, f: Field)
    ensures Generated(WithTxField(tm, f)) == Generated(tm)
  {
  }

  lemma AddMsgSucceeds(tm: TypeMap, field: string, msg: Json)
    requires msg.Obj? ==> |Generated(tm)| + Structs(ObjectSchema(msg.members)) <= MAX_DUPLICATES
    ensures var r := AddMsg(tm, field, msg);
            && (r.ok <==> Typed(msg))
            && (r.ok ==> |Generated(r.tm)| <= |Generated(tm)| + Structs(ObjectSchema(msg.members)))
  {
    hide Generated, AddObject, ObjectSchema, Structs, RootType, WithTxField;
    if Typed(msg) {
      AddObjectSucceeds(tm, RootType(msg.members).value, ROOT_PREFIX, msg.members);
      var r := AddObject(tm, RootType(msg.members).value, ROOT_PREFIX, msg.members);
      TxNotCounted(r.tm, Field(field, r.key.value));
    }
  }

  lemma BaseNotCounted()
    ensures Generated(BASE) == {}
  {
  }

  lemma {:induction false} AddMsgsSucceeds(ms: seq<Member>, n: nat)
    requires MessageStructs(ms, n) <= MAX_DUPLICATES
    ensures var r := AddMsgs(BASE, ms, n);
            && (r.ok <==> forall i: nat :: i < n ==> Typed(Lookup(ms, MsgField(i))))
            && (r.ok ==> |Generated(r.tm)| <= MessageStructs(ms, n))
  {
    hide Generated, AddMsg, MsgField, Lookup, RootType, ObjectSchema, Structs;
    if n == 0 {
      BaseNotCounted();
    } else {
      AddMsgsSucceeds(ms, n - 1);
      var r := AddMsgs(BASE, ms, n - 1);
      var msg := Lookup(ms, MsgField(n - 1));
      if r.ok { AddMsgSucceeds(r.tm, MsgField(n - 1), msg); }
    }
  }

  /** A payload of at most a thousand objects gets its types exactly when every message is an object
      with a type string. */
  lemma CreateSucceeds(ms: seq<Member>, n: nat)
    requires MessageStructs(ms, n) <= 1000
    ensures Create(ms, n).Some? <==> forall i: nat :: i < n ==> Typed(Lookup(ms, MsgField(i)))
  {
    hide AddMsgs, MsgField, Lookup, Typed, MessageStructs;
    AddMsgsSucceeds(ms, n);
  }

  // ---- the limit is real ----

  /** The numbers of one name can be taken by those of another. */
  lemma NumberedNamesMeet()
    ensures Indexed("TypeA", 10) == "TypeA10" == Indexed("TypeA1", 0)
  {
    assert Decimal.Digits(10) == [1, 0] && Decimal.Digits(0) == [0];
    assert Decimal.Render(10) == "10" && Decimal.Render(0) == "0";
    assert "TypeA" + "10" == "TypeA1" + "0";
  }

  lemma {:induction false} SlotBelow(tm: TypeMap, typeDef: string, fields: seq<Field>, n: nat)
    ensures var s := FindSlot(tm, typeDef, fields, n); s.Some? ==> s.value < MAX_DUPLICATES
    decreases MAX_DUPLICATES - n
  {
    hide Indexed;
    if n < MAX_DUPLICATES { SlotBelow(tm, typeDef, fields, n + 1); }
  }

  /** The slot a type gets is the first that is free or holds the same fields. */
  lemma {:induction false} SlotIsFirst(tm: TypeMap, typeDef: string, fields: seq<Field>, n: nat)
    ensures var s := FindSlot(tm, typeDef, fields, n);
            s.Some? ==>
              && n <= s.value && (Indexed(typeDef, s.value) in tm ==> tm[Indexed(typeDef, s.value)] == fields)
              && forall i: nat :: n <= i < s.value ==> Indexed(typeDef, i) in tm && tm[Indexed(typeDef, i)] != fields
    decreases MAX_DUPLICATES - n
  {
    hide Indexed;
    if n < MAX_DUPLICATES { SlotIsFirst(tm, typeDef, fields, n + 1); }
  }

  /** The key of an object is its root type, or its sanitized path below the root, and a number below a
      thousand in decimal. */
  lemma KeyNames(tm: TypeMap, rootType: string, prefix: string, ms: seq<Member>) returns (n: nat)
    ensures var r := AddObject(tm, rootType, prefix, ms);
            r.key.Some? ==>
              && n < 1000
              && r.key.value == (if prefix == "_" then rootType else Sanitize(prefix)) + Decimal.Render(n)
  {
    hide FindSlot, SortedKeys, Sanitize;
    var f := AddFields(tm, rootType, prefix, ms, SortedKeys(ms));
    var def := TypeDefForPrefix(prefix, rootType);
    n := 0;
    if f.fields.Some? {
      SlotBelow(f.tm, def, f.fields.value, 0);
      var s := FindSlot(f.tm, def, f.fields.value, 0);
      if s.Some? { n := s.value; }
    }
  }

  lemma RootKey(tm: TypeMap, rootType: string, ms: seq<Member>)
    ensures var r := AddObject(tm, rootType, ROOT_PREFIX, ms);
            r.key.Some? ==> r.key.value in Slots(rootType, MAX_DUPLICATES)
  {
    hide AddObject;
    var n := KeyNames(tm, rootType, ROOT_PREFIX, ms);
    assert forall i: nat :: i < MAX_DUPLICATES ==> Indexed(rootType, i) in Slots(rootType, MAX_DUPLICATES);
    var r := AddObject(tm, rootType, ROOT_PREFIX, ms);
    assert r.key.Some? ==> r.key.value == Indexed(rootType, n);
  }

  /** Messages `picks` have one type string and schemas that differ from each other. */
  ghost predicate Different(ms: seq<Member>, n: nat, root: string, picks: seq<nat>) {
    && (forall k :: 0 <= k < |picks| ==> picks[k] < n && RootType(Message(ms, picks[k])) == Some(root))
    && forall j, k :: 0 <= j < k < |picks| ==>
         ObjectSchema(Message(ms, picks[j])) != ObjectSchema(Message(ms, picks[k]))
  }

  lemma {:induction false} DifferentTypes(ms: seq<Member>, n: nat, root: string, picks: seq<nat>)
    returns (keys: set<string>)
    requires PlainMessages(ms, n) && Create(ms, n).Some? && Different(ms, n, root, picks)
    ensures keys <= Slots(root, MAX_DUPLICATES) && |keys| == |picks|
    ensures var tm := Create(ms, n).value; TX in tm && |tm[TX]| == |BASE_TX| + n
    ensures forall t :: t in keys ==> exists k :: 0 <= k < |picks| && t == MessageType(Create(ms, n).value, picks[k])
    decreases |picks|
  {
    hide PlainMessages, Create, RootType, ObjectSchema, Message, Slots, MessageType, Closed, OnlyGenerated, Describes;
    CreateDescribes(ms, n);
    keys := {};
    if picks != [] {
      var m := |picks| - 1;
      var more := DifferentTypes(ms, n, root, picks[..m]);
      var tm, last := Create(ms, n).value, MessageType(Create(ms, n).value, picks[m]);
      KeyInSlots(ms, n, picks[m]);
      if last in more {
        var k :| 0 <= k < m && last == MessageType(tm, picks[k]);
        SharedExactly(ms, n, picks[k], picks[m]);
      }
      keys := more + {last};
    }
  }

  lemma KeyInSlots(ms: seq<Member>, n: nat, i: nat)
    requires PlainMessages(ms, n) && Create(ms, n).Some? && i < n
    ensures var tm := Create(ms, n).value;
            && TX in tm && |tm[TX]| == |BASE_TX| + n && RootType(Message(ms, i)).Some?
            && MessageType(tm, i) in Slots(RootType(Message(ms, i)).value, MAX_DUPLICATES)
  {
    hide PlainMessages, AddMsgs, AddObject, RootType, Message, Slots;
    MessageKept(ms, n, i);
    RootKey(AddMsgs(BASE, ms, i).tm, RootType(Message(ms, i)).value, Message(ms, i));
  }

  /** Whatever the size of the payload, types exist only when no type string comes with more than a
      thousand different schemas. */
  lemma AtMostAThousand(ms: seq<Member>, n: nat, root: string, picks: seq<nat>)
    requires PlainMessages(ms, n) && Create(ms, n).Some? && Different(ms, n, root, picks)
    ensures |picks| <= 1000
  {
    hide PlainMessages, Create, Different, Slots;
    var keys := DifferentTypes(ms, n, root, picks);
    SlotsCount(root, MAX_DUPLICATES);
    SubsetSize(keys, Slots(root, MAX_DUPLICATES));
  }
}
