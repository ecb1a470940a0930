/** Types stand for schemas: a key spells only one schema, inference looks at nothing but the schema,
    and an object whose schema has been seen gets the key it got before. */
module Eip712Sharing {
  import opened Wrappers
  import opened Json
  import opened Eip712Types
  import opened Eip712Names
  import opened Eip712Schema
  import opened Eip712Create
  import opened Eip712Message

  // ---- a key spells one schema ----

  /** The schemas that come from objects: every scalar is one of three. */
  predicate Proper(s: Schema)
    decreases s, 1
  {
    forall i :: 0 <= i < |s.fields| ==> ProperField(s.fields[i])
  }

  predicate ProperField(f: SchemaField)
    decreases f, 0
  {
    match f.kind
    case Scalar(typ) => typ in {"string", "bool", "int64"}
    case Struct(sub) => Proper(sub)
  }

  predicate AllProper(fs: seq<SchemaField>) {
    forall i :: 0 <= i < |fs| ==> ProperField(fs[i])
  }

  lemma {:induction false} ObjectProper(ms: seq<Member>)
    ensures Proper(ObjectSchema(ms))
    decreases ms, |ms| + 1, 1
  {
    hide SortedKeys, ProperField;
    FieldsProper(ms, SortedKeys(ms));
  }

  lemma {:induction false} FieldsProper(ms: seq<Member>, names: seq<string>)
    ensures AllProper(FieldSchemas(ms, names))
    decreases ms, 0, |names|
  {
    hide ProperField, FieldSchema;
    if names != [] {
      FieldProper(ms, names[0]);
      FieldsProper(ms, names[1..]);
    }
  }

  lemma {:induction false} FieldProper(ms: seq<Member>, name: string)
    ensures AllProper(FieldSchema(ms, name))
    decreases ms, 0, 0
  {
    hide IndexOf, Proper;
    var k := IndexOf(ms, name);
    if k >= 0 {
      var x := Sample(ms[k].value);
      if x.Obj? { ObjectProper(x.members); }
    }
  }

  /** The name of a scalar or a reference tells which it is, and whether it is an array. */
  lemma NamesTell(a: string, b: string, isArray: bool, isArray': bool)
    requires EndsPlain(a) && EndsPlain(b) && a + ArraySuffix(isArray) == b + ArraySuffix(isArray')
    ensures a == b && isArray == isArray'
  {
    var t := a + ArraySuffix(isArray);
    assert !isArray ==> t[|t| - 1] == a[|a| - 1];
    assert !isArray' ==> t[|t| - 1] == b[|b| - 1];
    assert isArray ==> t[|t| - 1] == ']' && t[..|t| - 2] == a;
    assert isArray' ==> t[|t| - 1] == ']' && t[..|t| - 2] == b;
    assert a + "" == a && b + "" == b;
  }

  predicate EndsPlain(s: string) {
    s != "" && s[|s| - 1] != ']'
  }

  lemma ScalarsArePlain(typ: string)
    requires typ in {"string", "bool", "int64"}
    ensures EndsPlain(typ) && !TypeKey(typ)
  {
    assert "string"[0] == 's' && "bool"[0] == 'b' && "int64"[0] == 'i' && TYPE_PREFIX[0] == 'T';
  }

  lemma KeysArePlain(key: string)
    requires TypeKey(key)
    ensures EndsPlain(key)
  {
  }

  /** Two schemas an entry spells are one. */
  lemma {:induction false} SpellsUnique(tm: TypeMap, key: string, s: Schema, t: Schema)
    requires Spells(tm, key, s) && Spells(tm, key, t) && Proper(s) && Proper(t)
    ensures s == t
    decreases s, 1
  {
    hide FieldSpells, ProperField;
    forall i | 0 <= i < |s.fields| ensures s.fields[i] == t.fields[i] {
      FieldUnique(tm, tm[key][i], s.fields[i], t.fields[i]);
    }
    assert s.fields == t.fields;
  }

  lemma {:induction false} FieldUnique(tm: TypeMap, f: Field, s: SchemaField, t: SchemaField)
    requires FieldSpells(tm, f, s) && FieldSpells(tm, f, t) && ProperField(s) && ProperField(t)
    ensures s == t
    decreases s, 0
  {
    hide FieldsSpell, Proper, TypeKey;
    var a := ReferenceOf(tm, f, s);
    var b := ReferenceOf(tm, f, t);
    NamesTell(a, b, s.isArray, t.isArray);
    if s.kind.Struct? { SpellsUnique(tm, a, s.kind.schema, t.kind.schema); }
  }

  /** The name a field refers to: a key for a struct, never one for a scalar. */
  lemma ReferenceOf(tm: TypeMap, f: Field, s: SchemaField) returns (name: string)
    requires FieldSpells(tm, f, s) && ProperField(s)
    ensures EndsPlain(name) && f.typ == name + ArraySuffix(s.isArray)
    ensures s.kind.Scalar? ==> name == s.kind.typ && !TypeKey(name)
    ensures s.kind.Struct? ==> TypeKey(name) && Spells(tm, name, s.kind.schema)
  {
    hide FieldsSpell, Proper, TypeKey;
    match s.kind {
      case Scalar(typ) =>
        name := typ;
        ScalarsArePlain(typ);
      case Struct(sub) =>
        name := f.typ[..|f.typ| - |ArraySuffix(s.isArray)|];
        assert TypeKey(name);
        KeysArePlain(name);
    }
  }

  // ---- inference looks at the schema only ----

  function AddSchema(tm: TypeMap, rootType: string, prefix: string, s: Schema): Added
    decreases s, 1, 0
  {
    var r := AddSchemaFields(tm, rootType, prefix, s.fields);
    if r.fields.None? then Added(r.tm, None)
    else
      var (t, key) := AddTypes(r.tm, TypeDefForPrefix(prefix, rootType), r.fields.value);
      Added(t, key)
  }

  function AddSchemaFields(tm: TypeMap, rootType: string, prefix: string, fs: seq<SchemaField>): AddedFields
    decreases fs, 0, |fs|
  {
    if fs == [] then AddedFields(tm, Some([]))
    else
      var head := AddSchemaField(tm, rootType, prefix, fs[0]);
      if head.fields.None? then head
      else
        var rest := AddSchemaFields(head.tm, rootType, prefix, fs[1..]);
        if rest.fields.None? then rest else AddedFields(rest.tm, Some(head.fields.value + rest.fields.value))
  }

  function AddSchemaField(tm: TypeMap, rootType: string, prefix: string, f: SchemaField): AddedFields
    decreases f, 0, 0
  {
    match f.kind
    case Scalar(typ) => AddedFields(tm, Some([Field(f.name, typ + ArraySuffix(f.isArray))]))
    case Struct(sub) =>
      var r := AddSchema(tm, rootType, SubPrefix(prefix, f.name), sub);
      if r.key.None? then AddedFields(r.tm, None)
      else AddedFields(r.tm, Some([Field(f.name, Sanitize(r.key.value) + ArraySuffix(f.isArray))]))
  }

  /** The walk over an object does what its schema says. */
  lemma {:induction false} AddObjectFactors(tm: TypeMap, rootType: string, prefix: string, ms: seq<Member>)
    ensures AddObject(tm, rootType, prefix, ms) == AddSchema(tm, rootType, prefix, ObjectSchema(ms))
    decreases ms, |ms| + 1, 1
  {
    hide AddTypes, TypeDefForPrefix, SortedKeys, AddField, AddSchemaField, FieldSchema;
    AddFieldsFactor(tm, rootType, prefix, ms, SortedKeys(ms));
  }

  lemma {:induction false} AddFieldsFactor(tm: TypeMap, rootType: string, prefix: string, ms: seq<Member>,
                                           names: seq<string>)
    ensures AddFields(tm, rootType, prefix, ms, names)
         == AddSchemaFields(tm, rootType, prefix, FieldSchemas(ms, names))
    decreases ms, 0, |names|
  {
    hide AddField, AddSchemaField, FieldSchema;
    if names != [] {
      var fs, rest := FieldSchema(ms, names[0]), FieldSchemas(ms, names[1..]);
      AddFieldFactors(tm, rootType, prefix, ms, names[0]);
      AddFieldsFactor(AddField(tm, rootType, prefix, ms, names[0]).tm, rootType, prefix, ms, names[1..]);
      if fs == [] {
        assert fs + rest == rest;
        NothingInFront(AddSchemaFields(tm, rootType, prefix, rest));
      } else {
        assert (fs + rest)[0] == fs[0] && (fs + rest)[1..] == rest;
      }
    }
  }

  lemma NothingInFront(r: AddedFields)
    ensures r.fields.Some? ==> [] + r.fields.value == r.fields.value
  {
  }

  lemma {:induction false} AddFieldFactors(tm: TypeMap, rootType: string, prefix: string, ms: seq<Member>, name: string)
    ensures var fs := FieldSchema(ms, name);
            && |fs| <= 1
            && AddField(tm, rootType, prefix, ms, name)
            == if fs == [] then AddedFields(tm, Some([])) else AddSchemaField(tm, rootType, prefix, fs[0])
    decreases ms, 0, 0
  {
    hide AddObject, AddSchema, ObjectSchema, Sanitize, IndexOf;
    var k := IndexOf(ms, name);
    if k >= 0 {
      var v := ms[k].value;
      var x := Sample(v);
      assert "string" + "[]" == "string[]";
      if !(v.Arr? && v.items == []) && EthType(x) == "" && x.Obj? {
        AddObjectFactors(tm, rootType, SubPrefix(prefix, name), x.members);
      }
    }
  }

  // ---- a schema seen before gets its key again ----

  predicate PlainSchema(s: Schema)
    decreases s, 1
  {
    PlainFields(s.fields)
  }

  predicate PlainFields(fs: seq<SchemaField>)
    decreases fs, 0
  {
    forall i :: 0 <= i < |fs| ==> PlainName(fs[i].name) && (fs[i].kind.Struct? ==> PlainSchema(fs[i].kind.schema))
  }

  lemma {:induction false} SlotAgain(tm: TypeMap, later: TypeMap, prefix: string, rootType: string,
                                     fields: seq<Field>, n: nat)
    requires Prefix(prefix) && StartsWithType(rootType)
    requires var def := TypeDefForPrefix(prefix, rootType);
             var s := FindSlot(tm, def, fields, n);
             s.Some? && Extends(tm[Indexed(def, s.value) := fields], later)
    ensures var def := TypeDefForPrefix(prefix, rootType);
            FindSlot(later, def, fields, n) == FindSlot(tm, def, fields, n)
    decreases MAX_DUPLICATES - n
  {
    hide Prefix, StartsWithType, TypeDefForPrefix, Indexed, TypeKey, Sanitize;
    var def := TypeDefForPrefix(prefix, rootType);
    var s := FindSlot(tm, def, fields, n);
    var key := Indexed(def, n);
    GeneratedKey(prefix, rootType, n);
    if key !in tm || tm[key] == fields {
      assert key in tm[key := fields];
    } else {
      SlotAgain(tm, later, prefix, rootType, fields, n + 1);
      FindSlotFinds(tm, def, fields, n + 1);
      assert key in tm[Indexed(def, s.value) := fields];
    }
  }

  lemma TypesAgain(tm: TypeMap, later: TypeMap, prefix: string, rootType: string, fields: seq<Field>)
    requires Prefix(prefix) && StartsWithType(rootType)
    requires var (t, key) := AddTypes(tm, TypeDefForPrefix(prefix, rootType), fields); key.Some? && Extends(t, later)
    ensures var (t, key) := AddTypes(tm, TypeDefForPrefix(prefix, rootType), fields);
            AddTypes(later, TypeDefForPrefix(prefix, rootType), fields) == (later, key)
  {
    hide Prefix, StartsWithType, TypeDefForPrefix, Indexed, TypeKey, Sanitize, FindSlot;
    var def := TypeDefForPrefix(prefix, rootType);
    SlotAgain(tm, later, prefix, rootType, fields, 0);
    var n := FindSlot(tm, def, fields, 0).value;
    GeneratedKey(prefix, rootType, n);
    assert Indexed(def, n) in tm[Indexed(def, n) := fields];
    assert later[Indexed(def, n) := fields] == later;
  }

  lemma TypesGrow(tm: TypeMap, def: string, fields: seq<Field>)
    ensures Extends(tm, AddTypes(tm, def, fields).0)
  {
    hide Indexed, TypeKey, FindSlot;
    FindSlotFinds(tm, def, fields, 0);
  }

  lemma ExtendsTransitive(a: TypeMap, b: TypeMap, c: TypeMap)
    requires Extends(a, b) && Extends(b, c)
    ensures Extends(a, c)
  {
    hide TypeKey;
  }

  lemma {:induction false} SchemaGrows(tm: TypeMap, rootType: string, prefix: string, s: Schema)
    ensures Extends(tm, AddSchema(tm, rootType, prefix, s).tm)
    decreases s, 1, 0
  {
    hide Extends, AddTypes, TypeDefForPrefix, AddSchemaField;
    SchemaFieldsGrow(tm, rootType, prefix, s.fields);
    var r := AddSchemaFields(tm, rootType, prefix, s.fields);
    if r.fields.Some? {
      TypesGrow(r.tm, TypeDefForPrefix(prefix, rootType), r.fields.value);
      ExtendsTransitive(tm, r.tm, AddSchema(tm, rootType, prefix, s).tm);
    }
  }

  lemma {:induction false} SchemaFieldsGrow(tm: TypeMap, rootType: string, prefix: string, fs: seq<SchemaField>)
    ensures Extends(tm, AddSchemaFields(tm, rootType, prefix, fs).tm)
    decreases fs, 0, |fs|
  {
    hide Extends, AddSchema;
    if fs == [] {
      ExtendsItself(tm);
    } else {
      if fs[0].kind.Struct? {
        SchemaGrows(tm, rootType, SubPrefix(prefix, fs[0].name), fs[0].kind.schema);
      } else {
        ExtendsItself(tm);
      }
      var head := AddSchemaField(tm, rootType, prefix, fs[0]);
      if head.fields.Some? {
        SchemaFieldsGrow(head.tm, rootType, prefix, fs[1..]);
        ExtendsTransitive(tm, head.tm, AddSchemaFields(head.tm, rootType, prefix, fs[1..]).tm);
      }
    }
  }

  lemma ExtendsItself(tm: TypeMap)
    ensures Extends(tm, tm)
  {
  }

  /** On any map that still has the entries, adding the schema again changes nothing and yields the
      same key. */
  lemma {:induction false} SchemaAgain(tm: TypeMap, later: TypeMap, rootType: string, prefix: string, s: Schema)
    requires PlainSchema(s) && Prefix(prefix) && StartsWithType(rootType)
    requires var r := AddSchema(tm, rootType, prefix, s); r.key.Some? && Extends(r.tm, later)
    ensures AddSchema(later, rootType, prefix, s) == Added(later, AddSchema(tm, rootType, prefix, s).key)
    decreases s, 1, 0
  {
    hide Extends, AddTypes, TypeDefForPrefix, AddSchemaField, Prefix, StartsWithType, PlainFields;
    var r := AddSchemaFields(tm, rootType, prefix, s.fields);
    TypesGrow(r.tm, TypeDefForPrefix(prefix, rootType), r.fields.value);
    ExtendsTransitive(r.tm, AddSchema(tm, rootType, prefix, s).tm, later);
    SchemaFieldsAgain(tm, later, rootType, prefix, s.fields);
    TypesAgain(r.tm, later, prefix, rootType, r.fields.value);
  }

  lemma {:induction false} SchemaFieldsAgain(tm: TypeMap, later: TypeMap, rootType: string, prefix: string,
                                             fs: seq<SchemaField>)
    requires PlainFields(fs) && Prefix(prefix) && StartsWithType(rootType)
    requires var r := AddSchemaFields(tm, rootType, prefix, fs); r.fields.Some? && Extends(r.tm, later)
    ensures AddSchemaFields(later, rootType, prefix, fs)
         == AddedFields(later, AddSchemaFields(tm, rootType, prefix, fs).fields)
    decreases fs, 0, |fs|
  {
    hide Extends, AddSchema, Prefix, StartsWithType, PlainName, Sanitize;
    if fs != [] {
      var f, head := fs[0], AddSchemaField(tm, rootType, prefix, fs[0]);
      SchemaFieldsGrow(head.tm, rootType, prefix, fs[1..]);
      ExtendsTransitive(head.tm, AddSchemaFields(tm, rootType, prefix, fs).tm, later);
      if f.kind.Struct? {
        SubPrefixIsPrefix(prefix, f.name);
        SchemaAgain(tm, later, rootType, SubPrefix(prefix, f.name), f.kind.schema);
      }
      SchemaFieldsAgain(head.tm, later, rootType, prefix, fs[1..]);
    }
  }

  // ---- messages of a payload ----

  lemma {:induction false} ObjectPlain(ms: seq<Member>)
    requires Plain(Obj(ms))
    ensures PlainSchema(ObjectSchema(ms))
    decreases ms, |ms| + 1, 1
  {
    hide Plain, SortedKeys, PlainFields;
    FieldsPlain(ms, SortedKeys(ms));
  }

  lemma {:induction false} FieldsPlain(ms: seq<Member>, names: seq<string>)
    requires Plain(Obj(ms))
    ensures PlainFields(FieldSchemas(ms, names))
    decreases ms, 0, |names|
  {
    hide Plain, FieldSchema, PlainName;
    if names != [] {
      FieldPlain(ms, names[0]);
      FieldsPlain(ms, names[1..]);
    }
  }

  lemma {:induction false} FieldPlain(ms: seq<Member>, name: string)
    requires Plain(Obj(ms))
    ensures PlainFields(FieldSchema(ms, name))
    decreases ms, 0, 0
  {
    hide IndexOf, PlainName, ObjectSchema, PlainSchema;
    var k := IndexOf(ms, name);
    if k >= 0 {
      assert ms[k] in ms;
      var v := ms[k].value;
      var x := Sample(v);
      assert Plain(x) by { if v.Arr? && v.items != [] { assert v.items[0] in v.items; } }
      if x.Obj? { ObjectPlain(x.members); }
    }
  }

  ghost function Message(ms: seq<Member>, i: nat): seq<Member> {
    var msg := Lookup(ms, MsgField(i));
    if msg.Obj? then msg.members else []
  }

  /** What adding message `i` to the map as it then is yields. */
  ghost function MessageAdded(ms: seq<Member>, i: nat): Added {
    var root := RootType(Message(ms, i));
    AddObject(AddMsgs(BASE, ms, i).tm, if root.Some? then root.value else "", ROOT_PREFIX, Message(ms, i))
  }

  /** The type that `Tx` gives message `i`. */
  function MessageType(tm: TypeMap, i: nat): string
    requires TX in tm && |BASE_TX| + i < |tm[TX]|
  {
    tm[TX][|BASE_TX| + i].typ
  }

  /** Every message is typed, `Tx` has its key, and its entries are still there at the end. */
  lemma {:induction false} MessageKept(ms: seq<Member>, n: nat, i: nat)
    requires PlainMessages(ms, n) && i < n && AddMsgs(BASE, ms, n).ok
    ensures var tm := AddMsgs(BASE, ms, n).tm;
            && RootType(Message(ms, i)).Some? && Lookup(ms, MsgField(i)).Obj?
            && TX in tm && |tm[TX]| == |BASE_TX| + n
            && MessageAdded(ms, i).key == Some(MessageType(tm, i))
            && Extends(MessageAdded(ms, i).tm, tm)
    decreases n
  {
    hide Plain, Closed, OnlyGenerated, KeepsBase, Describes, AddObject, AddMsg, MsgField, Extends, Lookup, RootType;
    var r := AddMsgs(BASE, ms, n - 1);
    HasTx(r.tm);
    HasTx(AddMsgs(BASE, ms, n).tm);
    AddMsgsGood(ms, n - 1);
    AddMsgsGood(ms, n);
    AddMsgGood(r.tm, n - 1, Lookup(ms, MsgField(n - 1)));
    var tm := AddMsgs(BASE, ms, n).tm;
    if i < n - 1 {
      MessageKept(ms, n - 1, i);
      assert tm[TX][..|r.tm[TX]|] == r.tm[TX];
      assert tm[TX][|BASE_TX| + i] == r.tm[TX][|BASE_TX| + i];
      ExtendsTransitive(MessageAdded(ms, i).tm, r.tm, tm);
    } else {
      AddedKept(r.tm, MsgField(i), Lookup(ms, MsgField(i)));
    }
  }

  lemma HasTx(tm: TypeMap)
    ensures KeepsBase(tm) ==> TX in tm
  {
  }

  lemma AddedKept(tm: TypeMap, field: string, msg: Json)
    requires KeepsBase(tm) && OnlyGenerated(tm) && Closed(tm) && Plain(msg) && AddMsg(tm, field, msg).ok
    ensures msg.Obj? && RootType(msg.members).Some?
    ensures var a := AddObject(tm, RootType(msg.members).value, ROOT_PREFIX, msg.members);
            var r := AddMsg(tm, field, msg).tm;
            && a.key.Some? && TX in tm && TX in r && r[TX] == tm[TX] + [Field(field, a.key.value)]
            && Extends(a.tm, r)
  {
    hide Plain, Closed, Spells, ObjectSchema, AddObject, RootType, Prefix, TypeKey;
    RootTypeStarts(msg.members);
    RootIsPrefix();
    AddObjectGood(tm, RootType(msg.members).value, ROOT_PREFIX, msg.members);
    NotGenerated(TX);
  }

  ghost predicate SameSchema(ms: seq<Member>, i: nat, j: nat) {
    ObjectSchema(Message(ms, i)) == ObjectSchema(Message(ms, j))
  }

  /** Messages of one payload whose schemas differ have different types; messages with the same type
      string and the same schema share one. */
  lemma SharedExactly(ms: seq<Member>, n: nat, i: nat, j: nat)
    requires PlainMessages(ms, n) && i < n && j < n && Create(ms, n).Some?
    ensures var tm := Create(ms, n).value;
            && TX in tm && |tm[TX]| == |BASE_TX| + n
            && (MessageType(tm, i) == MessageType(tm, j) ==> SameSchema(ms, i, j))
            && (RootType(Message(ms, i)) == RootType(Message(ms, j)) ==>
                  (MessageType(tm, i) == MessageType(tm, j) <==> SameSchema(ms, i, j)))
  {
    hide Plain, Closed, OnlyGenerated, Spells, ObjectSchema, AddObject, AddMsgs, MsgField, Extends, Lookup, RootType,
         Proper, KeepsBase;
    MessageKept(ms, n, i);
    MessageKept(ms, n, j);
    var tm := Create(ms, n).value;
    CreateDescribes(ms, n);
    assert Describes(tm, tm[TX][|BASE_TX| + i], i, Lookup(ms, MsgField(i)));
    assert Describes(tm, tm[TX][|BASE_TX| + j], j, Lookup(ms, MsgField(j)));
    ObjectProper(Message(ms, i));
    ObjectProper(Message(ms, j));
    if MessageType(tm, i) == MessageType(tm, j) {
      SpellsUnique(tm, MessageType(tm, i), ObjectSchema(Message(ms, i)), ObjectSchema(Message(ms, j)));
    }
    if RootType(Message(ms, i)) == RootType(Message(ms, j)) && SameSchema(ms, i, j) {
      SameKey(ms, n, i, j);
    }
  }

  lemma SameKey(ms: seq<Member>, n: nat, i: nat, j: nat)
    requires PlainMessages(ms, n) && i < n && j < n && AddMsgs(BASE, ms, n).ok
    requires RootType(Message(ms, i)) == RootType(Message(ms, j))
    requires ObjectSchema(Message(ms, i)) == ObjectSchema(Message(ms, j))
    ensures MessageAdded(ms, i).key == MessageAdded(ms, j).key
  {
    hide Plain, ObjectSchema, AddObject, AddMsgs, AddSchema, MsgField, Extends, Lookup, RootType, PlainSchema,
         Prefix, StartsWithType;
    MessageKept(ms, n, i);
    MessageKept(ms, n, j);
    RootIsPrefix();
    RootTypeStarts(Message(ms, i));
    ObjectPlain(Message(ms, i));
    var tm, root, s := AddMsgs(BASE, ms, n).tm, RootType(Message(ms, i)).value, ObjectSchema(Message(ms, i));
    AddObjectFactors(AddMsgs(BASE, ms, i).tm, root, ROOT_PREFIX, Message(ms, i));
    AddObjectFactors(AddMsgs(BASE, ms, j).tm, root, ROOT_PREFIX, Message(ms, j));
    SchemaAgain(AddMsgs(BASE, ms, i).tm, tm, root, ROOT_PREFIX, s);
    SchemaAgain(AddMsgs(BASE, ms, j).tm, tm, root, ROOT_PREFIX, s);
  }
}
