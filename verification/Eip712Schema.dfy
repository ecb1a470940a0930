/** What the inferred EIP-712 types mean: each object's entry spells the schema of the object, entries
    refer only to entries, and earlier entries never change. */
module Eip712Schema {
  import opened Json
  import opened Eip712Types
  import opened Eip712Names

  // ---- the schema of an object, without a type map ----

  datatype Schema = Schema(fields: seq<SchemaField>)
  datatype SchemaField = SchemaField(name: string, kind: Kind, isArray: bool)
  datatype Kind = Scalar(typ: string) | Struct(schema: Schema)

  function ObjectSchema(ms: seq<Member>): Schema
    decreases ms, |ms| + 1, 1
  {
    Schema(FieldSchemas(ms, SortedKeys(ms)))
  }

  function FieldSchemas(ms: seq<Member>, names: seq<string>): seq<SchemaField>
    decreases ms, 0, |names|
  {
    if names == [] then [] else FieldSchema(ms, names[0]) + FieldSchemas(ms, names[1..])
  }

  /** A scalar, an object, or an array described by its first element; an empty array counts as an
      array of strings; nulls and arrays of arrays have no schema. */
  function FieldSchema(ms: seq<Member>, name: string): seq<SchemaField>
    decreases ms, 0, 0
  {
    var k := IndexOf(ms, name);
    if k < 0 then []
    else
      var v := ms[k].value;
      if v.Arr? && v.items == [] then [SchemaField(name, Scalar("string"), true)]
      else
        var x := Sample(v);
        if EthType(x) != "" then [SchemaField(name, Scalar(EthType(x)), v.Arr?)]
        else if x.Obj? then [SchemaField(name, Struct(ObjectSchema(x.members)), v.Arr?)]
        else []
  }

  // ---- a type map spells a schema ----

  function ArraySuffix(isArray: bool): string {
    if isArray then "[]" else ""
  }

  /** The entry `key` has exactly the schema's fields, in order; a scalar by its Ethereum type, a
      struct by the key of an entry that spells it. */
  predicate Spells(tm: TypeMap, key: string, s: Schema)
    decreases s, 2
  {
    TypeKey(key) && key in tm && FieldsSpell(tm, tm[key], s.fields)
  }

  predicate FieldsSpell(tm: TypeMap, fs: seq<Field>, ss: seq<SchemaField>)
    decreases ss, 1
  {
    |fs| == |ss| && forall i :: 0 <= i < |ss| ==> FieldSpells(tm, fs[i], ss[i])
  }

  predicate FieldSpells(tm: TypeMap, f: Field, s: SchemaField)
    decreases s, 0
  {
    && f.name == s.name
    && var suffix := ArraySuffix(s.isArray);
       match s.kind
       case Scalar(typ) => f.typ == typ + suffix
       case Struct(sub) =>
         && |f.typ| >= |suffix|
         && var ref := f.typ[..|f.typ| - |suffix|];
            f.typ == ref + suffix && Spells(tm, ref, sub)
  }

  /** Generated entries stay what they are. */
  predicate Extends(a: TypeMap, b: TypeMap) {
    forall k :: k in a && TypeKey(k) ==> k in b && b[k] == a[k]
  }

  lemma {:induction false} SpellsExtended(a: TypeMap, b: TypeMap, key: string, s: Schema)
    requires Extends(a, b) && Spells(a, key, s)
    ensures Spells(b, key, s)
    decreases s, 2
  {
    FieldsSpellExtended(a, b, a[key], s.fields);
  }

  lemma {:induction false} FieldsSpellExtended(a: TypeMap, b: TypeMap, fs: seq<Field>, ss: seq<SchemaField>)
    requires Extends(a, b) && FieldsSpell(a, fs, ss)
    ensures FieldsSpell(b, fs, ss)
    decreases ss, 1
  {
    forall i | 0 <= i < |ss| ensures FieldSpells(b, fs[i], ss[i]) {
      if ss[i].kind.Struct? {
        SpellsExtended(a, b, fs[i].typ[..|fs[i].typ| - |ArraySuffix(ss[i].isArray)|], ss[i].kind.schema);
      }
    }
  }

  lemma {:induction false} FieldsSpellConcat(tm: TypeMap, f: seq<Field>, s: seq<SchemaField>, g: seq<Field>,
                                             t: seq<SchemaField>)
    requires FieldsSpell(tm, f, s) && FieldsSpell(tm, g, t)
    ensures FieldsSpell(tm, f + g, s + t)
  {
    hide FieldSpells;
    forall i | 0 <= i < |s + t| ensures FieldSpells(tm, (f + g)[i], (s + t)[i]) {
      if i >= |s| { assert (f + g)[i] == g[i - |s|] && (s + t)[i] == t[i - |s|]; }
    }
  }

  // ---- every reference is to an entry or a primitive ----

  predicate IsPrimitive(typ: string) {
    typ in {"string", "bool", "int64", "uint256"}
  }

  /** A type name without its array suffix. */
  function Element(typ: string): string {
    if |typ| >= 2 && typ[|typ| - 2..] == "[]" then typ[..|typ| - 2] else typ
  }

  predicate Known(tm: TypeMap, typ: string) {
    IsPrimitive(Element(typ)) || Element(typ) in tm
  }

  predicate AllKnown(tm: TypeMap, fs: seq<Field>) {
    forall i :: 0 <= i < |fs| ==> Known(tm, fs[i].typ)
  }

  predicate Closed(tm: TypeMap) {
    forall k :: k in tm ==> AllKnown(tm, tm[k])
  }

  lemma KeyReferenceKnown(tm: TypeMap, key: string, isArray: bool)
    requires key in tm && EndsInDigit(key)
    ensures Known(tm, key + ArraySuffix(isArray))
  {
    var typ := key + ArraySuffix(isArray);
    if isArray {
      assert typ[|typ| - 2..] == "[]" && typ[..|typ| - 2] == key;
    } else {
      assert typ == key;
      assert Decimal.IsDigit(key[|key| - 1]);
      if |key| >= 2 { assert key[|key| - 2..][1] == key[|key| - 1]; }
    }
  }

  lemma ScalarKnown(tm: TypeMap, typ: string, isArray: bool)
    requires typ in {"string", "bool", "int64"}
    ensures Known(tm, typ + ArraySuffix(isArray))
  {
    var t := typ + ArraySuffix(isArray);
    if isArray {
      assert t[|t| - 2..] == "[]" && t[..|t| - 2] == typ;
    } else {
      assert t == typ;
      assert "string"[4..] == "ng" && "bool"[2..] == "ol" && "int64"[3..] == "64";
    }
  }

  /** Entries are only added, under keys of the generated form. */
  predicate Grows(a: TypeMap, b: TypeMap) {
    && (forall k :: k in a ==> k in b && b[k] == a[k])
    && (forall k :: k in b && k !in a ==> TypeKey(k))
  }

  lemma ClosedInsert(tm: TypeMap, key: string, fields: seq<Field>)
    requires Closed(tm) && AllKnown(tm, fields) && (key !in tm || tm[key] == fields)
    ensures Closed(tm[key := fields])
  {
  }

  lemma KnownGrows(a: TypeMap, b: TypeMap, fs: seq<Field>)
    requires Grows(a, b) && AllKnown(a, fs)
    ensures AllKnown(b, fs)
  {
  }

  // ---- the walk keeps all of it ----

  /** Every field name in the document, at any depth, is made of letters, digits and underscores. */
  predicate Plain(j: Json) {
    match j
    case Arr(items) => forall x :: x in items ==> Plain(x)
    case Obj(ms) => forall m :: m in ms ==> PlainName(m.key) && Plain(m.value)
    case _ => true
  }

  lemma {:induction false} FindSlotFinds(tm: TypeMap, typeDef: string, fields: seq<Field>, n: nat)
    ensures var s := FindSlot(tm, typeDef, fields, n);
            s.Some? ==> var key := Indexed(typeDef, s.value); key !in tm || tm[key] == fields
    decreases MAX_DUPLICATES - n
  {
    hide Indexed;
    if n < MAX_DUPLICATES { FindSlotFinds(tm, typeDef, fields, n + 1); }
  }

  lemma AddTypesGood(tm: TypeMap, prefix: string, rootType: string, fields: seq<Field>, ss: seq<SchemaField>)
    requires Prefix(prefix) && StartsWithType(rootType)
    requires Closed(tm) && AllKnown(tm, fields) && FieldsSpell(tm, fields, ss)
    ensures var (after, key) := AddTypes(tm, TypeDefForPrefix(prefix, rootType), fields);
            && Grows(tm, after) && Closed(after)
            && (key.Some? ==>
                  && Spells(after, key.value, Schema(ss))
                  && (prefix != ROOT_PREFIX ==> Sanitize(key.value) == key.value))
  {
    hide Closed, AllKnown, FieldSpells, TypeKey, Sanitize, TypeDefForPrefix, Indexed, FindSlot, Prefix,
         StartsWithType, FieldsSpell;
    var def := TypeDefForPrefix(prefix, rootType);
    FindSlotFinds(tm, def, fields, 0);
    var s := FindSlot(tm, def, fields, 0);
    if s.Some? {
      var key := Indexed(def, s.value);
      GeneratedKey(prefix, rootType, s.value);
      ClosedInsert(tm, key, fields);
      FieldsSpellExtended(tm, tm[key := fields], fields, ss);
    }
  }

  lemma GrowsExtends(a: TypeMap, b: TypeMap, c: TypeMap)
    requires Grows(a, b) && Grows(b, c)
    ensures Grows(a, c) && Extends(a, b) && Extends(b, c)
  {
  }

  lemma {:induction false} AddObjectGood(tm: TypeMap, rootType: string, prefix: string, ms: seq<Member>)
    requires Plain(Obj(ms)) && Prefix(prefix) && StartsWithType(rootType) && Closed(tm)
    ensures var r := AddObject(tm, rootType, prefix, ms);
            r.key.Some? ==>
              && Grows(tm, r.tm) && Closed(r.tm)
              && Spells(r.tm, r.key.value, ObjectSchema(ms))
              && (prefix != ROOT_PREFIX ==> Sanitize(r.key.value) == r.key.value)
    decreases ms, |ms| + 1, 1
  {
    hide Plain, Prefix, StartsWithType, Closed, AllKnown, FieldsSpell, Sanitize, Spells, TypeKey, AddTypes,
         TypeDefForPrefix, SortedKeys, AddField, FieldSchema;
    AddFieldsGood(tm, rootType, prefix, ms, SortedKeys(ms));
    var r := AddFields(tm, rootType, prefix, ms, SortedKeys(ms));
    if r.fields.Some? {
      AddTypesGood(r.tm, prefix, rootType, r.fields.value, FieldSchemas(ms, SortedKeys(ms)));
      GrowsExtends(tm, r.tm, AddTypes(r.tm, TypeDefForPrefix(prefix, rootType), r.fields.value).0);
    }
  }

  lemma {:induction false} AddFieldsGood(tm: TypeMap, rootType: string, prefix: string, ms: seq<Member>,
                                         names: seq<string>)
    requires Plain(Obj(ms)) && Prefix(prefix) && StartsWithType(rootType) && Closed(tm)
    ensures var r := AddFields(tm, rootType, prefix, ms, names);
            r.fields.Some? ==>
              && Grows(tm, r.tm) && Closed(r.tm)
              && AllKnown(r.tm, r.fields.value) && FieldsSpell(r.tm, r.fields.value, FieldSchemas(ms, names))
    decreases ms, 0, |names|
  {
    hide Plain, Prefix, StartsWithType, Closed, FieldSpells, Known, TypeKey, AddField, FieldSchema;
    if names != [] {
      AddFieldGood(tm, rootType, prefix, ms, names[0]);
      var head := AddField(tm, rootType, prefix, ms, names[0]);
      if head.fields.Some? {
        AddFieldsGood(head.tm, rootType, prefix, ms, names[1..]);
        var rest := AddFields(head.tm, rootType, prefix, ms, names[1..]);
        if rest.fields.Some? {
          GrowsExtends(tm, head.tm, rest.tm);
          KnownGrows(head.tm, rest.tm, head.fields.value);
          FieldsSpellExtended(head.tm, rest.tm, head.fields.value, FieldSchema(ms, names[0]));
          FieldsSpellConcat(rest.tm, head.fields.value, FieldSchema(ms, names[0]),
                            rest.fields.value, FieldSchemas(ms, names[1..]));
        }
      }
    }
  }

  lemma {:induction false} AddFieldGood(tm: TypeMap, rootType: string, prefix: string, ms: seq<Member>, name: string)
    requires Plain(Obj(ms)) && Prefix(prefix) && StartsWithType(rootType) && Closed(tm)
    ensures var r := AddField(tm, rootType, prefix, ms, name);
            r.fields.Some? ==>
              && Grows(tm, r.tm) && Closed(r.tm)
              && AllKnown(r.tm, r.fields.value) && FieldsSpell(r.tm, r.fields.value, FieldSchema(ms, name))
    decreases ms, 0, 0
  {
    hide Prefix, StartsWithType, Closed, Known, TypeKey, Sanitize, Spells, AddObject, ObjectSchema, Grows, FieldSpells;
    var k := IndexOf(ms, name);
    GrowsNothing(tm);
    if k >= 0 {
      var v := ms[k].value;
      assert ms[k] in ms;
      var x := Sample(v);
      if v.Arr? && v.items == [] {
        ScalarGood(tm, name, "string", true);
        assert "string" + "[]" == "string[]";
      } else if EthType(x) != "" {
        ScalarGood(tm, name, EthType(x), v.Arr?);
      } else if x.Obj? {
        assert Plain(x);
        SubPrefixIsPrefix(prefix, name);
        AddObjectGood(tm, rootType, SubPrefix(prefix, name), x.members);
        var r := AddObject(tm, rootType, SubPrefix(prefix, name), x.members);
        if r.key.Some? { ReferenceGood(r.tm, r.key.value, name, ObjectSchema(x.members), v.Arr?); }
      }
    }
  }

  lemma GrowsNothing(tm: TypeMap)
    ensures Grows(tm, tm)
  {
  }

  lemma ScalarGood(tm: TypeMap, name: string, typ: string, isArray: bool)
    requires typ in {"string", "bool", "int64"}
    ensures var f := Field(name, typ + ArraySuffix(isArray));
            Known(tm, f.typ) && FieldSpells(tm, f, SchemaField(name, Scalar(typ), isArray))
  {
    hide Known;
    ScalarKnown(tm, typ, isArray);
  }

  lemma ReferenceGood(tm: TypeMap, key: string, name: string, s: Schema, isArray: bool)
    requires Spells(tm, key, s)
    ensures var f := Field(name, key + ArraySuffix(isArray));
            Known(tm, f.typ) && FieldSpells(tm, f, SchemaField(name, Struct(s), isArray))
  {
    hide Known, FieldsSpell;
    KeyReferenceKnown(tm, key, isArray);
    var typ, suffix := key + ArraySuffix(isArray), ArraySuffix(isArray);
    assert typ[..|typ| - |suffix|] == key;
  }
}
