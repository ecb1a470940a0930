/** The type builder as it runs: one type map, updated in place while the messages are walked
    (`ethereum/eip712/types.go`). */
module Eip712Builder {
  import opened Wrappers
  import opened Json
  import opened Eip712Types
  import opened Eip712Create
  import opened Eip712Message

  method TypesAreEqual(a: seq<Field>, b: seq<Field>) returns (equal: bool)
    ensures equal <==> a == b
  {
    if |a| != |b| { return false; }
    for i := 0 to |a|
      invariant a[..i] == b[..i]
    {
      if a[i].name != b[i].name || a[i].typ != b[i].typ { return false; }
    }
    return true;
  }

  method SanitizeTypedef(str: string) returns (buf: string)
    ensures buf == Sanitize(str)
  {
    hide Title, Split;
    buf := "";
    var parts := Split(str, '.');
    for i := 0 to |parts|
      invariant buf + SanitizeParts(parts[i..]) == Sanitize(str)
    {
      SanitizePartsStep(parts, i);
      if parts[i] == ROOT_PREFIX {
        buf := buf + TYPE_PREFIX;
      } else {
        var before, subparts := buf, Split(parts[i], '_');
        for j := 0 to |subparts|
          invariant buf + TitleAll(subparts[j..]) == before + TitleAll(subparts)
        {
          assert subparts[j..][1..] == subparts[j + 1..];
          buf := buf + Title(subparts[j]);
        }
        assert subparts[|subparts|..] == [];
        assert buf == before + TitleAll(subparts);
      }
    }
    assert parts[|parts|..] == [];
  }

  lemma SanitizePartsStep(parts: seq<string>, i: nat)
    requires i < |parts|
    ensures SanitizeParts(parts[i..]) ==
            (if parts[i] == ROOT_PREFIX then TYPE_PREFIX else TitleAll(Split(parts[i], '_')))
            + SanitizeParts(parts[i + 1..])
  {
  }

  class TypeBuilder {
    var types: TypeMap

    constructor ()
      ensures types == BASE
    {
      types := BASE;
    }

    /** An equal entry is reused, a different one under the same name moves on to the next number. */
    method AddTypesToRoot(typeDef: string, fields: seq<Field>) returns (key: Option<string>)
      modifies this
      ensures (types, key) == AddTypes(old(types), typeDef, fields)
    {
      hide Indexed;
      var n := 0;
      var indexed := Indexed(typeDef, n);
      while indexed in types
        invariant n < MAX_DUPLICATES && indexed == Indexed(typeDef, n)
        invariant types == old(types)
        invariant FindSlot(types, typeDef, fields, n) == FindSlot(types, typeDef, fields, 0)
        decreases MAX_DUPLICATES - n
      {
        var same := TypesAreEqual(fields, types[indexed]);
        if same {
          assert types[indexed := fields] == types;
          return Some(indexed);
        }
        n := n + 1;
        if n == MAX_DUPLICATES { return None; }
        indexed := Indexed(typeDef, n);
      }
      types := types[indexed := fields];
      return Some(indexed);
    }

    /** The type of one field, adding the types of its objects. */
    method AddFieldTypes(rootType: string, prefix: string, ms: seq<Member>, name: string)
      returns (fields: Option<seq<Field>>)
      modifies this
      ensures AddedFields(types, fields) == AddField(old(types), rootType, prefix, ms, name)
      decreases ms, 0
    {
      hide IndexOf, Sanitize, AddObject;
      if !Has(ms, name) { return Some([]); }
      var field, suffix := Get(ms, name), "";
      if field.Arr? {
        if field.items == [] { return Some([Field(name, "string[]")]); }
        field, suffix := field.items[0], "[]";
      }
      if EthType(field) != "" { return Some([Field(name, EthType(field) + suffix)]); }
      if field.Obj? {
        var key := RecursivelyAddTypesToRoot(rootType, SubPrefix(prefix, name), field.members);
        if key.None? { return None; }
        var typeDef := SanitizeTypedef(key.value);
        return Some([Field(name, typeDef + suffix)]);
      }
      return Some([]);
    }

    method RecursivelyAddTypesToRoot(rootType: string, prefix: string, ms: seq<Member>) returns (key: Option<string>)
      modifies this
      ensures Added(types, key) == AddObject(old(types), rootType, prefix, ms)
      decreases ms, 1
    {
      hide AddField, SortedKeys, AddTypes, TypeDefForPrefix;
      var typesToAdd, names := [], SortedKeys(ms);
      assert names[0..] == names;
      PrefixedEmpty(AddFields(types, rootType, prefix, ms, names));
      for i := 0 to |names|
        invariant AddFields(old(types), rootType, prefix, ms, names)
               == Prefixed(typesToAdd, AddFields(types, rootType, prefix, ms, names[i..]))
      {
        assert names[i..][1..] == names[i + 1..];
        ghost var before := types;
        var fields := AddFieldTypes(rootType, prefix, ms, names[i]);
        PrefixedStep(before, rootType, prefix, ms, names[i..], typesToAdd);
        if fields.None? { return None; }
        typesToAdd := typesToAdd + fields.value;
      }
      assert names[|names|..] == [] && typesToAdd + [] == typesToAdd;
      key := AddTypesToRoot(TypeDefForPrefix(prefix, rootType), typesToAdd);
    }

    method AddMsgTypesToRoot(field: string, msg: Json) returns (ok: bool)
      modifies this
      ensures Step(types, ok) == AddMsg(old(types), field, msg)
    {
      hide AddObject, RootType;
      if !msg.Obj? { return false; }
      var root := RootType(msg.members);
      if root.None? { return false; }
      var key := RecursivelyAddTypesToRoot(root.value, ROOT_PREFIX, msg.members);
      if key.None? { return false; }
      types := WithTxField(types, Field(field, key.value));
      return true;
    }
  }

  /** Fields found earlier, in front of the result for the remaining names. */
  ghost function Prefixed(fields: seq<Field>, r: AddedFields): AddedFields {
    if r.fields.None? then r else AddedFields(r.tm, Some(fields + r.fields.value))
  }

  lemma PrefixedEmpty(r: AddedFields)
    ensures Prefixed([], r) == r
  {
    if r.fields.Some? { assert [] + r.fields.value == r.fields.value; }
  }

  lemma PrefixedStep(tm: TypeMap, rootType: string, prefix: string, ms: seq<Member>, names: seq<string>,
                     done: seq<Field>)
    requires names != []
    ensures var head := AddField(tm, rootType, prefix, ms, names[0]);
            Prefixed(done, AddFields(tm, rootType, prefix, ms, names)) ==
            if head.fields.None? then head
            else Prefixed(done + head.fields.value, AddFields(head.tm, rootType, prefix, ms, names[1..]))
  {
    hide AddField;
    var head := AddField(tm, rootType, prefix, ms, names[0]);
    if head.fields.Some? {
      var rest := AddFields(head.tm, rootType, prefix, ms, names[1..]);
      if rest.fields.Some? {
        var h, r := head.fields.value, rest.fields.value;
        assert done + (h + r) == (done + h) + r;
      }
    }
  }

  method CreateEIP712Types(ms: seq<Member>, n: nat) returns (r: Option<TypeMap>)
    ensures r == Create(ms, n)
  {
    hide AddMsg, MsgField, Lookup;
    var builder := new TypeBuilder();
    for i := 0 to n
      invariant fresh(builder)
      invariant AddMsgs(BASE, ms, i) == Step(builder.types, true)
    {
      var field := MsgField(i);
      var ok := builder.AddMsgTypesToRoot(field, Lookup(ms, field));
      if !ok {
        AddMsgsStops(ms, i + 1, n);
        return None;
      }
    }
    return Some(builder.types);
  }

  lemma {:induction false} AddMsgsStops(ms: seq<Member>, i: nat, n: nat)
    requires i <= n && !AddMsgs(BASE, ms, i).ok
    ensures !AddMsgs(BASE, ms, n).ok
    decreases n
  {
    hide AddMsg, MsgField, Lookup;
    if i < n { AddMsgsStops(ms, i, n - 1); }
  }
}
