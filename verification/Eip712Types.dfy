/** Inference of EIP-712 types from JSON messages (`ethereum/eip712/types.go`). Objects become entries
    of one shared type map; equal field lists share an entry, different ones under the same name are
    numbered. */
module Eip712Types {
  import opened Wrappers
  import opened Json
  import opened Strings
  import Decimal

  datatype Field = Field(name: string, typ: string)

  type TypeMap = map<string, seq<Field>>

  const ROOT_PREFIX := "_"
  const TYPE_PREFIX := "Type"
  const MAX_DUPLICATES := 1000

  // ---- names ----

  function Split(s: string, sep: char): (parts: seq<string>)
    ensures |parts| > 0
  {
    if s == "" then [""]
    else
      var rest := Split(s[1..], sep);
      if s[0] == sep then [""] + rest else [[s[0]] + rest[0]] + rest[1..]
  }

  predicate IsLower(c: char) {
    'a' <= c <= 'z'
  }

  predicate IsUpper(c: char) {
    'A' <= c <= 'Z'
  }

  function Upper(c: char): char
    requires IsLower(c)
  {
    "ABCDEFGHIJKLMNOPQRSTUVWXYZ"[c as int - 'a' as int]
  }

  /** The English title caser without lowering, on a word of letters and digits: its first letter is
      capitalised. */
  function Title(s: string): string {
    if s == "" then ""
    else if IsLower(s[0]) then [Upper(s[0])] + s[1..]
    else if IsUpper(s[0]) then s
    else [s[0]] + Title(s[1..])
  }

  function TitleAll(parts: seq<string>): string {
    if parts == [] then "" else Title(parts[0]) + TitleAll(parts[1..])
  }

  function SanitizeParts(parts: seq<string>): string {
    if parts == [] then ""
    else (if parts[0] == ROOT_PREFIX then TYPE_PREFIX else TitleAll(Split(parts[0], '_'))) + SanitizeParts(parts[1..])
  }

  /** `_.foo_bar.baz` becomes `TypeFooBarBaz`. */
  function Sanitize(s: string): string {
    SanitizeParts(Split(s, '.'))
  }

  function TypeDefForPrefix(prefix: string, rootType: string): string {
    if prefix == ROOT_PREFIX then rootType else Sanitize(prefix)
  }

  function SubPrefix(prefix: string, name: string): string {
    prefix + "." + name
  }

  function Indexed(typeDef: string, n: nat): string {
    typeDef + Decimal.Render(n)
  }

  // ---- sorted keys ----

  function Keys(ms: seq<Member>): seq<string> {
    seq(|ms|, i requires 0 <= i < |ms| => ms[i].key)
  }

  function Insert(x: string, xs: seq<string>): seq<string> {
    if xs == [] || !Less(x, xs[0]) then [x] + xs else [xs[0]] + Insert(x, xs[1..])
  }

  /** `sort.Slice` with `strings.Compare(a, b) > 0`: descending. */
  function SortDescending(xs: seq<string>): seq<string> {
    if xs == [] then [] else Insert(xs[0], SortDescending(xs[1..]))
  }

  function SortedKeys(ms: seq<Member>): seq<string> {
    SortDescending(Keys(ms))
  }

  // ---- adding types ----

  /** The first number under which the entry is free or already holds the same fields. */
  function FindSlot(tm: TypeMap, typeDef: string, fields: seq<Field>, n: nat): Option<nat>
    decreases MAX_DUPLICATES - n
  {
    if n >= MAX_DUPLICATES then None
    else
      var key := Indexed(typeDef, n);
      if key !in tm || tm[key] == fields then Some(n) else FindSlot(tm, typeDef, fields, n + 1)
  }

  function AddTypes(tm: TypeMap, typeDef: string, fields: seq<Field>): (TypeMap, Option<string>) {
    match FindSlot(tm, typeDef, fields, 0)
    case None => (tm, None)
    case Some(n) => (tm[Indexed(typeDef, n) := fields], Some(Indexed(typeDef, n)))
  }

  /** The Ethereum type of a scalar, or nothing. */
  function EthType(j: Json): string {
    match j
    case Bool(_) => "bool"
    case Number(_) => "int64"
    case Str(_) => "string"
    case _ => ""
  }

  /** What stands for a field: the first element of an array stands for the array. */
  function Sample(j: Json): (r: Json)
    ensures r == j || r < j
  {
    if j.Arr? && j.items != [] then j.items[0] else j
  }

  function Suffix(j: Json): string {
    if j.Arr? then "[]" else ""
  }

  datatype Added = Added(tm: TypeMap, key: Option<string>)
  datatype AddedFields = AddedFields(tm: TypeMap, fields: Option<seq<Field>>)

  /** `recursivelyAddTypesToRoot`. */
  function AddObject(tm: TypeMap, rootType: string, prefix: string, ms: seq<Member>): Added
    decreases ms, |ms| + 1, 1
  {
    var r := AddFields(tm, rootType, prefix, ms, SortedKeys(ms));
    if r.fields.None? then Added(r.tm, None)
    else
      var (t, key) := AddTypes(r.tm, TypeDefForPrefix(prefix, rootType), r.fields.value);
      Added(t, key)
  }

  /** The fields of the given names, in order. */
  function AddFields(tm: TypeMap, rootType: string, prefix: string, ms: seq<Member>, names: seq<string>): AddedFields
    decreases ms, 0, |names|
  {
    if names == [] then AddedFields(tm, Some([]))
    else
      var head := AddField(tm, rootType, prefix, ms, names[0]);
      if head.fields.None? then head
      else
        var rest := AddFields(head.tm, rootType, prefix, ms, names[1..]);
        if rest.fields.None? then rest else AddedFields(rest.tm, Some(head.fields.value + rest.fields.value))
  }

  /** One field: none for a null, for an array of arrays or of nulls; a type name otherwise. */
  function AddField(tm: TypeMap, rootType: string, prefix: string, ms: seq<Member>, name: string): AddedFields
    decreases ms, 0, 0
  {
    var k := IndexOf(ms, name);
    if k < 0 then AddedFields(tm, Some([]))
    else
      var v := ms[k].value;
      if v.Arr? && v.items == [] then AddedFields(tm, Some([Field(name, "string[]")]))
      else
        var x := Sample(v);
        if EthType(x) != "" then AddedFields(tm, Some([Field(name, EthType(x) + Suffix(v))]))
        else if x.Obj? then
          var r := AddObject(tm, rootType, SubPrefix(prefix, name), x.members);
          if r.key.None? then AddedFields(r.tm, None)
          else AddedFields(r.tm, Some([Field(name, Sanitize(r.key.value) + Suffix(v))]))
        else AddedFields(tm, Some([]))
  }
}
