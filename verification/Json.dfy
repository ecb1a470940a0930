/** JSON documents as the EIP-712 encoder sees them through gjson: objects are ordered member lists,
    read by key. */
module Json {

  datatype Json =
    | Null
    | Bool(b: bool)
    | Number(text: string)
    | Str(s: string)
    | Arr(items: seq<Json>)
    | Obj(members: seq<Member>)

  datatype Member = Member(key: string, value: Json)

  /** The index of a key among the members, or -1. */
  function IndexOf(ms: seq<Member>, key: string): (k: int)
    ensures -1 <= k < |ms|
    ensures k >= 0 ==> ms[k].key == key
    ensures k < 0 ==> forall i :: 0 <= i < |ms| ==> ms[i].key != key
  {
    if ms == [] then -1
    else if ms[0].key == key then 0
    else
      var k := IndexOf(ms[1..], key);
      assert k < 0 ==> forall i :: 0 < i < |ms| ==> ms[i] == ms[1..][i - 1];
      if k < 0 then -1 else k + 1
  }

  predicate Has(ms: seq<Member>, key: string) {
    IndexOf(ms, key) >= 0
  }

  function Get(ms: seq<Member>, key: string): Json
    requires Has(ms, key)
  {
    ms[IndexOf(ms, key)].value
  }

  predicate UniqueKeys(ms: seq<Member>) {
    forall i, j :: 0 <= i < j < |ms| ==> ms[i].key != ms[j].key
  }

  lemma UniqueIndex(ms: seq<Member>, i: nat)
    requires UniqueKeys(ms) && i < |ms|
    ensures IndexOf(ms, ms[i].key) == i
  {
  }

  /** No object anywhere in the document repeats a key. */
  predicate WellKeyed(j: Json) {
    match j
    case Arr(items) => forall x :: x in items ==> WellKeyed(x)
    case Obj(members) => UniqueKeys(members) && forall m :: m in members ==> WellKeyed(m.value)
    case _ => true
  }

  /** Equal as nested maps: objects may list their members in any order, arrays may not. */
  predicate Same(a: Json, b: Json)
    decreases a
  {
    match a
    case Arr(xs) => b.Arr? && |b.items| == |xs| && forall i :: 0 <= i < |xs| ==> Same(xs[i], b.items[i])
    case Obj(ms) =>
      && b.Obj?
      && (forall i :: 0 <= i < |b.members| ==> Has(ms, b.members[i].key))
      && (forall i :: 0 <= i < |ms| ==> Has(b.members, ms[i].key) && Same(ms[i].value, Get(b.members, ms[i].key)))
    case _ => a == b
  }

  lemma {:induction false} SameReflexive(j: Json)
    requires WellKeyed(j)
    ensures Same(j, j)
  {
    match j {
      case Arr(items) =>
        forall i | 0 <= i < |items| ensures Same(items[i], items[i]) { SameReflexive(items[i]); }
      case Obj(ms) =>
        forall i | 0 <= i < |ms| ensures Has(ms, ms[i].key) && Same(ms[i].value, Get(ms, ms[i].key)) {
          UniqueIndex(ms, i);
          assert ms[i] in ms;
          SameReflexive(ms[i].value);
        }
      case _ =>
    }
  }
}
