/** Flattening of a sign document's messages (`ethereum/eip712/message.go`): the array `msgs` becomes
    the members `msg0`, `msg1`, ... */
module Eip712Message {
  import opened Json
  import Decimal

  const MSGS := "msgs"

  datatype Result<T> = Ok(value: T) | Err

  function MsgField(i: nat): string {
    "msg" + Decimal.Render(i)
  }

  lemma MsgFieldInjective(i: nat, j: nat)
    requires MsgField(i) == MsgField(j)
    ensures i == j
  {
    assert MsgField(i)[3..] == Decimal.Render(i) && MsgField(j)[3..] == Decimal.Render(j);
    Decimal.RenderInjective(i, j);
  }

  // ---- the steps ----

  /** `getPayloadMessages`. */
  function Messages(ms: seq<Member>): (r: Result<seq<Json>>)
    ensures r.Ok? ==> Has(ms, MSGS)
  {
    if !Has(ms, MSGS) then Err
    else
      match Get(ms, MSGS)
      case Null => Ok([])
      case Arr(items) => Ok(items)
      case _ => Err
  }

  /** `payloadWithoutMsgsField`: sjson drops the member. */
  function Without(ms: seq<Member>, key: string): seq<Member> {
    var k := IndexOf(ms, key);
    if k < 0 then ms else ms[..k] + ms[k + 1..]
  }

  /** `msg0` to `msg{n-1}` for messages `items`, from number `i` on. */
  function Numbered(items: seq<Json>, i: nat): seq<Member> {
    if items == [] then [] else [Member(MsgField(i), items[0])] + Numbered(items[1..], i + 1)
  }

  /** `payloadWithNewMessage` in a loop: sjson appends each new member at the end. */
  method FlattenPayloadMessages(ms: seq<Member>) returns (r: Result<(seq<Member>, nat)>)
    ensures r == Flatten(ms)
  {
    hide Messages, MsgField, IndexOf, Has, Without, Numbered;
    var msgs := Messages(ms);
    if msgs.Err? { return Err; }
    var items := msgs.value;
    var flattened := ms;
    NumberedEmpty();
    assert items[..0] == [] && ms + [] == ms;
    for i := 0 to |items|
      invariant forall j :: 0 <= j < i ==> !BlockedAt(ms, items, j)
      invariant flattened == ms + Numbered(items[..i], 0)
    {
      var field := MsgField(i);
      HasAppended(ms, items, i);
      if Has(flattened, field) {
        assert BlockedAt(ms, items, i);
        return Err;
      }
      if !items[i].Obj? {
        assert BlockedAt(ms, items, i);
        return Err;
      }
      NumberedSnoc(items[..i], items[i], 0);
      assert items[..i] + [items[i]] == items[..i + 1];
      flattened := flattened + [Member(field, items[i])];
    }
    assert items[..|items|] == items;
    WithoutAppended(ms, items);
    return Ok((Without(flattened, MSGS), |items|));
  }

  // ---- what flattening yields ----

  /** The message that stops flattening: its key is taken, or it is not an object. */
  predicate BlockedAt(ms: seq<Member>, items: seq<Json>, i: nat)
    requires i < |items|
  {
    Has(ms, MsgField(i)) || !items[i].Obj?
  }

  predicate Blocked(ms: seq<Member>, items: seq<Json>) {
    exists i :: 0 <= i < |items| && BlockedAt(ms, items, i)
  }

  /** Flattening fails exactly when `msgs` is missing or neither an array nor null, a message is not an
      object, or a key `msg{i}` is taken; otherwise the members other than `msgs` stay in order and
      the messages follow them. */
  function Flatten(ms: seq<Member>): Result<(seq<Member>, nat)> {
    var msgs := Messages(ms);
    if msgs.Err? || Blocked(ms, msgs.value) then Err
    else Ok((Without(ms, MSGS) + Numbered(msgs.value, 0), |msgs.value|))
  }

  lemma {:induction false} NumberedSnoc(items: seq<Json>, x: Json, i: nat)
    ensures Numbered(items + [x], i) == Numbered(items, i) + [Member(MsgField(i + |items|), x)]
    decreases |items|
  {
    hide MsgField;
    if items == [] {
      assert items + [x] == [x] && [x][1..] == [];
    } else {
      assert (items + [x])[1..] == items[1..] + [x];
      NumberedSnoc(items[1..], x, i + 1);
    }
  }

  lemma {:induction false} NumberedAt(items: seq<Json>, i: nat, k: nat)
    requires k < |items|
    ensures |Numbered(items, i)| == |items| && Numbered(items, i)[k] == Member(MsgField(i + k), items[k])
    decreases |items|
  {
    hide MsgField;
    if |items| > 1 { NumberedAt(items[1..], i + 1, if k > 0 then k - 1 else 0); }
  }

  lemma {:induction false} IndexOfConcat(a: seq<Member>, b: seq<Member>, key: string)
    ensures IndexOf(a + b, key)
         == if Has(a, key) then IndexOf(a, key) else if Has(b, key) then |a| + IndexOf(b, key) else -1
    decreases |a|
  {
    if a == [] {
      assert a + b == b;
    } else {
      assert (a + b)[1..] == a[1..] + b;
      IndexOfConcat(a[1..], b, key);
    }
  }

  lemma NumberedKeys(items: seq<Json>, key: string)
    ensures Has(Numbered(items, 0), key) <==> exists k :: 0 <= k < |items| && key == MsgField(k)
  {
    hide MsgField, Numbered;
    if items != [] {
      NumberedAt(items, 0, 0);
      var i := IndexOf(Numbered(items, 0), key);
      if i >= 0 {
        NumberedAt(items, 0, i);
        assert key == MsgField(i);
      }
      if k :| 0 <= k < |items| && key == MsgField(k) { NumberedAt(items, 0, k); }
    } else {
      NumberedEmpty();
    }
  }

  lemma NumberedEmpty()
    ensures Numbered([], 0) == []
  {
  }

  /** A key the loop adds is new: earlier additions have other numbers. */
  lemma HasAppended(ms: seq<Member>, items: seq<Json>, i: nat)
    requires i < |items|
    ensures Has(ms + Numbered(items[..i], 0), MsgField(i)) <==> Has(ms, MsgField(i))
  {
    hide MsgField, Numbered, IndexOf;
    IndexOfConcat(ms, Numbered(items[..i], 0), MsgField(i));
    NumberedKeys(items[..i], MsgField(i));
    if k :| 0 <= k < i && MsgField(i) == MsgField(k) { MsgFieldInjective(i, k); }
  }

  lemma WithoutAppended(ms: seq<Member>, items: seq<Json>)
    requires Has(ms, MSGS)
    ensures Without(ms + Numbered(items, 0), MSGS) == Without(ms, MSGS) + Numbered(items, 0)
  {
    hide MsgField, Numbered;
    IndexOfConcat(ms, Numbered(items, 0), MSGS);
    var k, b := IndexOf(ms, MSGS), Numbered(items, 0);
    assert (ms + b)[..k] == ms[..k] && (ms + b)[k + 1..] == ms[k + 1..] + b;
  }

  // ---- flattening can be undone ----

  /** The last `n` members' values, put back into an array under `msgs`. */
  function Unflatten(ms: seq<Member>, n: nat): seq<Member>
    requires n <= |ms|
  {
    var first := |ms| - n;
    ms[..first] + [Member(MSGS, Arr(seq(n, k requires 0 <= k < n => ms[first + k].value)))]
  }

  lemma UnflattenFlatten(ms: seq<Member>)
    requires Flatten(ms).Ok?
    ensures Messages(ms).Ok?
    ensures var (flat, n) := Flatten(ms).value;
            n <= |flat| && Unflatten(flat, n) == Without(ms, MSGS) + [Member(MSGS, Arr(Messages(ms).value))]
  {
    hide Numbered, Without, MsgField, Messages, Blocked;
    var items := Messages(ms).value;
    var (flat, n) := Flatten(ms).value;
    if items == [] { NumberedEmpty(); } else { NumberedAt(items, 0, 0); }
    var first := |flat| - n;
    assert flat[..first] == Without(ms, MSGS);
    forall k | 0 <= k < n ensures flat[first + k].value == items[k] { NumberedAt(items, 0, k); }
    assert seq(n, k requires 0 <= k < n => flat[first + k].value) == items;
  }

  /** Without `msgs` the other members are all still there, with their values. */
  lemma WithoutKeeps(ms: seq<Member>, key: string, i: nat)
    requires i < |ms| && ms[i].key != key
    ensures ms[i] in Without(ms, key)
  {
  }

  lemma WithoutFrom(ms: seq<Member>, key: string, j: nat) returns (i: nat)
    requires j < |Without(ms, key)|
    ensures i < |ms| && Without(ms, key)[j] == ms[i]
  {
    var k := IndexOf(ms, key);
    i := if k >= 0 && j >= k then j + 1 else j;
  }

  /** Flattening forgets only where `msgs` stood and whether it was null: putting the messages back
      gives the original, as nested maps, exactly when `msgs` was an array. */
  lemma FlattenRecovers(ms: seq<Member>)
    requires WellKeyed(Obj(ms)) && Flatten(ms).Ok?
    ensures var (flat, n) := Flatten(ms).value;
            n <= |flat| && (Same(Obj(Unflatten(flat, n)), Obj(ms)) <==> Get(ms, MSGS).Arr?)
  {
    hide Flatten, Unflatten, Without;
    UnflattenFlatten(ms);
    var items := Messages(ms).value;
    var back := Without(ms, MSGS) + [Member(MSGS, Arr(items))];
    assert back[|back| - 1] == Member(MSGS, Arr(items));
    if Get(ms, MSGS).Arr? {
      forall i | 0 <= i < |back| ensures Has(ms, back[i].key) && Same(back[i].value, Get(ms, back[i].key)) {
        MemberRecovered(ms, back, i);
      }
      forall i | 0 <= i < |ms| ensures Has(back, ms[i].key) {
        if ms[i].key != MSGS {
          WithoutKeeps(ms, MSGS, i);
          assert ms[i] in back;
        }
      }
    } else {
      assert !Same(back[|back| - 1].value, Get(ms, MSGS));
    }
  }

  lemma MemberRecovered(ms: seq<Member>, back: seq<Member>, i: nat)
    requires WellKeyed(Obj(ms)) && Has(ms, MSGS) && Get(ms, MSGS).Arr?
    requires back == Without(ms, MSGS) + [Member(MSGS, Get(ms, MSGS))] && i < |back|
    ensures Has(ms, back[i].key) && Same(back[i].value, Get(ms, back[i].key))
  {
    hide Same, Without, IndexOf;
    if i < |back| - 1 {
      var j := WithoutFrom(ms, MSGS, i);
      UniqueIndex(ms, j);
      assert ms[j] in ms;
      SameReflexive(ms[j].value);
    } else {
      assert ms[IndexOf(ms, MSGS)] in ms;
      SameReflexive(Get(ms, MSGS));
    }
  }

  /** `{"msgs": null}` flattens like `{"msgs": []}` and comes back as the latter. */
  lemma NullMessagesLost()
    ensures var ms := [Member("msgs", Null)];
            && Flatten(ms) == Ok(([], 0)) == Flatten([Member("msgs", Arr([]))])
            && Unflatten([], 0) == [Member("msgs", Arr([]))] && !Same(Obj(Unflatten([], 0)), Obj(ms))
  {
    var ms, es := [Member(MSGS, Null)], [Member(MSGS, Arr([]))];
    assert IndexOf(ms, MSGS) == 0 && IndexOf(es, MSGS) == 0;
    assert Without(ms, MSGS) == [] && Without(es, MSGS) == [];
    assert Numbered([], 0) == [];
    assert Unflatten([], 0)[0].value.items == [];
    assert Unflatten([], 0) == es;
    assert es[0].value == Arr([]);
  }

  /** Message 12 goes under `msg12`. */
  lemma MessageKeys()
    ensures MsgField(0) == "msg0" && MsgField(12) == "msg12"
  {
    assert Decimal.Digits(0) == [0] && Decimal.Digits(12) == [1, 2];
    assert Decimal.Render(0) == "0" && Decimal.Render(12) == "12";
  }
}
