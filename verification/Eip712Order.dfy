/** Type inference does not depend on the order in which JSON objects list their members. */
module Eip712Order {
  import opened Json
  import opened Strings
  import opened Eip712Types

  /** Strictly descending. */
  predicate Descending(xs: seq<string>) {
    forall i, j :: 0 <= i < j < |xs| ==> Less(xs[j], xs[i])
  }

  lemma DescendingCons(x: string, xs: seq<string>)
    ensures Descending([x] + xs) <==> Descending(xs) && forall i :: 0 <= i < |xs| ==> Less(xs[i], x)
  {
    hide Less;
    var ys := [x] + xs;
    if Descending(ys) {
      forall i | 0 <= i < |xs| ensures Less(xs[i], x) { assert ys[i + 1] == xs[i] && ys[0] == x; }
      forall i, j | 0 <= i < j < |xs| ensures Less(xs[j], xs[i]) { assert ys[i + 1] == xs[i] && ys[j + 1] == xs[j]; }
    }
  }

  lemma {:induction false} InsertDescending(x: string, xs: seq<string>)
    requires Descending(xs) && x !in xs
    ensures Descending(Insert(x, xs))
    ensures forall y :: y in Insert(x, xs) <==> y == x || y in xs
  {
    if xs == [] || !Less(x, xs[0]) {
      forall i | 0 <= i < |xs| ensures Less(xs[i], x) {
        LessTotal(x, xs[0]);
        if i > 0 { LessTransitive(xs[i], xs[0], x); }
      }
      DescendingCons(x, xs);
    } else {
      var h, t := xs[0], xs[1..];
      assert xs == [h] + t;
      DescendingCons(h, t);
      InsertDescending(x, t);
      forall i | 0 <= i < |Insert(x, t)| ensures Less(Insert(x, t)[i], h) {
        assert Insert(x, t)[i] == x || Insert(x, t)[i] in t;
      }
      DescendingCons(h, Insert(x, t));
    }
  }

  predicate Distinct(xs: seq<string>) {
    forall i, j :: 0 <= i < j < |xs| ==> xs[i] != xs[j]
  }

  lemma {:induction false} SortSorts(xs: seq<string>)
    requires Distinct(xs)
    ensures Descending(SortDescending(xs))
    ensures forall y :: y in SortDescending(xs) <==> y in xs
  {
    hide Insert, Less;
    if xs != [] {
      var t := xs[1..];
      assert xs[0] !in t;
      SortSorts(t);
      InsertDescending(xs[0], SortDescending(t));
      assert xs == [xs[0]] + t;
    }
  }

  /** A descending list is determined by its elements. */
  lemma {:induction false} DescendingUnique(xs: seq<string>, ys: seq<string>)
    requires Descending(xs) && Descending(ys)
    requires forall z :: z in xs <==> z in ys
    ensures xs == ys
  {
    hide Less;
    assert xs != [] ==> xs[0] in xs;
    assert ys != [] ==> ys[0] in ys;
    if xs != [] {
      var s, t := xs[1..], ys[1..];
      assert xs == [xs[0]] + s && ys == [ys[0]] + t;
      DescendingCons(xs[0], s);
      DescendingCons(ys[0], t);
      HeadsAgree(xs, ys);
      forall z ensures z in s <==> z in t { TailMember(xs, z); TailMember(ys, z); }
      DescendingUnique(s, t);
    }
  }

  lemma HeadsAgree(xs: seq<string>, ys: seq<string>)
    requires Descending(xs) && Descending(ys) && xs != [] && ys != []
    requires forall z :: z in xs <==> z in ys
    ensures xs[0] == ys[0]
  {
    hide Less;
    assert xs[0] in ys && ys[0] in xs;
    var i :| 0 <= i < |ys| && ys[i] == xs[0];
    var j :| 0 <= j < |xs| && xs[j] == ys[0];
    if i > 0 && j > 0 { LessAsymmetric(xs[0], ys[0]); }
  }

  lemma TailMember(xs: seq<string>, z: string)
    requires Descending(xs) && xs != []
    ensures z in xs[1..] <==> z in xs && z != xs[0]
  {
    hide Less;
    var t := xs[1..];
    assert xs == [xs[0]] + t;
    DescendingCons(xs[0], t);
    LessIrreflexive(xs[0]);
  }

  lemma KeysOf(ms: seq<Member>)
    requires UniqueKeys(ms)
    ensures Distinct(Keys(ms))
    ensures forall k :: k in Keys(ms) <==> Has(ms, k)
  {
    var ks := Keys(ms);
    forall k ensures k in ks <==> Has(ms, k) {
      if Has(ms, k) { assert ks[IndexOf(ms, k)] == k; }
      if k in ks {
        var i :| 0 <= i < |ks| && ks[i] == k;
        assert ms[i].key == k;
      }
    }
  }

  lemma SameKeys(a: seq<Member>, b: seq<Member>)
    requires UniqueKeys(a) && UniqueKeys(b) && Same(Obj(a), Obj(b))
    ensures SortedKeys(a) == SortedKeys(b)
  {
    hide SortDescending, Less, Keys, IndexOf;
    KeysOf(a);
    KeysOf(b);
    SortSorts(Keys(a));
    SortSorts(Keys(b));
    forall k ensures Has(a, k) <==> Has(b, k) {
      if Has(a, k) { assert a[IndexOf(a, k)].key == k; }
      if Has(b, k) { assert b[IndexOf(b, k)].key == k; }
    }
    DescendingUnique(SortedKeys(a), SortedKeys(b));
  }

  /** The same member looked up in both. */
  lemma SameMember(a: seq<Member>, b: seq<Member>, name: string)
    requires Same(Obj(a), Obj(b))
    ensures Has(a, name) <==> Has(b, name)
    ensures Has(a, name) ==> Same(Get(a, name), Get(b, name))
  {
  }

  /** Two payloads that are equal as nested maps get the same types and the same key. */
  lemma {:induction false} AddObjectSame(tm: TypeMap, rootType: string, prefix: string, a: seq<Member>, b: seq<Member>)
    requires WellKeyed(Obj(a)) && WellKeyed(Obj(b)) && Same(Obj(a), Obj(b))
    ensures AddObject(tm, rootType, prefix, a) == AddObject(tm, rootType, prefix, b)
    decreases a, |a| + 1, 1
  {
    hide SortedKeys, AddTypes, TypeDefForPrefix, Same, AddField;
    SameKeys(a, b);
    AddFieldsSame(tm, rootType, prefix, a, b, SortedKeys(a));
  }

  lemma {:induction false} AddFieldsSame(tm: TypeMap, rootType: string, prefix: string, a: seq<Member>,
                                         b: seq<Member>, names: seq<string>)
    requires WellKeyed(Obj(a)) && WellKeyed(Obj(b)) && Same(Obj(a), Obj(b))
    ensures AddFields(tm, rootType, prefix, a, names) == AddFields(tm, rootType, prefix, b, names)
    decreases a, 0, |names|
  {
    hide Same, WellKeyed, AddField;
    if names != [] {
      AddFieldSame(tm, rootType, prefix, a, b, names[0]);
      AddFieldsSame(AddField(tm, rootType, prefix, a, names[0]).tm, rootType, prefix, a, b, names[1..]);
    }
  }

  lemma {:induction false} AddFieldSame(tm: TypeMap, rootType: string, prefix: string, a: seq<Member>,
                                        b: seq<Member>, name: string)
    requires WellKeyed(Obj(a)) && WellKeyed(Obj(b)) && Same(Obj(a), Obj(b))
    ensures AddField(tm, rootType, prefix, a, name) == AddField(tm, rootType, prefix, b, name)
    decreases a, 0, 0
  {
    hide AddObject, Sanitize, IndexOf;
    SameMember(a, b, name);
    if Has(a, name) {
      var k := IndexOf(a, name);
      var v, w := a[k].value, Get(b, name);
      assert a[k] in a && b[IndexOf(b, name)] in b;
      SameSample(v, w);
      var x, y := Sample(v), Sample(w);
      if x.Obj? && EthType(x) == "" { AddObjectSame(tm, rootType, SubPrefix(prefix, name), x.members, y.members); }
    }
  }

  lemma SameSample(v: Json, w: Json)
    requires Same(v, w) && WellKeyed(v) && WellKeyed(w)
    ensures v.Arr? == w.Arr? && (v.Arr? ==> (v.items == [] <==> w.items == []))
    ensures var x, y := Sample(v), Sample(w);
            Same(x, y) && WellKeyed(x) && WellKeyed(y) && EthType(x) == EthType(y) && x.Obj? == y.Obj?
  {
  }
}
