/** The type of each kind of JSON value, in the words of EIP-712, and the names made from paths. */
module Eip712Fields {
  import opened Wrappers
  import opened Json
  import opened Eip712Types
  import opened Eip712Names

  /** The field list of one member and nothing else happened to the map. */
  predicate Becomes(tm: TypeMap, rootType: string, prefix: string, ms: seq<Member>, name: string, fields: seq<Field>) {
    AddField(tm, rootType, prefix, ms, name) == AddedFields(tm, Some(fields))
  }

  /** Scalars: a string, a boolean and a number have their own types; a null and a missing member have
      none. */
  lemma ScalarTypes(tm: TypeMap, rootType: string, prefix: string, ms: seq<Member>, name: string)
    ensures Has(ms, name) && Get(ms, name).Str? ==> Becomes(tm, rootType, prefix, ms, name, [Field(name, "string")])
    ensures Has(ms, name) && Get(ms, name).Bool? ==> Becomes(tm, rootType, prefix, ms, name, [Field(name, "bool")])
    ensures Has(ms, name) && Get(ms, name).Number? ==> Becomes(tm, rootType, prefix, ms, name, [Field(name, "int64")])
    ensures Has(ms, name) && Get(ms, name).Null? ==> Becomes(tm, rootType, prefix, ms, name, [])
    ensures !Has(ms, name) ==> Becomes(tm, rootType, prefix, ms, name, [])
  {
    hide IndexOf;
    assert "string" + "" == "string" && "bool" + "" == "bool" && "int64" + "" == "int64";
  }

  /** Arrays: an empty one is an array of strings; otherwise the first element decides, whatever the
      others are; an array that starts with a null or an array has no type. */
  lemma ArrayTypes(tm: TypeMap, rootType: string, prefix: string, ms: seq<Member>, name: string)
    requires Has(ms, name) && Get(ms, name).Arr?
    ensures var items := Get(ms, name).items;
            && (items == [] ==> Becomes(tm, rootType, prefix, ms, name, [Field(name, "string[]")]))
            && (items != [] && items[0].Str? ==> Becomes(tm, rootType, prefix, ms, name, [Field(name, "string[]")]))
            && (items != [] && items[0].Bool? ==> Becomes(tm, rootType, prefix, ms, name, [Field(name, "bool[]")]))
            && (items != [] && items[0].Number? ==> Becomes(tm, rootType, prefix, ms, name, [Field(name, "int64[]")]))
            && (items != [] && (items[0].Null? || items[0].Arr?) ==> Becomes(tm, rootType, prefix, ms, name, []))
  {
    hide IndexOf;
    assert "string" + "[]" == "string[]" && "bool" + "[]" == "bool[]" && "int64" + "[]" == "int64[]";
  }

  /** Objects: the object is added under its own path, and the field refers to the key it got, with a
      suffix for an array of objects. */
  lemma ObjectTypes(tm: TypeMap, rootType: string, prefix: string, ms: seq<Member>, name: string)
    requires Has(ms, name)
    ensures Get(ms, name).Obj? ==>
              var r := AddObject(tm, rootType, prefix + "." + name, Get(ms, name).members);
              AddField(tm, rootType, prefix, ms, name)
              == AddedFields(r.tm, if r.key.None? then None else Some([Field(name, Sanitize(r.key.value))]))
    ensures Get(ms, name).Arr? && Get(ms, name).items != [] && Get(ms, name).items[0].Obj? ==>
              var r := AddObject(tm, rootType, prefix + "." + name, Get(ms, name).items[0].members);
              AddField(tm, rootType, prefix, ms, name)
              == AddedFields(r.tm, if r.key.None? then None else Some([Field(name, Sanitize(r.key.value) + "[]")]))
  {
    hide IndexOf, AddObject, Sanitize;
    assert forall s: string :: s + "" == s;
  }

  // ---- names from paths ----

  lemma SplitUnfolds(c: char, s: string, sep: char)
    ensures var r := Split(s, sep);
            Split([c] + s, sep) == if c == sep then [""] + r else [[c] + r[0]] + r[1..]
  {
    assert ([c] + s)[1..] == s;
  }

  lemma {:induction false} SplitConcat(a: string, b: string, sep: char)
    ensures Split(a + [sep] + b, sep) == Split(a, sep) + Split(b, sep)
  {
    if a == "" {
      SplitUnfolds(sep, b, sep);
      assert a + [sep] + b == [sep] + b;
    } else {
      hide Split;
      var t := a[1..];
      assert a == [a[0]] + t && a + [sep] + b == [a[0]] + (t + [sep] + b);
      SplitConcat(t, b, sep);
      SplitUnfolds(a[0], t, sep);
      SplitUnfolds(a[0], t + [sep] + b, sep);
    }
  }

  lemma {:induction false} SanitizePartsConcat(a: seq<string>, b: seq<string>)
    ensures SanitizeParts(a + b) == SanitizeParts(a) + SanitizeParts(b)
  {
    hide TitleAll, Split;
    if a == [] {
      assert a + b == b;
    } else {
      assert (a + b)[1..] == a[1..] + b;
      SanitizePartsConcat(a[1..], b);
    }
  }

  lemma {:induction false} TitleAllConcat(a: seq<string>, b: seq<string>)
    ensures TitleAll(a + b) == TitleAll(a) + TitleAll(b)
  {
    hide Title;
    if a == [] {
      assert a + b == b;
    } else {
      assert (a + b)[1..] == a[1..] + b;
      TitleAllConcat(a[1..], b);
    }
  }

  /** A path is sanitized step by step. */
  lemma SanitizeJoins(a: string, b: string)
    ensures Sanitize(a + "." + b) == Sanitize(a) + Sanitize(b)
  {
    hide Split, SanitizeParts;
    SplitConcat(a, b, '.');
    SanitizePartsConcat(Split(a, '.'), Split(b, '.'));
  }

  /** The root stands for `Type`; a name is the concatenation of its capitalised words. */
  lemma SanitizeWords(a: string, b: string)
    requires '.' !in a && '.' !in b && a + "_" + b != "_" && a != "_" && b != "_"
    ensures Sanitize("_") == "Type"
    ensures Sanitize(a + "_" + b) == Sanitize(a) + Sanitize(b)
  {
    hide Sanitize, TitleAll, Split;
    SanitizeRoot();
    SanitizePart(a);
    SanitizePart(b);
    SanitizePart(a + "_" + b);
    SplitConcat(a, b, '_');
    TitleAllConcat(Split(a, '_'), Split(b, '_'));
  }

  lemma SanitizeRoot()
    ensures Sanitize("_") == "Type"
  {
    SplitNone("_", '.');
    assert ["_"][1..] == [];
  }

  lemma SanitizePart(a: string)
    requires '.' !in a && a != "_"
    ensures Sanitize(a) == TitleAll(Split(a, '_'))
  {
    hide TitleAll;
    SplitNone(a, '.');
    assert [a][1..] == [];
    assert TitleAll(Split(a, '_')) + "" == TitleAll(Split(a, '_'));
  }

  /** A word that starts with a lower-case letter gets that letter 32 code points lower; one that starts
      with an upper-case letter stays. */
  lemma SanitizeWord(w: string)
    requires w != "" && '.' !in w && '_' !in w
    ensures 'a' <= w[0] <= 'z' ==>
              && |Sanitize(w)| == |w| && Sanitize(w)[1..] == w[1..]
              && Sanitize(w)[0] as int == w[0] as int - 32
    ensures 'A' <= w[0] <= 'Z' ==> Sanitize(w) == w
  {
    SplitNone(w, '.');
    SplitNone(w, '_');
    assert [w][1..] == [];
    assert w != "_" by { assert w == "_" ==> '_' in w; }
    assert TitleAll([w]) == Title(w) + TitleAll([w][1..]) == Title(w);
    assert SanitizeParts([w]) == TitleAll([w]) + SanitizeParts([w][1..]) == Title(w);
    assert Sanitize(w) == Title(w);
    if 'a' <= w[0] <= 'z' { UpperCode(w[0]); }
  }

  lemma UpperCode(c: char)
    requires IsLower(c)
    ensures Upper(c) as int == c as int - 32
  {
    var letters := "ABCDEFGHIJKLMNOPQRSTUVWXYZ";
    assert forall i :: 0 <= i < |letters| ==> letters[i] as int == 65 + i;
  }

  /** The example in the source. */
  lemma SanitizeExample()
    ensures Sanitize("_.foo_bar.baz") == "TypeFooBarBaz"
  {
    hide Sanitize;
    assert "_.foo_bar.baz" == "_" + "." + ("foo_bar" + "." + "baz");
    SanitizeJoins("_", "foo_bar" + "." + "baz");
    SanitizeJoins("foo_bar", "baz");
    assert "foo_bar" == "foo" + "_" + "bar";
    SanitizeWords("foo", "bar");
    SanitizeWord("foo");
    SanitizeWord("bar");
    SanitizeWord("baz");
    assert Sanitize("foo") == "Foo" && Sanitize("bar") == "Bar" && Sanitize("baz") == "Baz";
  }
}
