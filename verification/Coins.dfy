/** A stand-in for the Cosmos SDK's `sdk.Coins`: a list of (denomination, amount) pairs kept sorted by
    denomination and free of zero amounts, with the operations the precompiles use. What a list
    means is the map it spells. */
module Coins {
  import opened Wrappers
  import opened Strings

  const TWO_256: int :=
    0x1_0000_0000_0000_0000 * 0x1_0000_0000_0000_0000 * 0x1_0000_0000_0000_0000 * 0x1_0000_0000_0000_0000

  datatype Coin = Coin(denom: string, amount: int)

  /** Strictly ascending denominations. */
  predicate Sorted(cs: seq<Coin>) {
    forall i, j :: 0 <= i < j < |cs| ==> Less(cs[i].denom, cs[j].denom)
  }

  predicate InRange(cs: seq<Coin>) {
    forall i :: 0 <= i < |cs| ==> 0 < cs[i].amount < TWO_256
  }

  function Spelled(cs: seq<Coin>): map<string, int> {
    if cs == [] then map[] else Spelled(cs[1..])[cs[0].denom := cs[0].amount]
  }

  predicate Below(denom: string, cs: seq<Coin>) {
    forall i :: 0 <= i < |cs| ==> Less(denom, cs[i].denom)
  }

  lemma {:induction false} SpelledKeys(cs: seq<Coin>, denom: string)
    ensures denom in Spelled(cs) <==> exists i :: 0 <= i < |cs| && cs[i].denom == denom
  {
    if cs != [] {
      SpelledKeys(cs[1..], denom);
      if i :| 0 <= i < |cs| && cs[i].denom == denom {
        if i > 0 { assert cs[1..][i - 1].denom == denom; }
      }
      if denom in Spelled(cs[1..]) {
        var i :| 0 <= i < |cs[1..]| && cs[1..][i].denom == denom;
        assert cs[i + 1].denom == denom;
      }
    }
  }

  lemma BelowIsNew(denom: string, cs: seq<Coin>)
    requires Below(denom, cs)
    ensures denom !in Spelled(cs)
  {
    SpelledKeys(cs, denom);
    LessIrreflexive(denom);
  }

  lemma SortedSplit(cs: seq<Coin>)
    requires cs != []
    ensures Sorted(cs) <==> Below(cs[0].denom, cs[1..]) && Sorted(cs[1..])
  {
  }

  lemma {:induction false} InRangeSpelled(cs: seq<Coin>)
    requires Sorted(cs)
    ensures InRange(cs) <==> forall d :: d in Spelled(cs) ==> 0 < Spelled(cs)[d] < TWO_256
  {
    if cs != [] {
      SortedSplit(cs);
      BelowIsNew(cs[0].denom, cs[1..]);
      InRangeSpelled(cs[1..]);
      assert InRange(cs) <==> 0 < cs[0].amount < TWO_256 && InRange(cs[1..]) by {
        if 0 < cs[0].amount < TWO_256 && InRange(cs[1..]) {
          forall i | 0 <= i < |cs| ensures 0 < cs[i].amount < TWO_256 {
            if i > 0 { assert cs[i] == cs[1..][i - 1]; }
          }
        }
      }
      assert cs[0].denom in Spelled(cs) && Spelled(cs)[cs[0].denom] == cs[0].amount;
      assert forall d :: d in Spelled(cs[1..]) ==> d in Spelled(cs) && Spelled(cs)[d] == Spelled(cs[1..])[d];
    }
  }

  /** `Find`. */
  function Find(cs: seq<Coin>, denom: string): Option<Coin> {
    if cs == [] then None
    else if cs[0].denom == denom then Some(cs[0])
    else Find(cs[1..], denom)
  }

  lemma {:induction false} FindSpelled(cs: seq<Coin>, denom: string)
    ensures Find(cs, denom) == if denom in Spelled(cs) then Some(Coin(denom, Spelled(cs)[denom])) else None
  {
    if cs != [] && cs[0].denom != denom { FindSpelled(cs[1..], denom); }
  }

  function ValueIn(m: map<string, int>, denom: string): int {
    if denom in m then m[denom] else 0
  }

  /** `AmountOfNoDenomValidation`: zero when the denomination is missing. */
  function AmountOf(cs: seq<Coin>, denom: string): int {
    var c := Find(cs, denom);
    if c.Some? then c.value.amount else 0
  }

  /** `Add` of one coin, and with a negative amount `SafeSub`: merge in order, dropping zeros. */
  function Add(cs: seq<Coin>, coin: Coin): seq<Coin> {
    if cs == [] || Less(coin.denom, cs[0].denom) then
      if coin.amount == 0 then cs else [coin] + cs
    else if cs[0].denom == coin.denom then
      if cs[0].amount + coin.amount == 0 then cs[1..] else [Coin(coin.denom, cs[0].amount + coin.amount)] + cs[1..]
    else [cs[0]] + Add(cs[1..], coin)
  }

  function Adjusted(m: map<string, int>, denom: string, amount: int): map<string, int> {
    if amount == 0 then m - {denom} else m[denom := amount]
  }

  lemma Cons(h: Coin, t: seq<Coin>)
    ensures Sorted([h] + t) <==> Below(h.denom, t) && Sorted(t)
    ensures Spelled([h] + t) == Spelled(t)[h.denom := h.amount]
  {
    assert ([h] + t)[1..] == t;
    SortedSplit([h] + t);
  }

  lemma Uncons(cs: seq<Coin>)
    requires cs != [] && Sorted(cs)
    ensures cs == [cs[0]] + cs[1..]
    ensures Below(cs[0].denom, cs[1..]) && Sorted(cs[1..])
    ensures Spelled(cs) == Spelled(cs[1..])[cs[0].denom := cs[0].amount]
    ensures cs[0].denom !in Spelled(cs[1..])
  {
    SortedSplit(cs);
    BelowIsNew(cs[0].denom, cs[1..]);
  }

  lemma {:induction false} AddBelow(cs: seq<Coin>, coin: Coin, d: string)
    requires Below(d, cs) && Less(d, coin.denom)
    ensures Below(d, Add(cs, coin))
  {
    hide Less;
    if !(cs == [] || Less(coin.denom, cs[0].denom) || cs[0].denom == coin.denom) { AddBelow(cs[1..], coin, d); }
  }

  lemma AddUnfolds(cs: seq<Coin>, coin: Coin)
    requires cs != []
    ensures cs[0].denom == coin.denom ==>
              Add(cs, coin) == if cs[0].amount + coin.amount == 0 then cs[1..]
                               else [Coin(coin.denom, cs[0].amount + coin.amount)] + cs[1..]
    ensures Less(cs[0].denom, coin.denom) ==> Add(cs, coin) == [cs[0]] + Add(cs[1..], coin)
  {
    LessIrreflexive(coin.denom);
    if Less(cs[0].denom, coin.denom) { LessAsymmetric(cs[0].denom, coin.denom); }
  }

  /** Adding a coin adjusts its own denomination and nothing else, and keeps the list sorted. */
  lemma {:induction false} AddSpells(cs: seq<Coin>, coin: Coin)
    requires Sorted(cs)
    ensures Sorted(Add(cs, coin))
    ensures Spelled(Add(cs, coin)) == Adjusted(Spelled(cs), coin.denom, ValueIn(Spelled(cs), coin.denom) + coin.amount)
    decreases cs, 1
  {
    if cs == [] || Less(coin.denom, cs[0].denom) {
      AddFront(cs, coin);
    } else if cs[0].denom == coin.denom {
      AddHere(cs, coin);
    } else {
      LessTotal(cs[0].denom, coin.denom);
      AddBehind(cs, coin);
    }
  }

  lemma {:induction false} AddBehind(cs: seq<Coin>, coin: Coin)
    requires Sorted(cs) && cs != [] && Less(cs[0].denom, coin.denom)
    ensures Sorted(Add(cs, coin))
    ensures Spelled(Add(cs, coin)) == Adjusted(Spelled(cs), coin.denom, ValueIn(Spelled(cs), coin.denom) + coin.amount)
    decreases cs, 0
  {
    hide Less, Spelled, Sorted, Below, Add;
    var h, t := cs[0], cs[1..];
    AddUnfolds(cs, coin);
    LessAsymmetric(h.denom, coin.denom);
    Uncons(cs);
    AddSpells(t, coin);
    AddBelow(t, coin, h.denom);
    Cons(h, Add(t, coin));
    assert Adjusted(Spelled(t), coin.denom, ValueIn(Spelled(cs), coin.denom) + coin.amount)[h.denom := h.amount]
        == Adjusted(Spelled(cs), coin.denom, ValueIn(Spelled(cs), coin.denom) + coin.amount);
  }

  lemma AddFront(cs: seq<Coin>, coin: Coin)
    requires Sorted(cs) && (cs == [] || Less(coin.denom, cs[0].denom))
    ensures Sorted(Add(cs, coin))
    ensures Spelled(Add(cs, coin)) == Adjusted(Spelled(cs), coin.denom, ValueIn(Spelled(cs), coin.denom) + coin.amount)
  {
    assert Below(coin.denom, cs) by {
      forall i | 0 <= i < |cs| ensures Less(coin.denom, cs[i].denom) {
        if i > 0 { LessTransitive(coin.denom, cs[0].denom, cs[i].denom); }
      }
    }
    BelowIsNew(coin.denom, cs);
    Cons(coin, cs);
    hide Less, Spelled, Sorted;
    assert Spelled(cs) - {coin.denom} == Spelled(cs);
  }

  lemma AddHere(cs: seq<Coin>, coin: Coin)
    requires Sorted(cs) && cs != [] && cs[0].denom == coin.denom
    ensures Sorted(Add(cs, coin))
    ensures Spelled(Add(cs, coin)) == Adjusted(Spelled(cs), coin.denom, ValueIn(Spelled(cs), coin.denom) + coin.amount)
  {
    hide Less, Spelled, Sorted, Below, Add;
    var t, c := cs[1..], Coin(coin.denom, cs[0].amount + coin.amount);
    AddUnfolds(cs, coin);
    Uncons(cs);
    Cons(c, t);
    assert Spelled(cs) - {coin.denom} == Spelled(t);
    assert Spelled(cs)[coin.denom := c.amount] == Spelled(t)[coin.denom := c.amount];
  }

  lemma EmptySpelled(cs: seq<Coin>)
    ensures cs == [] <==> Spelled(cs) == map[]
  {
    if cs != [] { assert cs[0].denom in Spelled(cs); }
  }

  /** A list is valid when it is sorted and what it spells is in range. */
  lemma ValidSpelled(cs: seq<Coin>)
    requires Sorted(cs)
    ensures InRange(cs) <==> forall d :: d in Spelled(cs) ==> 0 < Spelled(cs)[d] < TWO_256
    ensures cs == [] <==> Spelled(cs) == map[]
  {
    InRangeSpelled(cs);
    EmptySpelled(cs);
  }

  /** `SafeSub` reports whether an amount became negative. */
  predicate AnyNegative(cs: seq<Coin>) {
    exists i :: 0 <= i < |cs| && cs[i].amount < 0
  }

  /** `IsAllPositive`. */
  predicate AllPositive(cs: seq<Coin>) {
    cs != [] && forall i :: 0 <= i < |cs| ==> cs[i].amount > 0
  }

  lemma {:induction false} AnyNegativeSpelled(cs: seq<Coin>)
    requires Sorted(cs)
    ensures AnyNegative(cs) <==> exists d :: d in Spelled(cs) && Spelled(cs)[d] < 0
  {
    if cs != [] {
      hide Sorted, Below, Less;
      Uncons(cs);
      AnyNegativeSpelled(cs[1..]);
      AnyNegativeCons(cs);
      assert forall d :: d in Spelled(cs[1..]) ==> d in Spelled(cs) && Spelled(cs)[d] == Spelled(cs[1..])[d];
      assert cs[0].denom in Spelled(cs) && Spelled(cs)[cs[0].denom] == cs[0].amount;
    }
  }

  lemma AnyNegativeCons(cs: seq<Coin>)
    requires cs != []
    ensures AnyNegative(cs) <==> cs[0].amount < 0 || AnyNegative(cs[1..])
  {
  }

  /** Subtracting a non-negative amount from a valid list goes negative exactly when there is less
      than that of the denomination. */
  lemma SubNegative(cs: seq<Coin>, denom: string, amount: int)
    requires Sorted(cs) && InRange(cs) && amount >= 0
    ensures AnyNegative(Add(cs, Coin(denom, -amount))) <==> amount > ValueIn(Spelled(cs), denom)
  {
    hide Sorted, InRange, Spelled, Add, AnyNegative;
    var r := Add(cs, Coin(denom, -amount));
    AddSpells(cs, Coin(denom, -amount));
    ValidSpelled(cs);
    AnyNegativeSpelled(r);
    if amount > ValueIn(Spelled(cs), denom) { assert denom in Spelled(r) && Spelled(r)[denom] < 0; }
  }
}
