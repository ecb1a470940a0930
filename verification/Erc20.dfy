/** ERC-20 allowances kept in Cosmos authz grants (`precompiles/erc20`). One grant per (owner,
    spender) holds a spend limit for all tokens at once; each token pair's precompile edits only
    its own denomination. */
module Erc20 {
  import opened Wrappers
  import opened Coins

  type Address = nat

  /** (granter, grantee). */
  datatype Pair = Pair(owner: Address, spender: Address)

  /** Only `SendAuthorization` carries a spend limit; any other kind is refused. */
  datatype Authorization = Send(spendLimit: seq<Coin>) | Other

  datatype Grant = Grant(auth: Authorization, expiration: int)

  type Grants = map<Pair, Grant>

  /** `DefaultExpirationDuration`, one year, in seconds. */
  const DURATION := 365 * 24 * 3600

  datatype Error =
    | SpenderIsOwner | NegativeAmount | NonPositiveValue | IntegerOverflow | NoAllowance
    | SubtractMoreThanAllowance | UnknownAuthorizationType | InvalidCoins | InvalidExpiration
    | NoAuthorization | InsufficientSpendLimit | BankError

  /** A successful call carries the value of the Approval event it emits. */
  datatype Result = Success(event: int) | Failure(error: Error)

  // ---- the authz keeper ----

  /** `GetAuthorization`: an expired grant is not found. */
  function Lookup(g: Grants, p: Pair, now: int): Option<Grant> {
    if p in g && now <= g[p].expiration then Some(g[p]) else None
  }

  /** `SaveGrant` refuses an expiration that is not after the block time. */
  function Save(g: Grants, p: Pair, now: int, auth: Authorization, expiration: int, event: int): (Grants, Result) {
    if expiration <= now then (g, Failure(InvalidExpiration)) else (g[p := Grant(auth, expiration)], Success(event))
  }

  /** The value of `allowance(owner, spender)` for a denomination. */
  function Allowance(g: Grants, now: int, p: Pair, denom: string): int {
    if p.owner == p.spender then TWO_256 - 1
    else
      match Lookup(g, p, now)
      case None => 0
      case Some(grant) => if grant.auth.Send? then AmountOf(grant.auth.spendLimit, denom) else 0
  }

  // ---- the helpers of approve.go, on values ----

  function IndexOf(cs: seq<Coin>, denom: string): (k: int)
    ensures -1 <= k < |cs|
    ensures k >= 0 ==> cs[k].denom == denom
  {
    if cs == [] then -1
    else if cs[0].denom == denom then 0
    else
      var k := IndexOf(cs[1..], denom);
      if k < 0 then -1 else k + 1
  }

  function UpdateOrAdd(cs: seq<Coin>, coin: Coin): seq<Coin> {
    var k := IndexOf(cs, coin.denom);
    if k >= 0 then cs[k := coin] else Add(cs, coin)
  }

  function Create(g: Grants, p: Pair, now: int, denom: string, amount: int): (Grants, Result) {
    if amount >= TWO_256 then (g, Failure(IntegerOverflow))
    else Save(g, p, now, Send([Coin(denom, amount)]), now + DURATION, amount)
  }

  function Update(g: Grants, p: Pair, now: int, denom: string, amount: int, limit: seq<Coin>,
                  expiration: int): (Grants, Result)
  {
    if amount >= TWO_256 then (g, Failure(IntegerOverflow))
    else
      var updated := UpdateOrAdd(limit, Coin(denom, amount));
      if !AllPositive(updated) then (g, Failure(InvalidCoins))
      else Save(g, p, now, Send(updated), expiration, amount)
  }

  function Remove(g: Grants, p: Pair, now: int, denom: string, grant: Grant, event: int): (Grants, Result) {
    if !grant.auth.Send? then (g, Failure(UnknownAuthorizationType))
    else
      match Find(grant.auth.spendLimit, denom)
      case None => (g, Failure(NoAllowance))
      case Some(c) =>
        var left := Add(grant.auth.spendLimit, Coin(denom, 0 - c.amount));
        if AnyNegative(left) then (g, Failure(SubtractMoreThanAllowance))
        else if left == [] then (g - {p}, Success(event))
        else Save(g, p, now, Send(left), grant.expiration, event)
  }

  // ---- the calls ----

  function Approve(g: Grants, now: int, denom: string, p: Pair, amount: int): (Grants, Result) {
    if p.owner == p.spender then (g, Failure(SpenderIsOwner))
    else
      match Lookup(g, p, now)
      case None =>
        if amount < 0 then (g, Failure(NegativeAmount))
        else if amount > 0 then Create(g, p, now, denom, amount)
        else (g, Success(amount))
      case Some(grant) =>
        if amount <= 0 then Remove(g, p, now, denom, grant, amount)
        else if !grant.auth.Send? then (g, Failure(UnknownAuthorizationType))
        else Update(g, p, now, denom, amount, grant.auth.spendLimit, grant.expiration)
  }

  function Increase(g: Grants, now: int, denom: string, p: Pair, added: int): (Grants, Result) {
    if p.owner == p.spender then (g, Failure(SpenderIsOwner))
    else if added <= 0 then (g, Failure(NonPositiveValue))
    else
      match Lookup(g, p, now)
      case None => Create(g, p, now, denom, added)
      case Some(grant) =>
        if !grant.auth.Send? then (g, Failure(UnknownAuthorizationType))
        else
          var limit := grant.auth.spendLimit;
          Update(g, p, now, denom, AmountOf(limit, denom) + added, limit, grant.expiration)
  }

  function Decrease(g: Grants, now: int, denom: string, p: Pair, subtracted: int): (Grants, Result) {
    if p.owner == p.spender then (g, Failure(SpenderIsOwner))
    else if subtracted <= 0 then (g, Failure(NonPositiveValue))
    else
      match Lookup(g, p, now)
      case None => (g, Failure(NoAllowance))
      case Some(grant) =>
        if !grant.auth.Send? then (g, Failure(NoAllowance))
        else
          var allowance := AmountOf(grant.auth.spendLimit, denom);
          if subtracted < allowance then
            Update(g, p, now, denom, allowance - subtracted, grant.auth.spendLimit, grant.expiration)
          else if subtracted == allowance then Remove(g, p, now, denom, grant, 0)
          else if allowance == 0 then (g, Failure(NoAllowance))
          else (g, Failure(SubtractMoreThanAllowance))
  }

  /** `transferFrom`. Whether the bank moves the coins is decided outside; a call that fails there is
      reverted as a whole. */
  function TransferFrom(g: Grants, now: int, denom: string, p: Pair, amount: int, bankOk: bool): (Grants, Result) {
    if amount <= 0 || amount >= TWO_256 then (g, Failure(InvalidCoins))
    else if p.owner == p.spender then (g, if bankOk then Success(TWO_256 - 1) else Failure(BankError))
    else
      match Lookup(g, p, now)
      case None => (g, Failure(NoAuthorization))
      case Some(grant) =>
        if !grant.auth.Send? then (g, Failure(NoAuthorization))
        else
          var limit := grant.auth.spendLimit;
          var left := Add(limit, Coin(denom, 0 - amount));
          if AnyNegative(left) then (g, Failure(InsufficientSpendLimit))
          else if !bankOk then (g, Failure(BankError))
          else
            var event := AmountOf(limit, denom) - amount;
            if left == [] then (g - {p}, Success(event))
            else (g[p := Grant(Send(left), grant.expiration)], Success(event))
  }

  datatype Kind = CallApprove | CallIncrease | CallDecrease | CallTransferFrom(bankOk: bool)

  /** A call through the precompile of `denom` at block time `now`. */
  datatype Call = Call(kind: Kind, now: int, denom: string, pair: Pair, amount: int)

  function Step(g: Grants, c: Call): (Grants, Result) {
    match c.kind
    case CallApprove => Approve(g, c.now, c.denom, c.pair, c.amount)
    case CallIncrease => Increase(g, c.now, c.denom, c.pair, c.amount)
    case CallDecrease => Decrease(g, c.now, c.denom, c.pair, c.amount)
    case CallTransferFrom(bankOk) => TransferFrom(g, c.now, c.denom, c.pair, c.amount, bankOk)
  }

  // ---- the invariant of the store ----

  predicate ValidLimit(cs: seq<Coin>) {
    cs != [] && Sorted(cs) && InRange(cs)
  }

  predicate ValidGrants(g: Grants) {
    forall p :: p in g ==> g[p].auth.Send? && ValidLimit(g[p].auth.spendLimit)
  }

  // ---- a plain allowance table ----

  /** The allowances one spender holds from one owner: a positive amount per denomination, all of
      them lapsing together. */
  datatype Account = Account(amounts: map<string, int>, expiration: int)

  type Table = map<Pair, Account>

  function Entry(t: Table, p: Pair, denom: string): int {
    if p in t then ValueIn(t[p].amounts, denom) else 0
  }

  /** Set one entry. The first entry of a pair starts its lifetime. */
  function Put(t: Table, now: int, p: Pair, denom: string, amount: int): Table {
    var account := if p in t then t[p] else Account(map[], now + DURATION);
    var amounts := Adjusted(account.amounts, denom, amount);
    if amounts == map[] then t - {p} else t[p := Account(amounts, account.expiration)]
  }

  /** The pair's account can be rewritten: it does not lapse in this very block. */
  predicate Writable(t: Table, now: int, p: Pair) {
    p !in t || now < t[p].expiration
  }

  /** The denomination's entry can be cleared: it is there, and it is the last one or the account
      can be rewritten. */
  predicate Clearable(t: Table, now: int, p: Pair, denom: string) {
    p in t && denom in t[p].amounts && (t[p].amounts.Keys == {denom} || now < t[p].expiration)
  }

  /** When the table takes a call. */
  predicate Accepts(t: Table, c: Call) {
    var entry := Entry(t, c.pair, c.denom);
    match c.kind
    case CallApprove =>
      && c.pair.owner != c.pair.spender
      && if c.amount > 0 then c.amount < TWO_256 && Writable(t, c.now, c.pair)
         else if c.pair in t then Clearable(t, c.now, c.pair, c.denom)
         else c.amount == 0
    case CallIncrease =>
      c.pair.owner != c.pair.spender && 0 < c.amount && entry + c.amount < TWO_256 && Writable(t, c.now, c.pair)
    case CallDecrease =>
      && c.pair.owner != c.pair.spender && 0 < c.amount <= entry
      && if c.amount == entry then Clearable(t, c.now, c.pair, c.denom) else Writable(t, c.now, c.pair)
    case CallTransferFrom(bankOk) =>
      0 < c.amount < TWO_256 && bankOk && (c.pair.owner == c.pair.spender || c.amount <= entry)
  }

  /** The entry of the call's own (owner, spender, denomination) after the call, as ERC-20 has it. */
  function NewEntry(t: Table, c: Call): int {
    var entry := Entry(t, c.pair, c.denom);
    match c.kind
    case CallApprove => if c.amount > 0 then c.amount else 0
    case CallIncrease => entry + c.amount
    case CallDecrease => entry - c.amount
    case CallTransferFrom(_) => if c.pair.owner == c.pair.spender then entry else entry - c.amount
  }

  function TableStep(t: Table, c: Call): Table {
    if Accepts(t, c) then Put(t, c.now, c.pair, c.denom, NewEntry(t, c)) else t
  }

  /** Accounts that have lapsed drop out. */
  function Live(t: Table, now: int): Table {
    map p | p in t && now <= t[p].expiration :: t[p]
  }

  /** What a store of grants means at a time. */
  function Meaning(g: Grants, now: int): Table {
    map p | p in g && now <= g[p].expiration && g[p].auth.Send? ::
      Account(Spelled(g[p].auth.spendLimit), g[p].expiration)
  }

  // ---- editing a spend limit edits one entry ----

  lemma {:induction false} ReplaceSpells(cs: seq<Coin>, coin: Coin)
    requires Sorted(cs) && IndexOf(cs, coin.denom) >= 0
    ensures var r := cs[IndexOf(cs, coin.denom) := coin];
            Sorted(r) && Spelled(r) == Spelled(cs)[coin.denom := coin.amount]
  {
    hide Sorted, Spelled, Strings.Less;
    var k, h, t := IndexOf(cs, coin.denom), cs[0], cs[1..];
    Uncons(cs);
    if k == 0 {
      assert cs[0 := coin] == [coin] + t;
      Cons(coin, t);
    } else {
      ReplaceSpells(t, coin);
      var u := t[k - 1 := coin];
      assert cs[k := coin] == [h] + u;
      Cons(h, u);
    }
  }

  lemma {:induction false} IndexOfMissing(cs: seq<Coin>, denom: string)
    ensures IndexOf(cs, denom) < 0 <==> denom !in Spelled(cs)
  {
    if cs != [] && cs[0].denom != denom { IndexOfMissing(cs[1..], denom); }
  }

  lemma UpdateOrAddSpells(cs: seq<Coin>, coin: Coin)
    requires Sorted(cs) && coin.amount != 0
    ensures Sorted(UpdateOrAdd(cs, coin))
    ensures Spelled(UpdateOrAdd(cs, coin)) == Spelled(cs)[coin.denom := coin.amount]
  {
    hide Sorted, Spelled, Add, IndexOf;
    IndexOfMissing(cs, coin.denom);
    if IndexOf(cs, coin.denom) >= 0 { ReplaceSpells(cs, coin); } else { AddSpells(cs, coin); }
  }

  lemma UpdateOrAddValid(cs: seq<Coin>, coin: Coin)
    requires ValidLimit(cs) && 0 < coin.amount < TWO_256
    ensures ValidLimit(UpdateOrAdd(cs, coin)) && AllPositive(UpdateOrAdd(cs, coin))
    ensures Spelled(UpdateOrAdd(cs, coin)) == Spelled(cs)[coin.denom := coin.amount]
  {
    hide Sorted, Spelled, UpdateOrAdd;
    UpdateOrAddSpells(cs, coin);
    ValidSpelled(cs);
    ValidSpelled(UpdateOrAdd(cs, coin));
    assert coin.denom in Spelled(UpdateOrAdd(cs, coin));
  }

  /** Taking an amount out of a valid limit leaves a valid limit or nothing. */
  lemma SubValid(cs: seq<Coin>, denom: string, amount: int)
    requires ValidLimit(cs) && 0 < amount <= ValueIn(Spelled(cs), denom)
    ensures var left := Add(cs, Coin(denom, 0 - amount));
            && !AnyNegative(left)
            && (left != [] ==> ValidLimit(left))
            && Spelled(left) == Adjusted(Spelled(cs), denom, ValueIn(Spelled(cs), denom) - amount)
            && (left == [] <==> Spelled(left) == map[])
  {
    hide Sorted, Spelled, InRange, Add, AnyNegative;
    AddSpells(cs, Coin(denom, 0 - amount));
    SubNegative(cs, denom, amount);
    ValidSpelled(cs);
    ValidSpelled(Add(cs, Coin(denom, 0 - amount)));
  }

  // ---- writing the store writes the table ----

  lemma LookupMeans(g: Grants, p: Pair, now: int)
    requires ValidGrants(g)
    ensures Lookup(g, p, now).Some? <==> p in Meaning(g, now)
    ensures p in Meaning(g, now) ==>
              && Lookup(g, p, now) == Some(g[p]) && g[p].auth.Send?
              && ValidLimit(g[p].auth.spendLimit) && now <= g[p].expiration
              && Meaning(g, now)[p] == Account(Spelled(g[p].auth.spendLimit), g[p].expiration)
  {
  }

  lemma SaveMeans(g: Grants, p: Pair, now: int, limit: seq<Coin>, expiration: int)
    requires ValidGrants(g) && ValidLimit(limit) && now <= expiration
    ensures var h := g[p := Grant(Send(limit), expiration)];
            ValidGrants(h) && Meaning(h, now) == Meaning(g, now)[p := Account(Spelled(limit), expiration)]
  {
  }

  lemma DeleteMeans(g: Grants, p: Pair, now: int)
    requires ValidGrants(g)
    ensures ValidGrants(g - {p}) && Meaning(g - {p}, now) == Meaning(g, now) - {p}
  {
  }

  lemma {:induction false} AmountOfSpelled(cs: seq<Coin>, denom: string)
    ensures AmountOf(cs, denom) == ValueIn(Spelled(cs), denom)
  {
    FindSpelled(cs, denom);
  }

  lemma SpelledPositive(cs: seq<Coin>, denom: string)
    requires ValidLimit(cs)
    ensures 0 <= ValueIn(Spelled(cs), denom) < TWO_256
    ensures denom in Spelled(cs) <==> ValueIn(Spelled(cs), denom) > 0
    ensures Spelled(cs) != map[]
  {
    ValidSpelled(cs);
  }

  // ---- each call does to the store what it does to the table ----

  /** The store after a call, seen as a table, and whether the call went through. */
  ghost predicate Simulates(g: Grants, c: Call, out: (Grants, Result)) {
    var t := Meaning(g, c.now);
    && ValidGrants(out.0)
    && (out.1.Success? <==> Accepts(t, c))
    && (out.1.Failure? ==> out.0 == g)
    && Meaning(out.0, c.now) == TableStep(t, c)
  }

  lemma CreateSimulates(g: Grants, p: Pair, now: int, denom: string, amount: int)
    requires ValidGrants(g) && amount > 0 && p !in Meaning(g, now)
    ensures var (h, r) := Create(g, p, now, denom, amount);
            && ValidGrants(h) && (r.Success? <==> amount < TWO_256) && (r.Failure? ==> h == g)
            && (r.Success? ==> Meaning(h, now) == Put(Meaning(g, now), now, p, denom, amount))
  {
    hide Meaning, Adjusted;
    if amount < TWO_256 {
      var cs := [Coin(denom, amount)];
      assert Spelled(cs) == map[denom := amount] by { assert cs[1..] == []; }
      AdjustedAdds(map[], denom, amount);
      SaveMeans(g, p, now, cs, now + DURATION);
    }
  }

  lemma AdjustedAdds(m: map<string, int>, denom: string, amount: int)
    requires amount != 0
    ensures Adjusted(m, denom, amount) == m[denom := amount] && Adjusted(m, denom, amount) != map[]
  {
    assert denom in m[denom := amount];
  }

  lemma UpdateSimulates(g: Grants, p: Pair, now: int, denom: string, amount: int)
    requires ValidGrants(g) && p in Meaning(g, now) && amount > 0
    ensures p in g && g[p].auth.Send?
    ensures var (h, r) := Update(g, p, now, denom, amount, g[p].auth.spendLimit, g[p].expiration);
            && ValidGrants(h) && (r.Failure? ==> h == g)
            && (r.Success? <==> amount < TWO_256 && now < g[p].expiration)
            && (r.Success? ==> Meaning(h, now) == Put(Meaning(g, now), now, p, denom, amount))
  {
    hide Meaning, Adjusted, ValidLimit, UpdateOrAdd, AllPositive, Spelled;
    LookupMeans(g, p, now);
    if amount < TWO_256 && now < g[p].expiration {
      var cs := g[p].auth.spendLimit;
      UpdateOrAddValid(cs, Coin(denom, amount));
      AdjustedAdds(Spelled(cs), denom, amount);
      SaveMeans(g, p, now, UpdateOrAdd(cs, Coin(denom, amount)), g[p].expiration);
    } else if amount < TWO_256 {
      UpdateOrAddValid(g[p].auth.spendLimit, Coin(denom, amount));
    }
  }

  lemma RemoveSimulates(g: Grants, p: Pair, now: int, denom: string, event: int)
    requires ValidGrants(g) && p in Meaning(g, now)
    ensures p in g
    ensures var (h, r) := Remove(g, p, now, denom, g[p], event);
            && ValidGrants(h) && (r.Failure? ==> h == g)
            && (r.Success? <==> Clearable(Meaning(g, now), now, p, denom))
            && (r.Success? ==> Meaning(h, now) == Put(Meaning(g, now), now, p, denom, 0) && r.event == event)
  {
    hide Meaning, ValidLimit, Add, AnyNegative, Spelled, Find;
    LookupMeans(g, p, now);
    var cs := g[p].auth.spendLimit;
    FindSpelled(cs, denom);
    SpelledPositive(cs, denom);
    if denom in Spelled(cs) {
      var amount := Spelled(cs)[denom];
      SubValid(cs, denom, amount);
      var left := Add(cs, Coin(denom, 0 - amount));
      KeysSingleton(Spelled(cs), denom);
      DeleteMeans(g, p, now);
      if left != [] && now < g[p].expiration { SaveMeans(g, p, now, left, g[p].expiration); }
    }
  }

  lemma KeysSingleton(m: map<string, int>, denom: string)
    requires denom in m
    ensures m - {denom} == map[] <==> m.Keys == {denom}
  {
    if m - {denom} == map[] {
      assert forall d :: d in m && d != denom ==> d in m - {denom};
    }
  }

  lemma ApproveSimulates(g: Grants, c: Call)
    requires ValidGrants(g) && c.kind == CallApprove
    ensures Simulates(g, c, Step(g, c))
  {
    hide Meaning, Create, Update, Remove, ValidGrants, Adjusted;
    var p := c.pair;
    LookupMeans(g, p, c.now);
    if p in Meaning(g, c.now) {
      if c.amount <= 0 { RemoveSimulates(g, p, c.now, c.denom, c.amount); }
      else { UpdateSimulates(g, p, c.now, c.denom, c.amount); }
    } else if c.amount > 0 {
      CreateSimulates(g, p, c.now, c.denom, c.amount);
    } else {
      PutNothing(Meaning(g, c.now), c.now, p, c.denom);
    }
  }

  /** Clearing an entry of a pair that has none changes nothing. */
  lemma PutNothing(t: Table, now: int, p: Pair, denom: string)
    requires p !in t
    ensures Put(t, now, p, denom, 0) == t
  {
  }

  lemma IncreaseSimulates(g: Grants, c: Call)
    requires ValidGrants(g) && c.kind == CallIncrease
    ensures Simulates(g, c, Step(g, c))
  {
    hide Meaning, Create, Update, ValidLimit, Adjusted, Spelled, AmountOf;
    var p := c.pair;
    LookupMeans(g, p, c.now);
    if p in Meaning(g, c.now) {
      var cs := g[p].auth.spendLimit;
      AmountOfSpelled(cs, c.denom);
      SpelledPositive(cs, c.denom);
      if c.amount > 0 { UpdateSimulates(g, p, c.now, c.denom, AmountOf(cs, c.denom) + c.amount); }
    } else if c.amount > 0 {
      CreateSimulates(g, p, c.now, c.denom, c.amount);
    }
  }

  lemma DecreaseSimulates(g: Grants, c: Call)
    requires ValidGrants(g) && c.kind == CallDecrease
    ensures Simulates(g, c, Step(g, c))
  {
    hide Meaning, Update, Remove, ValidLimit, Adjusted, Spelled, AmountOf;
    var p := c.pair;
    LookupMeans(g, p, c.now);
    if p in Meaning(g, c.now) {
      var cs := g[p].auth.spendLimit;
      AmountOfSpelled(cs, c.denom);
      SpelledPositive(cs, c.denom);
      var allowance := AmountOf(cs, c.denom);
      if 0 < c.amount < allowance {
        UpdateSimulates(g, p, c.now, c.denom, allowance - c.amount);
      } else if 0 < c.amount == allowance {
        RemoveSimulates(g, p, c.now, c.denom, 0);
      }
    }
  }

  lemma TransferFromSimulates(g: Grants, c: Call)
    requires ValidGrants(g) && c.kind.CallTransferFrom?
    ensures Simulates(g, c, Step(g, c))
  {
    hide Meaning, ValidLimit, Adjusted, Spelled, AmountOf, Add, AnyNegative;
    var p := c.pair;
    LookupMeans(g, p, c.now);
    if p in Meaning(g, c.now) {
      var cs := g[p].auth.spendLimit;
      SpelledPositive(cs, c.denom);
      if p.owner == p.spender {
        PutSame(g, p, c.now, c.denom);
      } else if c.amount > 0 {
        SubNegativeValid(cs, c.denom, c.amount);
        if c.amount <= ValueIn(Spelled(cs), c.denom) {
          SubValid(cs, c.denom, c.amount);
          DeleteMeans(g, p, c.now);
          var left := Add(cs, Coin(c.denom, 0 - c.amount));
          if left != [] { SaveMeans(g, p, c.now, left, g[p].expiration); }
        }
      }
    } else {
      PutNothing(Meaning(g, c.now), c.now, p, c.denom);
    }
  }

  lemma SubNegativeValid(cs: seq<Coin>, denom: string, amount: int)
    requires ValidLimit(cs) && amount >= 0
    ensures AnyNegative(Add(cs, Coin(denom, 0 - amount))) <==> amount > ValueIn(Spelled(cs), denom)
  {
    SubNegative(cs, denom, amount);
  }

  /** Writing back the entry that is there changes nothing. */
  lemma PutSame(g: Grants, p: Pair, now: int, denom: string)
    requires ValidGrants(g) && p in Meaning(g, now)
    ensures Put(Meaning(g, now), now, p, denom, Entry(Meaning(g, now), p, denom)) == Meaning(g, now)
  {
    hide Meaning, ValidLimit, Spelled;
    LookupMeans(g, p, now);
    var m := Spelled(g[p].auth.spendLimit);
    SpelledPositive(g[p].auth.spendLimit, denom);
    assert Adjusted(m, denom, ValueIn(m, denom)) == m;
    assert Meaning(g, now)[p := Meaning(g, now)[p]] == Meaning(g, now);
  }

  /** Every call acts on the shared store exactly as it acts on the plain table: same verdict, same
      new table, nothing touched on failure, and the store stays valid. */
  lemma StepSimulates(g: Grants, c: Call)
    requires ValidGrants(g)
    ensures Simulates(g, c, Step(g, c))
  {
    hide *;
    match c.kind {
      case CallApprove => ApproveSimulates(g, c);
      case CallIncrease => IncreaseSimulates(g, c);
      case CallDecrease => DecreaseSimulates(g, c);
      case CallTransferFrom(_) => TransferFromSimulates(g, c);
    }
  }

  // ---- the table behaves like ERC-20 ----

  lemma AdjustedFrame(m: map<string, int>, denom: string, amount: int, other: string)
    ensures ValueIn(Adjusted(m, denom, amount), denom) == amount
    ensures other != denom ==> ValueIn(Adjusted(m, denom, amount), other) == ValueIn(m, other)
    ensures Adjusted(m, denom, amount) == map[] ==> amount == 0 && (other != denom ==> other !in m)
  {
  }

  /** Putting an entry changes that entry and no other, now or at any later time. */
  lemma PutFrame(t: Table, now: int, p: Pair, denom: string, amount: int, q: Pair, other: string, later: int)
    requires forall r :: r in t ==> now <= t[r].expiration
    requires now <= later
    ensures Entry(Put(t, now, p, denom, amount), p, denom) == amount
    ensures (q, other) != (p, denom) ==>
              Entry(Live(Put(t, now, p, denom, amount), later), q, other) == Entry(Live(t, later), q, other)
  {
    hide Adjusted;
    var account := if p in t then t[p] else Account(map[], now + DURATION);
    AdjustedFrame(account.amounts, denom, amount, other);
  }

  /** A call changes no entry but its own, now or at any later time; its own becomes what ERC-20
      prescribes. */
  lemma TableStepFrame(t: Table, c: Call, p: Pair, denom: string, later: int)
    requires forall q :: q in t ==> c.now <= t[q].expiration
    requires c.now <= later
    ensures (p, denom) != (c.pair, c.denom) ==>
              Entry(Live(TableStep(t, c), later), p, denom) == Entry(Live(t, later), p, denom)
    ensures Accepts(t, c) ==> Entry(TableStep(t, c), c.pair, c.denom) == NewEntry(t, c)
  {
    hide Accepts, NewEntry, Put;
    PutFrame(t, c.now, c.pair, c.denom, NewEntry(t, c), p, denom, later);
  }

  // ---- runs ----

  function RunStore(g: Grants, cs: seq<Call>): Grants
    decreases |cs|
  {
    if cs == [] then g else RunStore(Step(g, cs[0]).0, cs[1..])
  }

  function RunTable(t: Table, cs: seq<Call>): Table
    decreases |cs|
  {
    if cs == [] then t else RunTable(TableStep(Live(t, cs[0].now), cs[0]), cs[1..])
  }

  /** Block times do not go back, and `until` is after all of them. */
  predicate Ordered(from: int, cs: seq<Call>, until: int)
    decreases |cs|
  {
    if cs == [] then from <= until else from <= cs[0].now && Ordered(cs[0].now, cs[1..], until)
  }

  lemma MeaningLives(g: Grants, now: int, later: int)
    requires now <= later
    ensures Live(Meaning(g, now), later) == Meaning(g, later)
  {
  }

  lemma {:induction false} RunSimulates(g: Grants, from: int, cs: seq<Call>, later: int)
    requires ValidGrants(g) && Ordered(from, cs, later)
    ensures ValidGrants(RunStore(g, cs))
    ensures Meaning(RunStore(g, cs), later) == Live(RunTable(Meaning(g, from), cs), later)
    decreases |cs|
  {
    hide Meaning, ValidGrants, Step, TableStep, Live;
    if cs == [] {
      MeaningLives(g, from, later);
    } else {
      var c := cs[0];
      MeaningLives(g, from, c.now);
      StepSimulates(g, c);
      RunSimulates(Step(g, c).0, c.now, cs[1..], later);
    }
  }

  lemma AllowanceMeans(g: Grants, now: int, p: Pair, denom: string)
    requires ValidGrants(g) && p.owner != p.spender
    ensures Allowance(g, now, p, denom) == Entry(Meaning(g, now), p, denom)
  {
    hide Meaning, ValidLimit, AmountOf, Spelled;
    LookupMeans(g, p, now);
    if p in Meaning(g, now) { AmountOfSpelled(g[p].auth.spendLimit, denom); }
  }

  /** Over any run of calls through any number of token-pair precompiles on one store that starts
      empty, what `allowance` reports, then or later, is the entry of the plain table that took the
      same calls; and every stored limit is non-empty, sorted, free of duplicates and in range. */
  lemma RunAllowances(from: int, cs: seq<Call>, later: int, p: Pair, denom: string)
    requires Ordered(from, cs, later) && p.owner != p.spender
    ensures ValidGrants(RunStore(map[], cs))
    ensures Allowance(RunStore(map[], cs), later, p, denom) == Entry(Live(RunTable(map[], cs), later), p, denom)
  {
    hide Meaning, RunStore, RunTable, Live;
    EmptyMeaning(from);
    RunSimulates(map[], from, cs, later);
    AllowanceMeans(RunStore(map[], cs), later, p, denom);
  }

  lemma EmptyMeaning(now: int)
    ensures Meaning(map[], now) == map[]
  {
  }

  /** An unexpired grant is there exactly when some allowance is positive. */
  lemma GrantIffAllowance(g: Grants, now: int, p: Pair)
    requires ValidGrants(g) && p.owner != p.spender
    ensures Lookup(g, p, now).Some? <==> exists denom :: Allowance(g, now, p, denom) > 0
  {
    if Lookup(g, p, now).Some? {
      var cs := g[p].auth.spendLimit;
      assert Find(cs, cs[0].denom) == Some(cs[0]);
      assert Allowance(g, now, p, cs[0].denom) > 0;
    }
  }

  /** The Approval event reports the allowance as it is after the call. */
  lemma EventIsAllowance(g: Grants, c: Call)
    requires ValidGrants(g) && c.amount >= 0 && c.pair.owner != c.pair.spender
    requires Step(g, c).1.Success?
    ensures Step(g, c).1.event == Allowance(Step(g, c).0, c.now, c.pair, c.denom)
  {
    hide Meaning, Live, Put, ValidGrants, Allowance, Create, Update, Remove, Lookup, AmountOf, Add, AnyNegative;
    StepSimulates(g, c);
    AllowanceMeans(Step(g, c).0, c.now, c.pair, c.denom);
    AllowanceMeans(g, c.now, c.pair, c.denom);
    MeaningAlive(g, c.now);
    TableStepFrame(Meaning(g, c.now), c, c.pair, c.denom, c.now);
    EventValue(g, c);
  }

  lemma MeaningAlive(g: Grants, now: int)
    ensures forall p :: p in Meaning(g, now) ==> now <= Meaning(g, now)[p].expiration
  {
  }

  lemma EventValue(g: Grants, c: Call)
    requires c.amount >= 0 && c.pair.owner != c.pair.spender && Step(g, c).1.Success?
    ensures var entry := Allowance(g, c.now, c.pair, c.denom);
            Step(g, c).1.event == match c.kind
              case CallApprove => c.amount
              case CallIncrease => entry + c.amount
              case CallDecrease => entry - c.amount
              case CallTransferFrom(_) => entry - c.amount
  {
  }

  // ---- where the calls depart from EIP-20 ----

  /** The pair has no allowance in any other denomination. */
  ghost predicate OnlyAllowance(g: Grants, now: int, p: Pair, denom: string) {
    forall d :: d != denom ==> Allowance(g, now, p, d) == 0
  }

  /** EIP-20 lets an owner approve zero at any time. Here it succeeds exactly when the pair has no
      allowance at all, or has this one and it is the only one or the grant does not lapse in this
      block: with allowances in other denominations only, it fails. */
  lemma ApproveZeroExactly(g: Grants, now: int, denom: string, p: Pair)
    requires ValidGrants(g) && p.owner != p.spender
    ensures Step(g, Call(CallApprove, now, denom, p, 0)).1.Success? <==>
            || (forall d :: Allowance(g, now, p, d) == 0)
            || (&& Allowance(g, now, p, denom) > 0
                && (OnlyAllowance(g, now, p, denom) || (p in g && now < g[p].expiration)))
  {
    hide Meaning, Allowance, ValidLimit, Spelled, Step;
    var t, c := Meaning(g, now), Call(CallApprove, now, denom, p, 0);
    StepSimulates(g, c);
    LookupMeans(g, p, now);
    forall d ensures Allowance(g, now, p, d) == Entry(t, p, d) { AllowanceMeans(g, now, p, d); }
    if p in t {
      var cs := g[p].auth.spendLimit;
      forall d ensures (d in Spelled(cs) <==> Allowance(g, now, p, d) > 0) && Allowance(g, now, p, d) >= 0 {
        SpelledPositive(cs, d);
      }
      SpelledPositive(cs, denom);
      assert exists d :: d in Spelled(cs);
    }
  }

  /** A transfer on behalf of another succeeds exactly when the amount is positive, fits 256 bits and is
      within the allowance, and the bank moves it. EIP-20 wants a transfer of zero to succeed too. */
  lemma TransferFromExactly(g: Grants, c: Call)
    requires ValidGrants(g) && c.kind.CallTransferFrom? && c.pair.owner != c.pair.spender
    ensures Step(g, c).1.Success? <==>
            0 < c.amount < TWO_256 && c.kind.bankOk && c.amount <= Allowance(g, c.now, c.pair, c.denom)
  {
    hide Meaning, Allowance, Step, ValidGrants;
    StepSimulates(g, c);
    AllowanceMeans(g, c.now, c.pair, c.denom);
  }

  /** Two reachable stores on which the calls are refused: after approving 5 of one token, approving
      zero of another, and transferring zero of the first. */
  lemma ZeroCallsRefused(now: int, p: Pair)
    requires p.owner != p.spender
    ensures var g := RunStore(map[], [Call(CallApprove, now, "a", p, 5)]);
            && Allowance(g, now, p, "a") == 5 && Allowance(g, now, p, "b") == 0
            && Step(g, Call(CallApprove, now, "b", p, 0)).1.Failure?
            && Step(g, Call(CallTransferFrom(true), now, "a", p, 0)).1.Failure?
  {
    var c := Call(CallApprove, now, "a", p, 5);
    assert [c][1..] == [];
    var g := RunStore(map[], [c]);
    assert g == RunStore(Step(map[], c).0, []) == Step(map[], c).0;
    assert g == map[p := Grant(Send([Coin("a", 5)]), now + DURATION)];
    assert "a" != "b";
    assert [Coin("a", 5)][1..] == [];
  }

  // ---- lifetimes, and the owner as spender ----

  /** An approval on an empty store is reported for 365 days and not after. */
  lemma ApprovalLasts(now: int, denom: string, p: Pair, amount: int, later: int)
    requires 0 < amount < TWO_256 && p.owner != p.spender
    ensures var g := RunStore(map[], [Call(CallApprove, now, denom, p, amount)]);
            Allowance(g, later, p, denom) == if later <= now + 31536000 then amount else 0
  {
    var c := Call(CallApprove, now, denom, p, amount);
    assert [c][1..] == [];
    var g := RunStore(map[], [c]);
    assert g == RunStore(Step(map[], c).0, []) == Step(map[], c).0;
    assert g == map[p := Grant(Send([Coin(denom, amount)]), now + DURATION)];
  }

  /** An owner has an unlimited allowance from themself, and their own `transferFrom` takes nothing from
      any grant and reports it unchanged. */
  lemma OwnAllowance(g: Grants, now: int, denom: string, a: Address, amount: int, bankOk: bool)
    ensures Allowance(g, now, Pair(a, a), denom)
         == 115792089237316195423570985008687907853269984665640564039457584007913129639935
    ensures var (h, r) := Step(g, Call(CallTransferFrom(bankOk), now, denom, Pair(a, a), amount));
            && h == g
            && (r.Success? <==> 0 < amount < TWO_256 && bankOk)
            && (r.Success? ==> r.event == Allowance(g, now, Pair(a, a), denom))
  {
  }

  // ---- why a call fails ----

  /** The reason an error names, in terms of the allowances before the call. */
  ghost predicate Reason(g: Grants, c: Call, e: Error) {
    var allowance := Allowance(g, c.now, c.pair, c.denom);
    var own := c.pair.owner == c.pair.spender;
    match e
    case SpenderIsOwner => own
    case NegativeAmount => c.kind.CallApprove? && c.amount < 0
    case NonPositiveValue => (c.kind.CallIncrease? || c.kind.CallDecrease?) && c.amount <= 0
    case IntegerOverflow => c.amount + (if c.kind.CallIncrease? then allowance else 0) >= TWO_256
    case NoAllowance => !own && allowance == 0
    case SubtractMoreThanAllowance => c.kind.CallDecrease? && 0 < allowance < c.amount
    case UnknownAuthorizationType => false
    case InvalidCoins => c.kind.CallTransferFrom? && !(0 < c.amount < TWO_256)
    case InvalidExpiration => c.pair in g && g[c.pair].expiration == c.now
    case NoAuthorization => c.kind.CallTransferFrom? && forall d :: Allowance(g, c.now, c.pair, d) == 0
    case InsufficientSpendLimit => c.kind.CallTransferFrom? && allowance < c.amount
    case BankError => c.kind == CallTransferFrom(false)
  }

  lemma UpdateFails(g: Grants, p: Pair, now: int, denom: string, amount: int, limit: seq<Coin>, expiration: int)
    requires ValidLimit(limit) && amount > 0
    ensures var r := Update(g, p, now, denom, amount, limit, expiration).1;
            r.Failure? ==>
              (r.error == IntegerOverflow && amount >= TWO_256) || (r.error == InvalidExpiration && expiration <= now)
  {
    hide UpdateOrAdd, AllPositive, ValidLimit;
    if amount < TWO_256 { UpdateOrAddValid(limit, Coin(denom, amount)); }
  }

  lemma RemoveFails(g: Grants, p: Pair, now: int, denom: string, grant: Grant, event: int)
    requires grant.auth.Send? && ValidLimit(grant.auth.spendLimit)
    ensures var r := Remove(g, p, now, denom, grant, event).1;
            r.Failure? ==>
              || (r.error == NoAllowance && AmountOf(grant.auth.spendLimit, denom) == 0)
              || (r.error == InvalidExpiration && grant.expiration <= now)
  {
    hide Add, AnyNegative, ValidLimit, Spelled, Find;
    var cs := grant.auth.spendLimit;
    FindSpelled(cs, denom);
    AmountOfSpelled(cs, denom);
    SpelledPositive(cs, denom);
    if denom in Spelled(cs) { SubNegativeValid(cs, denom, Spelled(cs)[denom]); }
  }

  /** Every error names a reason that holds. */
  lemma FailedWithReason(g: Grants, c: Call)
    requires ValidGrants(g) && Step(g, c).1.Failure?
    ensures Reason(g, c, Step(g, c).1.error)
  {
    hide Update, Remove, ValidLimit, AmountOf, Add, AnyNegative;
    var p := c.pair;
    if Lookup(g, p, c.now).Some? {
      var grant := g[p];
      var limit := grant.auth.spendLimit;
      var allowance := AmountOf(limit, c.denom);
      AmountOfSpelled(limit, c.denom);
      SpelledPositive(limit, c.denom);
      RemoveFails(g, p, c.now, c.denom, grant, if c.kind.CallApprove? then c.amount else 0);
      var amount := match c.kind
        case CallIncrease => allowance + c.amount
        case CallDecrease => allowance - c.amount
        case _ => c.amount;
      if amount > 0 { UpdateFails(g, p, c.now, c.denom, amount, limit, grant.expiration); }
      if c.kind.CallTransferFrom? && c.amount > 0 { SubNegativeValid(limit, c.denom, c.amount); }
    }
  }

  // ---- the code ----

  /** `updateOrAddCoin`. */
  method UpdateOrAddCoin(coins: seq<Coin>, coin: Coin) returns (r: seq<Coin>)
    ensures r == UpdateOrAdd(coins, coin)
  {
    hide Add;
    for i := 0 to |coins|
      invariant IndexOf(coins, coin.denom)
             == var k := IndexOf(coins[i..], coin.denom); if k < 0 then -1 else i + k
    {
      if coins[i].denom == coin.denom { return coins[i := coin]; }
      assert coins[i..][1..] == coins[i + 1..];
    }
    return Add(coins, coin);
  }

  class AuthzKeeper {
    var grants: Grants

    constructor ()
      ensures grants == map[]
    {
      grants := map[];
    }

    method SaveGrant(p: Pair, now: int, auth: Authorization, expiration: int, event: int) returns (r: Result)
      modifies this
      ensures (grants, r) == Save(old(grants), p, now, auth, expiration, event)
    {
      if expiration <= now { return Failure(InvalidExpiration); }
      grants := grants[p := Grant(auth, expiration)];
      return Success(event);
    }

    method DeleteGrant(p: Pair)
      modifies this
      ensures grants == old(grants) - {p}
    {
      grants := grants - {p};
    }
  }

  /** One token pair's precompile; all of them share the keeper. */
  class Precompile {
    const denom: string
    const keeper: AuthzKeeper

    constructor (denom: string, keeper: AuthzKeeper)
      ensures this.denom == denom && this.keeper == keeper
    {
      this.denom, this.keeper := denom, keeper;
    }

    method CreateAuthorization(p: Pair, now: int, amount: int) returns (r: Result)
      modifies keeper
      ensures (keeper.grants, r) == Create(old(keeper.grants), p, now, denom, amount)
    {
      if amount >= TWO_256 { return Failure(IntegerOverflow); }
      r := keeper.SaveGrant(p, now, Send([Coin(denom, amount)]), now + DURATION, amount);
    }

    method UpdateAuthorization(p: Pair, now: int, amount: int, limit: seq<Coin>, expiration: int) returns (r: Result)
      modifies keeper
      ensures (keeper.grants, r) == Update(old(keeper.grants), p, now, denom, amount, limit, expiration)
    {
      if amount >= TWO_256 { return Failure(IntegerOverflow); }
      var updated := UpdateOrAddCoin(limit, Coin(denom, amount));
      if !AllPositive(updated) { return Failure(InvalidCoins); }
      r := keeper.SaveGrant(p, now, Send(updated), expiration, amount);
    }

    method RemoveSpendLimitOrDeleteAuthorization(p: Pair, now: int, grant: Grant, event: int) returns (r: Result)
      modifies keeper
      ensures (keeper.grants, r) == Remove(old(keeper.grants), p, now, denom, grant, event)
    {
      if !grant.auth.Send? { return Failure(UnknownAuthorizationType); }
      var found := Find(grant.auth.spendLimit, denom);
      if found.None? { return Failure(NoAllowance); }
      var left := Add(grant.auth.spendLimit, Coin(denom, 0 - found.value.amount));
      if AnyNegative(left) { return Failure(SubtractMoreThanAllowance); }
      if left == [] {
        keeper.DeleteGrant(p);
        return Success(event);
      }
      r := keeper.SaveGrant(p, now, Send(left), grant.expiration, event);
    }

    method Approve(p: Pair, now: int, amount: int) returns (r: Result)
      modifies keeper
      ensures (keeper.grants, r) == Step(old(keeper.grants), Call(CallApprove, now, denom, p, amount))
    {
      hide Create, Update, Remove;
      if p.owner == p.spender { return Failure(SpenderIsOwner); }
      var found := Lookup(keeper.grants, p, now);
      if found.None? && amount < 0 {
        return Failure(NegativeAmount);
      } else if found.None? && amount > 0 {
        r := CreateAuthorization(p, now, amount);
      } else if found.Some? && amount <= 0 {
        r := RemoveSpendLimitOrDeleteAuthorization(p, now, found.value, amount);
      } else if found.Some? {
        if !found.value.auth.Send? { return Failure(UnknownAuthorizationType); }
        r := UpdateAuthorization(p, now, amount, found.value.auth.spendLimit, found.value.expiration);
      } else {
        r := Success(amount);
      }
    }

    method IncreaseAllowance(p: Pair, now: int, added: int) returns (r: Result)
      modifies keeper
      ensures (keeper.grants, r) == Step(old(keeper.grants), Call(CallIncrease, now, denom, p, added))
    {
      hide Create, Update;
      if p.owner == p.spender { return Failure(SpenderIsOwner); }
      var found := Lookup(keeper.grants, p, now);
      if added <= 0 { return Failure(NonPositiveValue); }
      if found.None? {
        r := CreateAuthorization(p, now, added);
      } else {
        if !found.value.auth.Send? { return Failure(UnknownAuthorizationType); }
        var limit := found.value.auth.spendLimit;
        r := UpdateAuthorization(p, now, AmountOf(limit, denom) + added, limit, found.value.expiration);
      }
    }

    method DecreaseAllowance(p: Pair, now: int, subtracted: int) returns (r: Result)
      modifies keeper
      ensures (keeper.grants, r) == Step(old(keeper.grants), Call(CallDecrease, now, denom, p, subtracted))
    {
      hide Update, Remove;
      if p.owner == p.spender { return Failure(SpenderIsOwner); }
      var found := Lookup(keeper.grants, p, now);
      if subtracted <= 0 { return Failure(NonPositiveValue); }
      if found.None? || !found.value.auth.Send? { return Failure(NoAllowance); }
      var limit := found.value.auth.spendLimit;
      var allowance := AmountOf(limit, denom);
      if subtracted < allowance {
        r := UpdateAuthorization(p, now, allowance - subtracted, limit, found.value.expiration);
      } else if subtracted == allowance {
        r := RemoveSpendLimitOrDeleteAuthorization(p, now, found.value, 0);
      } else if allowance == 0 {
        r := Failure(NoAllowance);
      } else {
        r := Failure(SubtractMoreThanAllowance);
      }
    }

    /** `transferFrom`: the grant is consumed first, and the EVM restores it when the send fails. */
    method TransferFrom(p: Pair, now: int, amount: int, bankOk: bool) returns (r: Result)
      modifies keeper
      ensures (keeper.grants, r) == Step(old(keeper.grants), Call(CallTransferFrom(bankOk), now, denom, p, amount))
    {
      if amount <= 0 || amount >= TWO_256 { return Failure(InvalidCoins); }
      if p.owner == p.spender {
        if !bankOk { return Failure(BankError); }
        return Success(TWO_256 - 1);
      }
      var found := Lookup(keeper.grants, p, now);
      if found.None? || !found.value.auth.Send? { return Failure(NoAuthorization); }
      var limit := found.value.auth.spendLimit;
      var prevAllowance := AmountOf(limit, denom);
      var snapshot := keeper.grants;
      var left := Add(limit, Coin(denom, 0 - amount));
      if AnyNegative(left) { return Failure(InsufficientSpendLimit); }
      if left == [] {
        keeper.DeleteGrant(p);
      } else {
        keeper.grants := keeper.grants[p := Grant(Send(left), found.value.expiration)];
      }
      if !bankOk {
        keeper.grants := snapshot;
        return Failure(BankError);
      }
      return Success(prevAllowance - amount);
    }
  }
}
