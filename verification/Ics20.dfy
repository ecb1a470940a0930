/** ICS-20 transfer allowances (`precompiles/ics20`): a transfer authorization is a list of
    allocations, one per (port, channel), each with its own spend limit. */
module Ics20 {
  import opened Wrappers
  import opened Coins

  datatype Allocation = Allocation(
    sourcePort: string,
    sourceChannel: string,
    spendLimit: seq<Coin>,
    allowList: seq<string>,
    allowedPacketData: seq<string>
  )

  type Allocations = seq<Allocation>

  predicate Matches(a: Allocation, port: string, channel: string) {
    a.sourcePort == port && a.sourceChannel == channel
  }

  /** The first allocation for the port and channel. */
  function IndexOf(allocs: Allocations, port: string, channel: string): (k: int)
    ensures -1 <= k < |allocs|
    ensures k >= 0 ==> IsFirst(allocs, k, port, channel)
    ensures k < 0 ==> forall i :: 0 <= i < |allocs| ==> !Matches(allocs[i], port, channel)
  {
    if allocs == [] then -1
    else if Matches(allocs[0], port, channel) then 0
    else
      var k := IndexOf(allocs[1..], port, channel);
      assert forall i :: 0 < i < |allocs| ==> allocs[i] == allocs[1..][i - 1];
      if k < 0 then -1 else k + 1
  }

  /** No allocation before this one is for the port and channel. */
  predicate IsFirst(allocs: Allocations, k: int, port: string, channel: string) {
    && 0 <= k < |allocs| && allocs[k].sourcePort == port && allocs[k].sourceChannel == channel
    && forall i :: 0 <= i < k ==> allocs[i].sourcePort != port || allocs[i].sourceChannel != channel
  }

  /** The spend limit found and the index of its allocation, or nothing when the first matching
      allocation has no coin of the denomination. */
  function Locate(allocs: Allocations, port: string, channel: string, denom: string): Option<(Coin, nat)> {
    var k := IndexOf(allocs, port, channel);
    if k < 0 then None
    else
      var coin := Find(allocs[k].spendLimit, denom);
      if coin.None? then None else Some((coin.value, k as nat))
  }

  /** `checkAllocationExists`. */
  method CheckAllocationExists(allocs: Allocations, port: string, channel: string, denom: string)
    returns (r: Option<(Coin, nat)>)
    ensures r == Locate(allocs, port, channel, denom)
  {
    for i := 0 to |allocs|
      invariant IndexOf(allocs, port, channel)
             == var k := IndexOf(allocs[i..], port, channel); if k < 0 then -1 else i + k
    {
      assert allocs[i..][1..] == allocs[i + 1..];
      if allocs[i].sourcePort != port || allocs[i].sourceChannel != channel { continue; }
      var coin := Find(allocs[i].spendLimit, denom);
      if coin.None? { return None; }
      return Some((coin.value, i));
    }
    return None;
  }

  // ---- the in-place decrease ----

  /** The list with the denomination's amount lowered, and the coin gone when nothing is left. */
  function Lowered(cs: seq<Coin>, denom: string, expense: int): seq<Coin> {
    if cs == [] then []
    else if cs[0].denom == denom then
      if cs[0].amount - expense <= 0 then cs[1..] else [Coin(denom, cs[0].amount - expense)] + cs[1..]
    else [cs[0]] + Lowered(cs[1..], denom, expense)
  }

  predicate Distinct(cs: seq<Coin>) {
    forall i, j :: 0 <= i < j < |cs| ==> cs[i].denom != cs[j].denom
  }

  lemma SortedIsDistinct(cs: seq<Coin>)
    requires Sorted(cs)
    ensures Distinct(cs)
  {
    forall i, j | 0 <= i < j < |cs| ensures cs[i].denom != cs[j].denom {
      Strings.LessIrreflexive(cs[i].denom);
    }
  }

  lemma {:induction false} LoweredMissing(cs: seq<Coin>, denom: string, expense: int)
    requires forall k :: 0 <= k < |cs| ==> cs[k].denom != denom
    ensures Lowered(cs, denom, expense) == cs
  {
    if cs != [] { LoweredMissing(cs[1..], denom, expense); }
  }

  lemma LoweredUnfolds(cs: seq<Coin>, denom: string, expense: int)
    requires cs != []
    ensures cs[0].denom != denom ==> Lowered(cs, denom, expense) == [cs[0]] + Lowered(cs[1..], denom, expense)
    ensures cs[0].denom == denom && cs[0].amount - expense <= 0 ==> Lowered(cs, denom, expense) == cs[..0] + cs[1..]
    ensures cs[0].denom == denom && cs[0].amount - expense > 0 ==>
              Lowered(cs, denom, expense) == cs[0 := Coin(denom, cs[0].amount - expense)]
  {
  }

  lemma {:induction false} LoweredAt(cs: seq<Coin>, denom: string, expense: int, i: nat)
    requires i < |cs| && cs[i].denom == denom && forall k :: 0 <= k < i ==> cs[k].denom != denom
    ensures Lowered(cs, denom, expense)
         == if cs[i].amount - expense <= 0 then cs[..i] + cs[i + 1..] else cs[i := Coin(denom, cs[i].amount - expense)]
    decreases i
  {
    hide Lowered;
    LoweredUnfolds(cs, denom, expense);
    if i > 0 {
      var t := cs[1..];
      LoweredAt(t, denom, expense, i - 1);
      if cs[i].amount - expense <= 0 {
        assert [cs[0]] + (t[..i - 1] + t[i..]) == cs[..i] + cs[i + 1..];
      } else {
        var c := Coin(denom, cs[i].amount - expense);
        assert [cs[0]] + t[i - 1 := c] == cs[i := c];
      }
    }
  }

  /** A coin cut out of a slice of length `len`: the backing array after the tail has moved down. */
  function Removed(cs: seq<Coin>, len: nat, i: nat): seq<Coin>
    requires i < len <= |cs|
  {
    seq(|cs|, k requires 0 <= k < |cs| => cs[if i <= k < len - 1 then k + 1 else k])
  }

  /** The rest of the loop from element `i` on, with backing array `cs` and a slice that has shrunk to
      `len`: the slice it ends with, or a panic. */
  function EditFrom(cs: seq<Coin>, len: nat, i: nat, denom: string, expense: int): Option<seq<Coin>>
    requires len <= |cs|
    decreases |cs| - i
  {
    if i >= |cs| then Some(cs[..len])
    else if cs[i].denom != denom then EditFrom(cs, len, i + 1, denom, expense)
    else if cs[i].amount - expense <= 0 then
      if i + 1 > len then None else EditFrom(Removed(cs, len, i), len - 1, i + 1, denom, expense)
    else if i >= len then None
    else EditFrom(cs[i := Coin(denom, cs[i].amount - expense)], len, i + 1, denom, expense)
  }

  /** The loop of `DecreaseAllowance` over `allocation.SpendLimit`. The range runs over all the
      elements the slice had at the start and reads the backing array as it is now, while removing
      a coin shifts the rest of the backing array down and shortens the slice to `len`; an index
      beyond `len` is a Go panic. */
  method DecreaseInPlace(coins: array<Coin>, denom: string, expense: int) returns (len: nat, panicked: bool)
    modifies coins
    ensures len <= coins.Length
    ensures EditFrom(old(coins[..]), coins.Length, 0, denom, expense) == if panicked then None else Some(coins[..len])
  {
    hide EditFrom, Removed;
    len, panicked := coins.Length, false;
    for i := 0 to coins.Length
      invariant len <= coins.Length
      invariant EditFrom(old(coins[..]), coins.Length, 0, denom, expense) == EditFrom(coins[..], len, i, denom, expense)
    {
      EditUnfolds(coins[..], len, i, denom, expense);
      var coin := coins[i];
      if coin.denom != denom { continue; }
      var coinDiff := coin.amount - expense;
      if coinDiff <= 0 {
        if i + 1 > len { return len, true; }
        RemoveAt(coins, len, i);
        len := len - 1;
      } else {
        if i >= len { return len, true; }
        ghost var before := coins[..];
        coins[i] := Coin(coin.denom, coinDiff);
        assert coins[..] == before[i := Coin(denom, coinDiff)];
      }
    }
    EditEnds(coins[..], len, denom, expense);
  }

  lemma EditUnfolds(cs: seq<Coin>, len: nat, i: nat, denom: string, expense: int)
    requires len <= |cs| && i < |cs|
    ensures EditFrom(cs, len, i, denom, expense) ==
            if cs[i].denom != denom then EditFrom(cs, len, i + 1, denom, expense)
            else if cs[i].amount - expense <= 0 then
              if i + 1 > len then None else EditFrom(Removed(cs, len, i), len - 1, i + 1, denom, expense)
            else if i >= len then None
            else EditFrom(cs[i := Coin(denom, cs[i].amount - expense)], len, i + 1, denom, expense)
  {
    hide Removed;
  }

  lemma EditEnds(cs: seq<Coin>, len: nat, denom: string, expense: int)
    requires len <= |cs|
    ensures EditFrom(cs, len, |cs|, denom, expense) == Some(cs[..len])
  {
  }

  /** On distinct denominations none of this shows: the loop lowers the one coin. */
  lemma EditLowers(cs: seq<Coin>, denom: string, expense: int)
    requires Distinct(cs)
    ensures EditFrom(cs, |cs|, 0, denom, expense) == Some(Lowered(cs, denom, expense))
  {
    EditProgress(cs, |cs|, cs, 0, -1, denom, expense);
  }

  lemma {:induction false} EditProgress(now: seq<Coin>, len: nat, before: seq<Coin>, i: nat, hit: int, denom: string,
                                        expense: int)
    requires i <= |before| && Distinct(before) && Progress(now, len, before, i, hit, denom, expense)
    ensures EditFrom(now, len, i, denom, expense) == Some(Lowered(before, denom, expense))
    decreases |before| - i
  {
    hide Lowered;
    if i == |before| {
      ProgressDone(now, len, before, hit, denom, expense);
    } else if now[i].denom != denom {
      EditProgress(now, len, before, i + 1, hit, denom, expense);
    } else if now[i].amount - expense <= 0 {
      EditProgress(Removed(now, len, i), len - 1, before, i + 1, i, denom, expense);
    } else {
      EditProgress(now[i := Coin(denom, now[i].amount - expense)], len, before, i + 1, i, denom, expense);
    }
  }

  /** `append(s[:i], s[i+1:]...)` on a slice of length `len`: the tail moves down in the backing
      array, and the element that was last stays behind it. */
  method RemoveAt(coins: array<Coin>, len: nat, i: nat)
    requires i < len <= coins.Length
    modifies coins
    ensures coins[..] == Removed(old(coins[..]), len, i)
  {
    ghost var before := coins[..];
    var k := i;
    while k < len - 1
      invariant i <= k <= len - 1
      invariant forall j :: 0 <= j < coins.Length ==> coins[j] == before[if i <= j < k then j + 1 else j]
    {
      coins[k] := coins[k + 1];
      k := k + 1;
    }
  }

  /** Where the loop is before iteration `i`: the denomination not met yet, or met at `hit`. */
  ghost predicate Progress(now: seq<Coin>, len: nat, before: seq<Coin>, i: nat, hit: int, denom: string, expense: int) {
    && |now| == |before| && len <= |now|
    && if hit < 0 then
         && hit == -1 && now == before && len == |before|
         && forall k :: 0 <= k < i && k < |before| ==> before[k].denom != denom
       else
         && hit < i && hit < |before| && before[hit].denom == denom
         && if before[hit].amount - expense <= 0 then
              && len == |before| - 1
              && forall k :: 0 <= k < |now| ==> now[k] == before[if hit <= k < |before| - 1 then k + 1 else k]
            else len == |before| && now == before[hit := Coin(denom, before[hit].amount - expense)]
  }

  lemma ProgressDone(now: seq<Coin>, len: nat, before: seq<Coin>, hit: int, denom: string, expense: int)
    requires Distinct(before) && Progress(now, len, before, |before|, hit, denom, expense)
    ensures now[..len] == Lowered(before, denom, expense)
  {
    if hit < 0 {
      LoweredMissing(before, denom, expense);
      assert now[..len] == before;
    } else {
      LoweredAt(before, denom, expense, hit);
      if before[hit].amount - expense <= 0 {
        assert now[..len] == before[..hit] + before[hit + 1..];
      } else {
        assert now[..len] == now;
      }
    }
  }

  // ---- increase and decrease ----

  datatype Error = NoMatchingAllocation | IntegerOverflow | NegativeAmount

  datatype Edit = Edited(allocs: Allocations) | Refused(error: Error) | Panicked

  /** Amounts reach the precompile as `uint256`. */
  type uint256 = x: int | 0 <= x < TWO_256

  function WithLimit(allocs: Allocations, k: nat, limit: seq<Coin>): Allocations
    requires k < |allocs|
  {
    allocs[k := allocs[k].(spendLimit := limit)]
  }

  function Increase(allocs: Allocations, port: string, channel: string, denom: string, amount: uint256): Edit {
    match Locate(allocs, port, channel, denom)
    case None => Refused(NoMatchingAllocation)
    case Some((limit, k)) =>
      if limit.amount + amount >= TWO_256 then Refused(IntegerOverflow)
      else Edited(WithLimit(allocs, k, Add(allocs[k].spendLimit, Coin(denom, amount))))
  }

  function Decrease(allocs: Allocations, port: string, channel: string, denom: string, amount: uint256): Edit {
    match Locate(allocs, port, channel, denom)
    case None => Refused(NoMatchingAllocation)
    case Some((limit, k)) =>
      if limit.amount < amount then Refused(NegativeAmount)
      else Edited(WithLimit(allocs, k, Lowered(allocs[k].spendLimit, denom, amount)))
  }

  /** What `ValidateBasic` established when the authorization was granted and every edit keeps. */
  predicate ValidAllocs(allocs: Allocations) {
    forall k :: 0 <= k < |allocs| ==> Sorted(allocs[k].spendLimit) && InRange(allocs[k].spendLimit)
  }

  /** `IncreaseAllowance`, the edit. */
  method IncreaseAllowance(allocs: Allocations, port: string, channel: string, denom: string, amount: uint256)
    returns (r: Edit)
    ensures r == Increase(allocs, port, channel, denom, amount)
  {
    var found := CheckAllocationExists(allocs, port, channel, denom);
    if found.None? { return Refused(NoMatchingAllocation); }
    var (limit, k) := found.value;
    if limit.amount + amount >= TWO_256 { return Refused(IntegerOverflow); }
    return Edited(WithLimit(allocs, k, Add(allocs[k].spendLimit, Coin(denom, amount))));
  }

  /** The decrease as the loop does it, whatever the coin list. */
  function DecreaseAny(allocs: Allocations, port: string, channel: string, denom: string, amount: uint256): Edit {
    match Locate(allocs, port, channel, denom)
    case None => Refused(NoMatchingAllocation)
    case Some((limit, k)) =>
      if limit.amount < amount then Refused(NegativeAmount)
      else
        match EditFrom(allocs[k].spendLimit, |allocs[k].spendLimit|, 0, denom, amount)
        case None => Panicked
        case Some(cs) => Edited(WithLimit(allocs, k, cs))
  }

  /** On valid allocations the loop never panics and lowers the one limit. */
  lemma DecreaseAnyIsDecrease(allocs: Allocations, port: string, channel: string, denom: string, amount: uint256)
    requires ValidAllocs(allocs)
    ensures DecreaseAny(allocs, port, channel, denom, amount) == Decrease(allocs, port, channel, denom, amount)
  {
    hide EditFrom, Lowered, Find, IndexOf, Sorted, InRange;
    var found := Locate(allocs, port, channel, denom);
    if found.Some? {
      var cs := allocs[found.value.1].spendLimit;
      SortedIsDistinct(cs);
      EditLowers(cs, denom, amount);
    }
  }

  /** `DecreaseAllowance`, the edit. */
  method DecreaseAllowance(allocs: Allocations, port: string, channel: string, denom: string, amount: uint256)
    returns (r: Edit)
    ensures r == DecreaseAny(allocs, port, channel, denom, amount)
  {
    var found := CheckAllocationExists(allocs, port, channel, denom);
    if found.None? { return Refused(NoMatchingAllocation); }
    var (limit, k) := found.value;
    if limit.amount < amount { return Refused(NegativeAmount); }
    var cs := allocs[k].spendLimit;
    var coins := new Coin[|cs|](i requires 0 <= i < |cs| => cs[i]);
    assert coins[..] == cs;
    var len, panicked := DecreaseInPlace(coins, denom, amount);
    if panicked { return Panicked; }
    return Edited(WithLimit(allocs, k, coins[..len]));
  }

  // ---- what an edit changes ----

  /** The limit in force for a (port, channel, denomination). */
  function LimitOf(allocs: Allocations, port: string, channel: string, denom: string): int {
    var found := Locate(allocs, port, channel, denom);
    if found.Some? then found.value.0.amount else 0
  }

  lemma {:induction false} LoweredSpells(cs: seq<Coin>, denom: string, expense: uint256)
    requires Sorted(cs) && denom in Spelled(cs) && expense <= Spelled(cs)[denom]
    ensures Lowered(cs, denom, expense) == Add(cs, Coin(denom, 0 - expense))
  {
    hide Sorted, Spelled, Add, Strings.Less;
    SpelledNotEmpty(cs, denom);
    Uncons(cs);
    var h, t := cs[0], cs[1..];
    AddUnfolds(cs, Coin(denom, 0 - expense));
    if h.denom != denom {
      BelowSpelled(h.denom, t, denom);
      LoweredSpells(t, denom, expense);
    }
  }

  lemma {:induction false} BelowSpelled(d: string, cs: seq<Coin>, denom: string)
    requires Below(d, cs) && denom in Spelled(cs)
    ensures Strings.Less(d, denom)
  {
    SpelledKeys(cs, denom);
  }

  /** The lowered list spells the same amounts but for the denomination, which is lowered by the
      expense and dropped exactly when nothing is left; it stays sorted and in range. */
  lemma LoweredMeans(cs: seq<Coin>, denom: string, expense: uint256)
    requires Sorted(cs) && InRange(cs) && denom in Spelled(cs) && expense <= Spelled(cs)[denom]
    ensures var r := Lowered(cs, denom, expense);
            && Sorted(r) && InRange(r)
            && Spelled(r) == Adjusted(Spelled(cs), denom, Spelled(cs)[denom] - expense)
  {
    hide Sorted, InRange, Spelled, Add, Lowered;
    LoweredSpells(cs, denom, expense);
    AddSpells(cs, Coin(denom, 0 - expense));
    ValidSpelled(cs);
    ValidSpelled(Lowered(cs, denom, expense));
  }

  lemma RaisedMeans(cs: seq<Coin>, denom: string, amount: uint256)
    requires Sorted(cs) && InRange(cs) && denom in Spelled(cs) && Spelled(cs)[denom] + amount < TWO_256
    ensures var r := Add(cs, Coin(denom, amount));
            && Sorted(r) && InRange(r)
            && Spelled(r) == Spelled(cs)[denom := Spelled(cs)[denom] + amount]
  {
    hide Sorted, InRange, Spelled, Add;
    AddSpells(cs, Coin(denom, amount));
    ValidSpelled(cs);
    ValidSpelled(Add(cs, Coin(denom, amount)));
  }

  lemma LocateMeans(allocs: Allocations, port: string, channel: string, denom: string)
    ensures var k := IndexOf(allocs, port, channel);
            Locate(allocs, port, channel, denom)
            == if k >= 0 && denom in Spelled(allocs[k].spendLimit)
               then Some((Coin(denom, Spelled(allocs[k].spendLimit)[denom]), k as nat)) else None
  {
    hide IndexOf, Find, Spelled;
    var k := IndexOf(allocs, port, channel);
    if k >= 0 { FindSpelled(allocs[k].spendLimit, denom); }
  }

  lemma {:induction false} IndexOfWithLimit(allocs: Allocations, k: nat, limit: seq<Coin>, port: string,
                                            channel: string)
    requires k < |allocs|
    ensures IndexOf(WithLimit(allocs, k, limit), port, channel) == IndexOf(allocs, port, channel)
  {
    if k > 0 {
      assert WithLimit(allocs, k, limit)[1..] == WithLimit(allocs[1..], k - 1, limit);
      IndexOfWithLimit(allocs[1..], k - 1, limit, port, channel);
    } else {
      assert WithLimit(allocs, 0, limit)[1..] == allocs[1..];
    }
  }

  /** Only the spend limit of one allocation is rewritten, and in it only one denomination. */
  ghost predicate OnlyChanges(before: Allocations, after: Allocations, k: nat, denom: string, amount: int) {
    && |after| == |before| && k < |before|
    && (forall j :: 0 <= j < |before| && j != k ==> after[j] == before[j])
    && after[k] == before[k].(spendLimit := after[k].spendLimit)
    && Spelled(after[k].spendLimit) == Adjusted(Spelled(before[k].spendLimit), denom, amount)
  }

  // ---- the same without the search ----

  /** The first allocation for the port and channel holds this much of the denomination. */
  ghost predicate IsLimit(allocs: Allocations, k: int, port: string, channel: string, denom: string, limit: int) {
    IsFirst(allocs, k, port, channel) && Coin(denom, limit) in allocs[k].spendLimit
  }

  lemma {:induction false} CoinSpelled(cs: seq<Coin>, denom: string, amount: int)
    requires Sorted(cs)
    ensures Coin(denom, amount) in cs <==> denom in Spelled(cs) && Spelled(cs)[denom] == amount
  {
    if cs != [] {
      CoinSpelled(cs[1..], denom, amount);
      Uncons(cs);
      assert cs == [cs[0]] + cs[1..];
      if cs[0].denom == denom { BelowIsNew(denom, cs[1..]); }
    }
  }

  /** The search finds that limit, and nothing when there is none. */
  lemma LimitExactly(allocs: Allocations, port: string, channel: string, denom: string)
    requires ValidAllocs(allocs)
    ensures forall k, limit :: IsLimit(allocs, k, port, channel, denom, limit) ==>
              k == IndexOf(allocs, port, channel) && limit == LimitOf(allocs, port, channel, denom)
    ensures Locate(allocs, port, channel, denom).Some? ==>
              IsLimit(allocs, IndexOf(allocs, port, channel), port, channel, denom,
                      LimitOf(allocs, port, channel, denom))
    ensures Locate(allocs, port, channel, denom).None? ==>
              forall k, limit :: !IsLimit(allocs, k, port, channel, denom, limit)
  {
    hide Sorted, InRange, Spelled, Find;
    LocateMeans(allocs, port, channel, denom);
    var i := IndexOf(allocs, port, channel);
    forall k | IsFirst(allocs, k, port, channel) ensures k == i { assert i >= 0; }
    if i >= 0 {
      forall limit ensures Coin(denom, limit) in allocs[i].spendLimit <==>
                           denom in Spelled(allocs[i].spendLimit) && Spelled(allocs[i].spendLimit)[denom] == limit {
        CoinSpelled(allocs[i].spendLimit, denom, limit);
      }
    }
  }

  /** A decrease succeeds exactly when the first allocation for the port and channel holds enough of the
      denomination; then that limit is lowered by the amount, dropped at zero, and nothing else. */
  lemma DecreaseExact(allocs: Allocations, port: string, channel: string, denom: string, amount: uint256)
    requires ValidAllocs(allocs)
    ensures var r := Decrease(allocs, port, channel, denom, amount);
            && (r.Edited? ==> ValidAllocs(r.allocs))
            && (r.Edited? <==> exists k, limit :: IsLimit(allocs, k, port, channel, denom, limit) && amount <= limit)
            && forall k: nat, limit :: IsLimit(allocs, k, port, channel, denom, limit) && amount <= limit ==>
                 OnlyChanges(allocs, r.allocs, k, denom, limit - amount)
  {
    hide Decrease, LimitOf, OnlyChanges, ValidAllocs, Locate, IsLimit, IndexOf;
    LimitExactly(allocs, port, channel, denom);
    DecreaseEdits(allocs, port, channel, denom, amount);
  }

  /** An increase succeeds exactly when that limit exists and the sum fits 256 bits. */
  lemma IncreaseExact(allocs: Allocations, port: string, channel: string, denom: string, amount: uint256)
    requires ValidAllocs(allocs)
    ensures var r := Increase(allocs, port, channel, denom, amount);
            && (r.Edited? ==> ValidAllocs(r.allocs))
            && (r.Edited? <==>
                exists k, limit :: IsLimit(allocs, k, port, channel, denom, limit) && limit + amount < TWO_256)
            && forall k: nat, limit :: IsLimit(allocs, k, port, channel, denom, limit) && limit + amount < TWO_256 ==>
                 OnlyChanges(allocs, r.allocs, k, denom, limit + amount)
  {
    hide Increase, LimitOf, OnlyChanges, ValidAllocs, Locate, IsLimit, IndexOf;
    LimitExactly(allocs, port, channel, denom);
    IncreaseEdits(allocs, port, channel, denom, amount);
  }

  /** Why an edit was refused. */
  lemma RefusedWithReason(allocs: Allocations, port: string, channel: string, denom: string, amount: uint256, e: Error)
    requires ValidAllocs(allocs)
    requires || Decrease(allocs, port, channel, denom, amount) == Refused(e)
             || Increase(allocs, port, channel, denom, amount) == Refused(e)
    ensures match e
            case NoMatchingAllocation => forall k, limit :: !IsLimit(allocs, k, port, channel, denom, limit)
            case NegativeAmount => exists k, limit :: IsLimit(allocs, k, port, channel, denom, limit) && limit < amount
            case IntegerOverflow =>
              exists k, limit :: IsLimit(allocs, k, port, channel, denom, limit) && limit + amount >= TWO_256
  {
    hide ValidAllocs, IsLimit, IndexOf, Lowered, Add, Find;
    LimitExactly(allocs, port, channel, denom);
    var i, limit := IndexOf(allocs, port, channel), LimitOf(allocs, port, channel, denom);
    assert Locate(allocs, port, channel, denom).Some? ==> IsLimit(allocs, i, port, channel, denom, limit);
  }

  /** A decrease goes through exactly when the limit found covers it, and lowers that limit and nothing
      else. */
  lemma DecreaseEdits(allocs: Allocations, port: string, channel: string, denom: string, amount: uint256)
    requires ValidAllocs(allocs)
    ensures var r := Decrease(allocs, port, channel, denom, amount);
            var limit := LimitOf(allocs, port, channel, denom);
            && (r.Edited? <==> Locate(allocs, port, channel, denom).Some? && amount <= limit)
            && (r.Edited? ==>
                  && ValidAllocs(r.allocs)
                  && OnlyChanges(allocs, r.allocs, IndexOf(allocs, port, channel), denom, limit - amount))
  {
    hide Sorted, InRange, Spelled, Lowered, IndexOf, Locate, Adjusted;
    LocateMeans(allocs, port, channel, denom);
    var k := IndexOf(allocs, port, channel);
    if k >= 0 && denom in Spelled(allocs[k].spendLimit) && amount <= Spelled(allocs[k].spendLimit)[denom] {
      LoweredMeans(allocs[k].spendLimit, denom, amount);
    }
  }

  lemma IncreaseEdits(allocs: Allocations, port: string, channel: string, denom: string, amount: uint256)
    requires ValidAllocs(allocs)
    ensures var r := Increase(allocs, port, channel, denom, amount);
            var limit := LimitOf(allocs, port, channel, denom);
            && (r.Edited? <==> Locate(allocs, port, channel, denom).Some? && limit + amount < TWO_256)
            && (r.Edited? ==>
                  && ValidAllocs(r.allocs)
                  && OnlyChanges(allocs, r.allocs, IndexOf(allocs, port, channel), denom, limit + amount))
  {
    hide Sorted, Spelled, Add, IndexOf, Locate;
    LocateMeans(allocs, port, channel, denom);
    var k := IndexOf(allocs, port, channel);
    if k >= 0 && denom in Spelled(allocs[k].spendLimit) && Spelled(allocs[k].spendLimit)[denom] + amount < TWO_256 {
      var cs := allocs[k].spendLimit;
      RaisedMeans(cs, denom, amount);
      ValidSpelled(cs);
    }
  }

  /** The limits in force: the edit moves its own and leaves every other (port, channel,
      denomination) alone. */
  lemma LimitsAfter(before: Allocations, after: Allocations, port: string, channel: string, denom: string, amount: int,
                    port': string, channel': string, denom': string)
    requires IndexOf(before, port, channel) >= 0
    requires OnlyChanges(before, after, IndexOf(before, port, channel), denom, amount)
    ensures LimitOf(after, port, channel, denom) == amount
    ensures (port', channel', denom') != (port, channel, denom) ==>
              LimitOf(after, port', channel', denom') == LimitOf(before, port', channel', denom')
  {
    hide Spelled, IndexOf, Locate;
    var k := IndexOf(before, port, channel);
    assert after == WithLimit(before, k, after[k].spendLimit);
    IndexOfWithLimit(before, k, after[k].spendLimit, port, channel);
    IndexOfWithLimit(before, k, after[k].spendLimit, port', channel');
    LocateMeans(after, port, channel, denom);
    LocateMeans(after, port', channel', denom');
    LocateMeans(before, port', channel', denom');
  }

  // ---- one undoes the other ----

  lemma {:induction false} AddUndone(cs: seq<Coin>, denom: string, amount: int)
    requires Sorted(cs) && denom in Spelled(cs) && Spelled(cs)[denom] != 0 && Spelled(cs)[denom] + amount != 0
    ensures Add(Add(cs, Coin(denom, amount)), Coin(denom, 0 - amount)) == cs
  {
    hide Sorted, Spelled, Add, Strings.Less;
    SpelledNotEmpty(cs, denom);
    var h, t, a := cs[0], cs[1..], Coin(denom, amount);
    Uncons(cs);
    AddUnfolds(cs, a);
    if h.denom == denom {
      var up := [Coin(denom, h.amount + amount)] + t;
      AddUnfolds(up, Coin(denom, 0 - amount));
      assert up[1..] == t;
    } else {
      BelowSpelled(h.denom, t, denom);
      AddUndone(t, denom, amount);
      var up := [h] + Add(t, a);
      AddUnfolds(up, Coin(denom, 0 - amount));
      assert up[1..] == Add(t, a);
    }
  }

  lemma SpelledNotEmpty(cs: seq<Coin>, denom: string)
    requires denom in Spelled(cs)
    ensures cs != []
  {
  }

  /** Increasing and then decreasing by the same amount restores the authorization, exactly. */
  lemma IncreaseThenDecrease(allocs: Allocations, port: string, channel: string, denom: string, amount: uint256)
    requires ValidAllocs(allocs) && Increase(allocs, port, channel, denom, amount).Edited?
    ensures var up := Increase(allocs, port, channel, denom, amount).allocs;
            Decrease(up, port, channel, denom, amount) == Edited(allocs)
  {
    hide Sorted, Spelled, Add, IndexOf, Locate, Lowered;
    LocateMeans(allocs, port, channel, denom);
    var k := IndexOf(allocs, port, channel);
    var cs := allocs[k].spendLimit;
    var up := Add(cs, Coin(denom, amount));
    ValidSpelled(cs);
    RaisedMeans(cs, denom, amount);
    IndexOfWithLimit(allocs, k, up, port, channel);
    LocateMeans(WithLimit(allocs, k, up), port, channel, denom);
    LoweredSpells(up, denom, amount);
    AddUndone(cs, denom, amount);
    assert WithLimit(WithLimit(allocs, k, up), k, cs) == allocs;
  }

  /** The other way round it does so exactly when something was left: once a coin has been used up it
      is gone from the list, and an increase no longer finds it. */
  lemma DecreaseThenIncrease(allocs: Allocations, port: string, channel: string, denom: string, amount: uint256)
    requires ValidAllocs(allocs) && Decrease(allocs, port, channel, denom, amount).Edited?
    ensures var down := Decrease(allocs, port, channel, denom, amount).allocs;
            Increase(down, port, channel, denom, amount) == Edited(allocs)
            <==> amount < LimitOf(allocs, port, channel, denom)
  {
    hide Sorted, Spelled, Add, IndexOf, Locate, Lowered, Adjusted;
    LocateMeans(allocs, port, channel, denom);
    var k := IndexOf(allocs, port, channel);
    var cs := allocs[k].spendLimit;
    var down := Lowered(cs, denom, amount);
    ValidSpelled(cs);
    LoweredMeans(cs, denom, amount);
    LoweredSpells(cs, denom, amount);
    AdjustedAt(Spelled(cs), denom, Spelled(cs)[denom] - amount);
    IndexOfWithLimit(allocs, k, down, port, channel);
    LocateMeans(WithLimit(allocs, k, down), port, channel, denom);
    if amount < Spelled(cs)[denom] {
      AddUndone(cs, denom, 0 - amount);
      assert WithLimit(WithLimit(allocs, k, down), k, cs) == allocs;
    }
  }

  /** A limit of 5 lowered by 5 is gone, and raising it by 5 is refused. */
  lemma UsedUpLimitGone()
    ensures var allocs := [Allocation("transfer", "channel-0", [Coin("a", 5)], [], [])];
            var down := Decrease(allocs, "transfer", "channel-0", "a", 5);
            && ValidAllocs(allocs) && down.Edited?
            && Increase(down.allocs, "transfer", "channel-0", "a", 5) == Refused(NoMatchingAllocation)
  {
    var cs := [Coin("a", 5)];
    var allocs := [Allocation("transfer", "channel-0", cs, [], [])];
    assert cs[1..] == [];
    assert Find(cs, "a") == Some(Coin("a", 5)) && Lowered(cs, "a", 5) == [];
    var down := Decrease(allocs, "transfer", "channel-0", "a", 5);
    assert down.allocs[0].spendLimit == [];
  }

  lemma AdjustedAt(m: map<string, int>, denom: string, amount: int)
    ensures denom in Adjusted(m, denom, amount) <==> amount != 0
    ensures amount != 0 ==> Adjusted(m, denom, amount)[denom] == amount
  {
  }

  // ---- runs ----

  datatype Call = Call(increase: bool, port: string, channel: string, denom: string, amount: uint256)

  function Apply(allocs: Allocations, c: Call): Edit {
    if c.increase then Increase(allocs, c.port, c.channel, c.denom, c.amount)
    else Decrease(allocs, c.port, c.channel, c.denom, c.amount)
  }

  function Run(allocs: Allocations, cs: seq<Call>): Allocations
    decreases |cs|
  {
    if cs == [] then allocs
    else
      var r := Apply(allocs, cs[0]);
      Run(if r.Edited? then r.allocs else allocs, cs[1..])
  }

  /** The net change the calls that went through asked for, for one (port, channel, denomination). */
  function Net(allocs: Allocations, cs: seq<Call>, port: string, channel: string, denom: string): int
    decreases |cs|
  {
    if cs == [] then 0
    else
      var c, r := cs[0], Apply(allocs, cs[0]);
      if !r.Edited? then Net(allocs, cs[1..], port, channel, denom)
      else
        (if (c.port, c.channel, c.denom) != (port, channel, denom) then 0
         else if c.increase then c.amount else 0 - c.amount)
        + Net(r.allocs, cs[1..], port, channel, denom)
  }

  /** Over any run, every limit is what it was plus exactly the net change asked of it. */
  lemma {:induction false} RunConserves(allocs: Allocations, cs: seq<Call>, port: string, channel: string,
                                        denom: string)
    requires ValidAllocs(allocs)
    ensures ValidAllocs(Run(allocs, cs))
    ensures LimitOf(Run(allocs, cs), port, channel, denom)
         == LimitOf(allocs, port, channel, denom) + Net(allocs, cs, port, channel, denom)
    decreases |cs|
  {
    hide ValidAllocs, Increase, Decrease, LimitOf, OnlyChanges;
    if cs != [] {
      var c := cs[0];
      var r := Apply(allocs, c);
      IncreaseEdits(allocs, c.port, c.channel, c.denom, c.amount);
      DecreaseEdits(allocs, c.port, c.channel, c.denom, c.amount);
      if r.Edited? {
        var limit := LimitOf(allocs, c.port, c.channel, c.denom);
        LocateIndex(allocs, c.port, c.channel, c.denom);
        LimitsAfter(allocs, r.allocs, c.port, c.channel, c.denom,
                    if c.increase then limit + c.amount else limit - c.amount, port, channel, denom);
        RunConserves(r.allocs, cs[1..], port, channel, denom);
      } else {
        RunConserves(allocs, cs[1..], port, channel, denom);
      }
    }
  }

  lemma LocateIndex(allocs: Allocations, port: string, channel: string, denom: string)
    requires Locate(allocs, port, channel, denom).Some?
    ensures IndexOf(allocs, port, channel) >= 0
  {
  }
}
