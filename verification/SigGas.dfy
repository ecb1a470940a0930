/** Gas for signature verification (`app/ante/sigverify.go`), through multisignatures nested to any
    depth. */
module SigGas {
  import opened Words

  const SECP256K1_COST: uint64 := 21000

  datatype PubKey =
    | EthSecp256k1
    | Ed25519
    | Multisig(keys: seq<PubKey>)
    | Other

  datatype SigData =
    | Single
    | Multi(bits: seq<bool>, signatures: seq<SigData>)

  /** How a call ends; an index outside a list and running out of gas are panics. */
  datatype Status = Ok | Err | Panic

  /** The gas counted and how the call ended. */
  datatype Charge = Charge(consumed: uint64, status: Status)

  /** `GasMeter.ConsumeGas`: a 64-bit overflow sets the counter to its maximum and panics, and so does
      passing the limit, with the gas counted. */
  function Consume(consumed: uint64, limit: uint64, amount: uint64): Charge {
    if consumed + amount >= TWO_64 then Charge(TWO_64 - 1, Panic)
    else Charge(consumed + amount, if consumed + amount > limit then Panic else Ok)
  }

  // ---- the two consumers, step by step ----

  function Run(consumed: uint64, limit: uint64, edCost: uint64, key: PubKey, data: SigData): Charge
    decreases key, 1, 0
  {
    match key
    case EthSecp256k1 => Consume(consumed, limit, SECP256K1_COST)
    case Ed25519 =>
      var r := Consume(consumed, limit, edCost);
      if r.status.Panic? then r else Charge(r.consumed, Err)
    case Multisig(_) => if data.Multi? then RunBits(consumed, limit, edCost, key, data, 0, 0) else Charge(consumed, Err)
    case Other => Charge(consumed, Err)
  }

  function RunBits(consumed: uint64, limit: uint64, edCost: uint64, key: PubKey, data: SigData, i: nat,
                   sigIndex: nat): Charge
    requires key.Multisig? && data.Multi? && i <= |data.bits|
    decreases key, 0, |data.bits| - i
  {
    if i == |data.bits| then Charge(consumed, Ok)
    else if !data.bits[i] then RunBits(consumed, limit, edCost, key, data, i + 1, sigIndex)
    else if i >= |key.keys| || sigIndex >= |data.signatures| then Charge(consumed, Panic)
    else
      var r := Run(consumed, limit, edCost, key.keys[i], data.signatures[sigIndex]);
      if r.status.Ok? then RunBits(r.consumed, limit, edCost, key, data, i + 1, sigIndex + 1) else r
  }

  // ---- what a multisignature signs ----

  /** The positions of the set bits below `n`, in order. */
  function Positions(bits: seq<bool>, n: nat): (ps: seq<nat>)
    requires n <= |bits|
    ensures |ps| <= n
  {
    if n == 0 then [] else Positions(bits, n - 1) + if bits[n - 1] then [n - 1] else []
  }

  function Selected(data: SigData): seq<nat>
    requires data.Multi?
  {
    Positions(data.bits, |data.bits|)
  }

  /** Every selected position has a key, the k-th of them has the k-th signature, and so on inside. */
  predicate WellFormed(key: PubKey, data: SigData)
    decreases key, 1
  {
    key.Multisig? ==> data.Multi? && forall k: nat :: k < |Selected(data)| ==> PairGood(key, data, k)
  }

  predicate PairGood(key: PubKey, data: SigData, k: nat)
    requires key.Multisig? && data.Multi? && k < |Selected(data)|
    decreases key, 0
  {
    var p := Selected(data)[k];
    p < |key.keys| && k < |data.signatures| && WellFormed(key.keys[p], data.signatures[k])
  }

  /** The leaf keys that sign. */
  function Leaves(key: PubKey, data: SigData): seq<PubKey>
    requires WellFormed(key, data)
    decreases key, 1, 0
  {
    if key.Multisig? then LeavesFrom(key, data, 0) else [key]
  }

  predicate GoodFrom(key: PubKey, data: SigData, k: nat)
    requires key.Multisig? && data.Multi? && k <= |Selected(data)|
  {
    forall j: nat :: k <= j < |Selected(data)| ==> PairGood(key, data, j)
  }

  function LeavesFrom(key: PubKey, data: SigData, k: nat): seq<PubKey>
    requires key.Multisig? && data.Multi? && k <= |Selected(data)| && GoodFrom(key, data, k)
    decreases key, 0, |Selected(data)| - k
  {
    if k == |Selected(data)| then []
    else
      assert PairGood(key, data, k);
      Leaves(key.keys[Selected(data)[k]], data.signatures[k]) + LeavesFrom(key, data, k + 1)
  }

  lemma {:induction false} PositionsPrefix(bits: seq<bool>, m: nat, n: nat)
    requires m <= n <= |bits|
    ensures Positions(bits, m) <= Positions(bits, n)
    decreases n
  {
    if m < n { PositionsPrefix(bits, m, n - 1); }
  }

  /** The k-th selected position is the place of the k-th set bit. */
  lemma {:induction false} PositionsExact(bits: seq<bool>, n: nat)
    requires n <= |bits|
    ensures forall i: nat :: i < n ==> (i in Positions(bits, n) <==> bits[i])
    ensures forall k :: 0 <= k < |Positions(bits, n)| ==> Positions(bits, n)[k] < n
    ensures forall j, k :: 0 <= j < k < |Positions(bits, n)| ==> Positions(bits, n)[j] < Positions(bits, n)[k]
  {
    if n > 0 { PositionsExact(bits, n - 1); }
  }

  // ---- success and its price ----

  predicate AllEth(keys: seq<PubKey>) {
    forall i :: 0 <= i < |keys| ==> keys[i].EthSecp256k1?
  }

  /** All leaves are Ethereum keys and their price is within the limit. */
  predicate Payable(consumed: nat, limit: uint64, leaves: seq<PubKey>) {
    AllEth(leaves) && (leaves != [] ==> consumed + 21000 * |leaves| <= limit)
  }

  lemma PayableConcat(consumed: nat, limit: uint64, a: seq<PubKey>, b: seq<PubKey>)
    ensures Payable(consumed, limit, a + b) <==>
            Payable(consumed, limit, a) && Payable(consumed + 21000 * |a|, limit, b)
  {
    assert forall i :: 0 <= i < |b| ==> (a + b)[|a| + i] == b[i];
    assert forall i :: 0 <= i < |a| ==> (a + b)[i] == a[i];
  }

  /** Charging succeeds exactly for well-formed signatures whose leaves are all Ethereum keys and paid
      for, and then costs 21000 per leaf that signs. */
  lemma {:induction false} RunExact(consumed: uint64, limit: uint64, edCost: uint64, key: PubKey, data: SigData)
    ensures var r := Run(consumed, limit, edCost, key, data);
            && (r.status.Ok? <==> WellFormed(key, data) && Payable(consumed, limit, Leaves(key, data)))
            && (r.status.Ok? ==> r.consumed == consumed + 21000 * |Leaves(key, data)|)
    decreases key, 1, 0
  {
    hide PairGood, Positions, RunBits, LeavesFrom;
    assert [key][0] == key;
    if key.Multisig? && data.Multi? {
      NoPositions(data.bits);
      RunBitsExact(consumed, limit, edCost, key, data, 0, 0);
    }
  }

  lemma NoPositions(bits: seq<bool>)
    ensures Positions(bits, 0) == []
  {
  }

  lemma NextSelected(data: SigData, i: nat, k: nat)
    requires data.Multi? && i <= |data.bits| && k == |Positions(data.bits, i)|
    ensures k <= |Selected(data)| && (i == |data.bits| ==> k == |Selected(data)|)
    ensures i < |data.bits| && data.bits[i] ==>
              k < |Selected(data)| && Selected(data)[k] == i && |Positions(data.bits, i + 1)| == k + 1
    ensures i < |data.bits| && !data.bits[i] ==> |Positions(data.bits, i + 1)| == k
  {
    PositionsPrefix(data.bits, i, |data.bits|);
    if i < |data.bits| {
      PositionsPrefix(data.bits, i + 1, |data.bits|);
      var ps := Positions(data.bits, i + 1);
      if data.bits[i] { assert ps[k] == i && Selected(data)[k] == ps[k]; }
    }
  }

  lemma GoodStep(key: PubKey, data: SigData, k: nat)
    requires key.Multisig? && data.Multi? && k < |Selected(data)|
    ensures GoodFrom(key, data, k) <==> PairGood(key, data, k) && GoodFrom(key, data, k + 1)
  {
  }

  lemma {:induction false} RunBitsExact(consumed: uint64, limit: uint64, edCost: uint64, key: PubKey, data: SigData,
                                        i: nat, k: nat)
    requires key.Multisig? && data.Multi? && i <= |data.bits| && k == |Positions(data.bits, i)|
    ensures k <= |Selected(data)|
    ensures var r := RunBits(consumed, limit, edCost, key, data, i, k);
            && (r.status.Ok? <==> GoodFrom(key, data, k) && Payable(consumed, limit, LeavesFrom(key, data, k)))
            && (r.status.Ok? ==> r.consumed == consumed + 21000 * |LeavesFrom(key, data, k)|)
    decreases key, 0, |data.bits| - i
  {
    hide Positions, Selected, Run, WellFormed, Leaves, AllEth, GoodFrom, Consume;
    NextSelected(data, i, k);
    if i == |data.bits| {
      NothingLeft(consumed, limit, key, data);
    } else if !data.bits[i] {
      RunBitsExact(consumed, limit, edCost, key, data, i + 1, k);
    } else {
      GoodStep(key, data, k);
      if i < |key.keys| && k < |data.signatures| {
        var r := Run(consumed, limit, edCost, key.keys[i], data.signatures[k]);
        RunExact(consumed, limit, edCost, key.keys[i], data.signatures[k]);
        if r.status.Ok? { RunBitsExact(r.consumed, limit, edCost, key, data, i + 1, k + 1); }
        if GoodFrom(key, data, k) {
          PayableConcat(consumed, limit, Leaves(key.keys[i], data.signatures[k]), LeavesFrom(key, data, k + 1));
        }
      }
    }
  }

  lemma NothingLeft(consumed: nat, limit: uint64, key: PubKey, data: SigData)
    requires key.Multisig? && data.Multi?
    ensures GoodFrom(key, data, |Selected(data)|) && Payable(consumed, limit, LeavesFrom(key, data, |Selected(data)|))
  {
  }

  // ---- every outcome of a well-formed signature ----

  /** What one leaf costs and how it ends: 21000 for an Ethereum key, the price of the parameters and an
      error for ed25519, an error for anything else; past the limit or 64 bits there is a panic. */
  function LeafCharge(consumed: uint64, limit: uint64, edCost: uint64, leaf: PubKey): Charge {
    var amount := match leaf
      case EthSecp256k1 => 21000
      case Ed25519 => edCost
      case _ => 0;
    if leaf.EthSecp256k1? || leaf.Ed25519? then
      if consumed + amount > 0xFFFF_FFFF_FFFF_FFFF then Charge(0xFFFF_FFFF_FFFF_FFFF, Panic)
      else if consumed + amount > limit then Charge(consumed + amount, Panic)
      else Charge(consumed + amount, if leaf.EthSecp256k1? then Ok else Err)
    else Charge(consumed, Err)
  }

  /** Leaf after leaf, until one does not end well. */
  function ChargeAll(consumed: uint64, limit: uint64, edCost: uint64, leaves: seq<PubKey>): Charge
    decreases |leaves|
  {
    if leaves == [] then Charge(consumed, Ok)
    else
      var r := LeafCharge(consumed, limit, edCost, leaves[0]);
      if r.status.Ok? then ChargeAll(r.consumed, limit, edCost, leaves[1..]) else r
  }

  lemma {:induction false} ChargeAllConcat(consumed: uint64, limit: uint64, edCost: uint64, a: seq<PubKey>,
                                           b: seq<PubKey>)
    ensures var r := ChargeAll(consumed, limit, edCost, a);
            ChargeAll(consumed, limit, edCost, a + b)
            == if r.status.Ok? then ChargeAll(r.consumed, limit, edCost, b) else r
    decreases |a|
  {
    hide LeafCharge;
    if a == [] {
      assert a + b == b;
    } else {
      assert (a + b)[1..] == a[1..] + b;
      var r := LeafCharge(consumed, limit, edCost, a[0]);
      if r.status.Ok? { ChargeAllConcat(r.consumed, limit, edCost, a[1..], b); }
    }
  }

  /** A well-formed signature, however nested, is charged like the list of its signing leaves. */
  lemma {:induction false} RunIsChargeAll(consumed: uint64, limit: uint64, edCost: uint64, key: PubKey, data: SigData)
    requires WellFormed(key, data)
    ensures Run(consumed, limit, edCost, key, data) == ChargeAll(consumed, limit, edCost, Leaves(key, data))
    decreases key, 1, 0
  {
    hide PairGood, Positions, RunBits, LeavesFrom;
    assert [key][1..] == [];
    if key.Multisig? {
      NoPositions(data.bits);
      RunBitsIsChargeAll(consumed, limit, edCost, key, data, 0, 0);
    }
  }

  lemma {:induction false} RunBitsIsChargeAll(consumed: uint64, limit: uint64, edCost: uint64, key: PubKey,
                                              data: SigData,
                                              i: nat, k: nat)
    requires key.Multisig? && data.Multi? && i <= |data.bits| && k == |Positions(data.bits, i)|
    requires k <= |Selected(data)| && GoodFrom(key, data, k)
    ensures RunBits(consumed, limit, edCost, key, data, i, k)
         == ChargeAll(consumed, limit, edCost, LeavesFrom(key, data, k))
    decreases key, 0, |data.bits| - i
  {
    hide Positions, Selected, Run, WellFormed, Leaves, LeafCharge, GoodFrom;
    NextSelected(data, i, k);
    if i < |data.bits| && !data.bits[i] {
      RunBitsIsChargeAll(consumed, limit, edCost, key, data, i + 1, k);
    } else if i < |data.bits| {
      GoodStep(key, data, k);
      var leaves := Leaves(key.keys[i], data.signatures[k]);
      RunIsChargeAll(consumed, limit, edCost, key.keys[i], data.signatures[k]);
      ChargeAllConcat(consumed, limit, edCost, leaves, LeavesFrom(key, data, k + 1));
      var r := Run(consumed, limit, edCost, key.keys[i], data.signatures[k]);
      if r.status.Ok? { RunBitsIsChargeAll(r.consumed, limit, edCost, key, data, i + 1, k + 1); }
    }
  }

  // ---- the consumers as they run ----

  class GasMeter {
    var consumed: uint64
    const limit: uint64

    constructor (limit: uint64)
      ensures this.limit == limit && consumed == 0
    {
      this.limit, consumed := limit, 0;
    }

    method ConsumeGas(amount: uint64) returns (status: Status)
      modifies this
      ensures Charge(consumed, status) == Consume(old(consumed), limit, amount)
    {
      if consumed + amount >= TWO_64 {
        consumed := TWO_64 - 1;
        return Panic;
      }
      consumed := consumed + amount;
      return if consumed > limit then Panic else Ok;
    }
  }

  method SigVerificationGasConsumer(meter: GasMeter, key: PubKey, data: SigData, edCost: uint64)
    returns (status: Status)
    modifies meter
    ensures Charge(meter.consumed, status) == Run(old(meter.consumed), meter.limit, edCost, key, data)
    decreases key, 1
  {
    hide RunBits;
    match key {
      case EthSecp256k1 =>
        status := meter.ConsumeGas(SECP256K1_COST);
      case Ed25519 =>
        status := meter.ConsumeGas(edCost);
        if status.Ok? { status := Err; }
      case Multisig(_) =>
        if !data.Multi? { return Err; }
        status := ConsumeMultisignatureVerificationGas(meter, data, key, edCost);
      case Other =>
        status := Err;
    }
  }

  method ConsumeMultisignatureVerificationGas(meter: GasMeter, data: SigData, key: PubKey, edCost: uint64)
    returns (status: Status)
    requires key.Multisig? && data.Multi?
    modifies meter
    ensures Charge(meter.consumed, status) == RunBits(old(meter.consumed), meter.limit, edCost, key, data, 0, 0)
    decreases key, 0
  {
    hide Run;
    var size, sigIndex := |data.bits|, 0;
    for i := 0 to size
      invariant RunBits(old(meter.consumed), meter.limit, edCost, key, data, 0, 0)
             == RunBits(meter.consumed, meter.limit, edCost, key, data, i, sigIndex)
    {
      if !data.bits[i] { continue; }
      if i >= |key.keys| || sigIndex >= |data.signatures| { return Panic; }
      status := SigVerificationGasConsumer(meter, key.keys[i], data.signatures[sigIndex], edCost);
      if !status.Ok? { return; }
      sigIndex := sigIndex + 1;
    }
    return Ok;
  }
}
