/** The on-chain side of the migration airdrop: `MsgClaimMigrationTokens` against a published
    snapshot root, over whole runs of claims. */
module MigrationClaims {
  import opened Words
  import opened Merkle
  import opened Amounts

  /** A claim message. Whether the address parses and whether the bank's transfer goes through are
      decided outside this module. */
  datatype Claim =
    Claim(claimer: bytes, amount: int, proof: seq<bytes>, addressOk: bool, bankOk: bool, blockTime: int)

  datatype Params = Params(root: bytes, claimEnd: int)

  datatype Payout = Payout(claimer: bytes, amount: nat)

  datatype State = State(claimed: set<bytes>, pool: nat, payouts: seq<Payout>)

  datatype ClaimError =
    | InvalidAddress | NothingToClaim | AlreadyClaimed | InvalidMerkleProof | Unauthorized
    | InsufficientClaimable | BankError

  datatype Outcome = Paid | Refused(err: ClaimError)

  function Validate(c: Claim): Outcome {
    if !c.addressOk then Refused(InvalidAddress)
    else if c.amount <= 0 then Refused(NothingToClaim)
    else if |c.proof| == 0 then Refused(InvalidMerkleProof)
    else Paid
  }

  function ClaimStep(sha: Sha, p: Params, s: State, c: Claim): (State, Outcome) {
    if Validate(c).Refused? then (s, Validate(c))
    else if c.claimer in s.claimed then (s, Refused(AlreadyClaimed))
    else if p.root == [] then (s, Refused(InvalidMerkleProof))
    else if p.claimEnd > 0 && c.blockTime > p.claimEnd then (s, Refused(Unauthorized))
    else if !Verifies(sha, ClaimEntry(c.claimer, c.amount), c.proof, p.root) then (s, Refused(InvalidMerkleProof))
    else if s.pool < c.amount then (s, Refused(InsufficientClaimable))
    else if !c.bankOk then (s, Refused(BankError))
    else (State(s.claimed + {c.claimer}, s.pool - c.amount, s.payouts + [Payout(c.claimer, c.amount)]), Paid)
  }

  class Keeper {
    var claimed: set<bytes>
    var pool: nat
    ghost var payouts: seq<Payout>

    constructor (available: nat)
      ensures Abstract() == State({}, available, [])
    {
      claimed, pool, payouts := {}, available, [];
    }

    ghost function Abstract(): State
      reads this
    {
      State(claimed, pool, payouts)
    }

    /** `ValidateBasic` followed by `ClaimMigrationTokens`. */
    method ClaimMigrationTokens(sha: Sha, p: Params, c: Claim) returns (r: Outcome)
      modifies this
      ensures (Abstract(), r) == ClaimStep(sha, p, old(Abstract()), c)
    {
      r := Validate(c);
      if r.Refused? { return; }
      if c.claimer in claimed { return Refused(AlreadyClaimed); }
      if p.root == [] { return Refused(InvalidMerkleProof); }
      if p.claimEnd > 0 && c.blockTime > p.claimEnd { return Refused(Unauthorized); }
      var ok := VerifyClaim(sha, c.claimer, c.amount, c.proof, p.root);
      if !ok { return Refused(InvalidMerkleProof); }
      if pool < c.amount { return Refused(InsufficientClaimable); }
      if !c.bankOk { return Refused(BankError); }
      pool := pool - c.amount;
      claimed := claimed + {c.claimer};
      payouts := payouts + [Payout(c.claimer, c.amount)];
    }
  }

  // ---- what a claim does ----

  /** A refused claim changes nothing; a paid one marks its claimer, takes its amount and is recorded,
      and nothing else. */
  lemma ClaimChanges(sha: Sha, p: Params, s: State, c: Claim)
    ensures var (t, r) := ClaimStep(sha, p, s, c);
            && (r.Refused? ==> t == s)
            && (r == Paid ==>
                  && c.amount <= s.pool && t.pool == s.pool - c.amount && c.claimer !in s.claimed
                  && (forall w :: w in t.claimed <==> w == c.claimer || w in s.claimed)
                  && t.payouts == s.payouts + [Payout(c.claimer, c.amount)])
  {
    hide Verifies, AmountText;
  }

  /** Why a claim was refused. */
  ghost predicate Reason(sha: Sha, p: Params, s: State, c: Claim, err: ClaimError) {
    match err
    case InvalidAddress => !c.addressOk
    case NothingToClaim => c.amount <= 0
    case AlreadyClaimed => c.claimer in s.claimed
    case InvalidMerkleProof =>
      c.proof == [] || p.root == [] || !Verifies(sha, ClaimEntry(c.claimer, c.amount), c.proof, p.root)
    case Unauthorized => 0 < p.claimEnd < c.blockTime
    case InsufficientClaimable => s.pool < c.amount
    case BankError => !c.bankOk
  }

  /** The error names a reason, and with any reason there is an error. */
  lemma RefusedWithReason(sha: Sha, p: Params, s: State, c: Claim)
    ensures var r := ClaimStep(sha, p, s, c).1;
            && (r.Refused? ==> Reason(sha, p, s, c, r.err))
            && (r == Paid ==> forall err :: !Reason(sha, p, s, c, err))
  {
    hide Verifies, AmountText;
  }

  // ---- runs ----

  /** What happens to the pool: a claim, or coins moved in or out by someone else. The refill from the
      project pool and bridge locks add, bridge releases take; the bank refuses to go below zero. */
  datatype Op = Claims(claim: Claim) | Moves(delta: int)

  function Moved(s: State, delta: int): int {
    if s.pool + delta < 0 then 0 else delta
  }

  function OpStep(sha: Sha, p: Params, s: State, op: Op): State {
    match op
    case Claims(c) => ClaimStep(sha, p, s, c).0
    case Moves(delta) => s.(pool := s.pool + Moved(s, delta))
  }

  function Run(sha: Sha, p: Params, s: State, ops: seq<Op>): State
    decreases |ops|
  {
    if ops == [] then s else Run(sha, p, OpStep(sha, p, s, ops[0]), ops[1..])
  }

  /** What the moves of a run add to the pool, all told. */
  function Net(sha: Sha, p: Params, s: State, ops: seq<Op>): int
    decreases |ops|
  {
    if ops == [] then 0
    else (if ops[0].Moves? then Moved(s, ops[0].delta) else 0) + Net(sha, p, OpStep(sha, p, s, ops[0]), ops[1..])
  }

  function Total(ps: seq<Payout>): nat {
    if ps == [] then 0 else Total(ps[..|ps| - 1]) + ps[|ps| - 1].amount
  }

  ghost predicate OncePerClaimer(ps: seq<Payout>) {
    forall i, j :: 0 <= i < j < |ps| ==> ps[i].claimer != ps[j].claimer
  }

  ghost predicate Listed(entries: seq<Entry>, ps: seq<Payout>) {
    forall k :: 0 <= k < |ps| ==> ClaimEntry(ps[k].claimer, ps[k].amount) in entries
  }

  /** Pool and payouts together are what was put in; nobody is paid twice; whoever is paid is marked. */
  ghost predicate Sound(s: State, funded: int) {
    && s.pool + Total(s.payouts) == funded
    && OncePerClaimer(s.payouts)
    && (forall k :: 0 <= k < |s.payouts| ==> s.payouts[k].claimer in s.claimed)
  }

  lemma StepSound(sha: Sha, p: Params, s: State, op: Op, funded: int)
    requires Sound(s, funded)
    ensures Sound(OpStep(sha, p, s, op), funded + if op.Moves? then Moved(s, op.delta) else 0)
  {
    hide Verifies, AmountText;
    var t := OpStep(sha, p, s, op);
    if t.payouts != s.payouts { assert t.payouts[..|t.payouts| - 1] == s.payouts; }
  }

  /** Over any run of claims and moves against the root of a snapshot: the pool loses exactly what is
      paid, no claimer is paid twice, and every payout is a line of the snapshot with that very amount,
      unless some claim in the run exhibits a SHA-256 collision. */
  lemma {:induction false} RunSound(sha: Sha, entries: seq<Entry>, p: Params, s: State, ops: seq<Op>, funded: int)
    returns (x: bytes, y: bytes)
    requires |entries| > 0 && p.root == SnapshotRoot(sha, entries)
    requires Sound(s, funded) && Listed(entries, s.payouts)
    ensures Sound(Run(sha, p, s, ops), funded + Net(sha, p, s, ops))
    ensures Listed(entries, Run(sha, p, s, ops).payouts) || Collision(sha, x, y)
    decreases |ops|
  {
    hide Sound, SnapshotRoot, OpStep, Listed;
    RunKeeps(sha, p, s, ops, funded);
    x, y := [], [];
    if ops != [] {
      x, y := StepListed(sha, entries, p, s, ops[0]);
      if !Collision(sha, x, y) {
        var more := if ops[0].Moves? then Moved(s, ops[0].delta) else 0;
        StepSound(sha, p, s, ops[0], funded);
        x, y := RunSound(sha, entries, p, OpStep(sha, p, s, ops[0]), ops[1..], funded + more);
      }
    }
  }

  lemma StepListed(sha: Sha, entries: seq<Entry>, p: Params, s: State, op: Op) returns (x: bytes, y: bytes)
    requires |entries| > 0 && p.root == SnapshotRoot(sha, entries) && Listed(entries, s.payouts)
    ensures Listed(entries, OpStep(sha, p, s, op).payouts) || Collision(sha, x, y)
  {
    hide Verifies, AmountText, SnapshotRoot;
    x, y := [], [];
    if OpStep(sha, p, s, op).payouts != s.payouts {
      x, y := ClaimBinding(sha, entries, ClaimEntry(op.claim.claimer, op.claim.amount), op.claim.proof);
    }
  }

  lemma {:induction false} RunKeeps(sha: Sha, p: Params, s: State, ops: seq<Op>, funded: int)
    requires Sound(s, funded)
    ensures Sound(Run(sha, p, s, ops), funded + Net(sha, p, s, ops))
    decreases |ops|
  {
    hide Sound, OpStep;
    if ops != [] {
      StepSound(sha, p, s, ops[0], funded);
      var more := if ops[0].Moves? then Moved(s, ops[0].delta) else 0;
      RunKeeps(sha, p, OpStep(sha, p, s, ops[0]), ops[1..], funded + more);
    }
  }

  // ---- which entries can be claimed ----

  /** The proof of a leaf is empty exactly when it is the only leaf. */
  lemma {:induction false} ProofEmpty(sha: Sha, xs: seq<digest>, index: nat)
    requires index < |xs|
    ensures Proof(index, Levels(sha, xs)) == [] <==> |xs| == 1
    decreases |xs|
  {
    if |xs| > 1 {
      var next := NextLevel(sha, xs);
      NextLevelLength(sha, xs);
      assert Levels(sha, xs)[1..] == Levels(sha, next);
      hide NextLevel, Levels;
      if Sibling(index) >= |xs| { ProofEmpty(sha, next, index / 2); }
    }
  }

  /** Everything a payout depends on besides the snapshot. */
  predicate Open(s: State, p: Params, claimer: bytes, amount: int, addressOk: bool, bankOk: bool, now: int) {
    && addressOk && bankOk && claimer !in s.claimed && amount <= s.pool
    && (p.claimEnd <= 0 || now <= p.claimEnd)
  }

  /** The chain pays a claim exactly when the amount is positive, the proof is not empty and verifies,
      and the payout is open. */
  lemma PaidWhen(sha: Sha, p: Params, s: State, c: Claim)
    requires p.root != []
    ensures ClaimStep(sha, p, s, c).1 == Paid <==>
            && c.amount > 0 && c.proof != [] && Verifies(sha, ClaimEntry(c.claimer, c.amount), c.proof, p.root)
            && Open(s, p, c.claimer, c.amount, c.addressOk, c.bankOk, c.blockTime)
  {
    hide Verifies, AmountText;
  }

  /** Some proof gets the claimer this amount. */
  ghost predicate CanClaim(sha: Sha, p: Params, s: State, claimer: bytes, amount: int, addressOk: bool, bankOk: bool,
                           now: int)
  {
    exists proof :: ClaimStep(sha, p, s, Claim(claimer, amount, proof, addressOk, bankOk, now)).1 == Paid
  }

  /** The proof written for entry i gets its claimer some amount. */
  ghost predicate CanClaimEntry(sha: Sha, entries: seq<Entry>, i: nat, p: Params, s: State, addressOk: bool,
                                bankOk: bool, now: int)
    requires i < |entries|
  {
    exists amount ::
      var proof := WrittenProof(sha, entries, i);
      ClaimStep(sha, p, s, Claim(entries[i].claimer, amount, proof, addressOk, bankOk, now)).1 == Paid
  }

  /** Entry i can be claimed with its written proof exactly when the snapshot has more entries than
      this one, since the empty proof is refused, and the amount is written as the chain prints a
      positive amount; anything else would be a collision. */
  lemma ClaimableExactly(sha: Sha, entries: seq<Entry>, i: nat, s: State, claimEnd: int, addressOk: bool,
                         bankOk: bool, now: int)
    returns (x: bytes, y: bytes)
    requires i < |entries|
    ensures var p, e := Params(SnapshotRoot(sha, entries), claimEnd), entries[i];
            var good := |entries| > 1 && IsAmount(e.amount)
                        && Open(s, p, e.claimer, AmountValue(e.amount), addressOk, bankOk, now);
            && (good ==> CanClaimEntry(sha, entries, i, p, s, addressOk, bankOk, now))
            && (CanClaimEntry(sha, entries, i, p, s, addressOk, bankOk, now) ==> good || Collision(sha, x, y))
  {
    hide Proof, Levels, Verifies, ClaimStep, AmountText, IsAmount, AmountValue;
    var p, e, proof := Params(SnapshotRoot(sha, entries), claimEnd), entries[i], WrittenProof(sha, entries, i);
    ProofEmpty(sha, LeafHashes(sha, entries), i);
    if IsAmount(e.amount) {
      AmountTextOf(e.amount);
      x, y := ClaimCompleteness(sha, entries, i, AmountValue(e.amount));
      PaidWhen(sha, p, s, Claim(e.claimer, AmountValue(e.amount), proof, addressOk, bankOk, now));
    }
    x, y := [], [];
    if amount :| ClaimStep(sha, p, s, Claim(e.claimer, amount, proof, addressOk, bankOk, now)).1 == Paid {
      PaidWhen(sha, p, s, Claim(e.claimer, amount, proof, addressOk, bankOk, now));
      x, y := ClaimCompleteness(sha, entries, i, amount);
      PositiveAmountText(amount);
    }
  }

  /** With whatever proof: a claimer gets an amount exactly when the snapshot lists that amount for the
      claimer as the chain prints it, next to another entry; anything else would be a collision. */
  lemma PaidExactly(sha: Sha, entries: seq<Entry>, s: State, claimEnd: int,
                    claimer: bytes, amount: int, addressOk: bool, bankOk: bool, now: int)
    returns (x: bytes, y: bytes)
    requires |entries| > 0
    ensures var p := Params(SnapshotRoot(sha, entries), claimEnd);
            var good := |entries| > 1 && amount > 0 && ClaimEntry(claimer, amount) in entries
                        && Open(s, p, claimer, amount, addressOk, bankOk, now);
            && (good ==> CanClaim(sha, p, s, claimer, amount, addressOk, bankOk, now))
            && (CanClaim(sha, p, s, claimer, amount, addressOk, bankOk, now) ==> good || Collision(sha, x, y))
  {
    hide Proof, Levels, Verifies, ClaimStep, AmountText;
    var p, e := Params(SnapshotRoot(sha, entries), claimEnd), ClaimEntry(claimer, amount);
    if e in entries {
      var i: nat :| i < |entries| && entries[i] == e;
      ProofEmpty(sha, LeafHashes(sha, entries), i);
      x, y := ClaimCompleteness(sha, entries, i, amount);
      PaidWhen(sha, p, s, Claim(claimer, amount, WrittenProof(sha, entries, i), addressOk, bankOk, now));
    }
    x, y := [], [];
    if proof :| ClaimStep(sha, p, s, Claim(claimer, amount, proof, addressOk, bankOk, now)).1 == Paid {
      PaidWhen(sha, p, s, Claim(claimer, amount, proof, addressOk, bankOk, now));
      if |entries| == 1 {
        x, y := SingleEntryRefuses(sha, entries, e, proof);
      } else {
        x, y := ClaimBinding(sha, entries, e, proof);
      }
    }
  }

  /** The only entry of a snapshot cannot be claimed, with any proof. */
  lemma SingleEntryUnpaid(sha: Sha, e: Entry, s: State, claimEnd: int,
                          claimer: bytes, amount: int, addressOk: bool, bankOk: bool, now: int)
    returns (x: bytes, y: bytes)
    ensures CanClaim(sha, Params(SnapshotRoot(sha, [e]), claimEnd), s, claimer, amount, addressOk, bankOk, now)
            ==> Collision(sha, x, y)
  {
    hide CanClaim, SnapshotRoot;
    x, y := PaidExactly(sha, [e], s, claimEnd, claimer, amount, addressOk, bankOk, now);
  }

  /** A snapshot the builder takes, one line of which nobody can ever be paid: "a,0100" and "b,5". */
  lemma PaddedAmountUnpaid(sha: Sha, s: State, claimEnd: int, amount: int, addressOk: bool, bankOk: bool, now: int)
    returns (x: bytes, y: bytes)
    ensures var entries := [Entry([97], [48, 49, 48, 48]), Entry([98], [53])];
            CanClaim(sha, Params(SnapshotRoot(sha, entries), claimEnd), s, [97], amount, addressOk, bankOk, now)
            ==> Collision(sha, x, y)
  {
    hide CanClaim, AmountText, SnapshotRoot;
    var entries := [Entry([97], [48, 49, 48, 48]), Entry([98], [53])];
    x, y := PaidExactly(sha, entries, s, claimEnd, [97], amount, addressOk, bankOk, now);
    if amount > 0 { PositiveAmountText(amount); }
    assert entries[0].amount[0] == 48;
    assert forall e :: e in entries ==> e == entries[0] || e == entries[1];
  }

  // ---- nobody loses a claim ----

  /** The marks are the payouts. */
  ghost predicate Marked(s: State) {
    forall w :: w in s.claimed <==> exists k :: 0 <= k < |s.payouts| && s.payouts[k].claimer == w
  }

  lemma StepMarks(sha: Sha, p: Params, s: State, op: Op)
    requires Marked(s)
    ensures Marked(OpStep(sha, p, s, op))
  {
    hide ClaimStep;
    if op.Claims? {
      ClaimChanges(sha, p, s, op.claim);
      var t := OpStep(sha, p, s, op);
      if t.payouts != s.payouts {
        var n := |s.payouts|;
        forall w ensures w in t.claimed <==> exists k :: 0 <= k < |t.payouts| && t.payouts[k].claimer == w {
          if k :| 0 <= k < n && s.payouts[k].claimer == w { assert t.payouts[k].claimer == w; }
          assert t.payouts[n].claimer == op.claim.claimer;
        }
      }
    }
  }

  lemma {:induction false} RunMarks(sha: Sha, p: Params, s: State, ops: seq<Op>)
    requires Marked(s)
    ensures Marked(Run(sha, p, s, ops))
    decreases |ops|
  {
    hide Marked, OpStep;
    if ops != [] {
      StepMarks(sha, p, s, ops[0]);
      RunMarks(sha, p, OpStep(sha, p, s, ops[0]), ops[1..]);
    }
  }

  /** After any run, refused claims of their own included, a listed claimer who has not been paid can
      still be paid, as soon as the pool suffices and the payout is open. */
  lemma UnpaidStaysPayable(sha: Sha, entries: seq<Entry>, s: State, claimEnd: int, ops: seq<Op>,
                           claimer: bytes, amount: int, now: int)
    requires |entries| > 1 && amount > 0 && ClaimEntry(claimer, amount) in entries && Marked(s)
    requires var t := Run(sha, Params(SnapshotRoot(sha, entries), claimEnd), s, ops);
             && (forall k :: 0 <= k < |t.payouts| ==> t.payouts[k].claimer != claimer)
             && amount <= t.pool && (claimEnd <= 0 || now <= claimEnd)
    ensures var p := Params(SnapshotRoot(sha, entries), claimEnd);
            CanClaim(sha, p, Run(sha, p, s, ops), claimer, amount, true, true, now)
  {
    hide CanClaim, SnapshotRoot, AmountText, Run;
    var p := Params(SnapshotRoot(sha, entries), claimEnd);
    RunMarks(sha, p, s, ops);
    var x, y := PaidExactly(sha, entries, Run(sha, p, s, ops), claimEnd, claimer, amount, true, true, now);
  }
}
