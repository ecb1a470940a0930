/** ICS-20 allowance edits on the authz store (`precompiles/ics20/approve_common.go`): the grant of a
    pair is looked up, its allocations are edited, and it is saved under its old expiration. */
module Ics20Grants {
  import opened Wrappers
  import opened Coins
  import opened Ics20

  datatype Pair = Pair(grantee: nat, granter: nat)

  datatype Authorization = Transfer(allocations: Allocations) | Other

  /** Without an expiration a grant does not lapse. */
  datatype Grant = Grant(auth: Authorization, expiration: Option<int>)

  type Grants = map<Pair, Grant>

  datatype Failure = NoGrant | UnknownAuthorizationType | EditRefused(error: Error) | EditPanicked | InvalidExpiration

  datatype Outcome = Done | Failed(failure: Failure)

  /** `GetAuthorization` does not find a grant that has lapsed. */
  predicate Found(g: Grants, p: Pair, now: int) {
    p in g && (g[p].expiration.None? || now <= g[p].expiration.value)
  }

  /** `SaveGrant` refuses an expiration that is not after the block time. */
  predicate Savable(expiration: Option<int>, now: int) {
    expiration.None? || now < expiration.value
  }

  /** A call for the grant of a pair at block time `now`. */
  datatype Request = Request(now: int, pair: Pair, call: Call)

  function EditOf(allocs: Allocations, c: Call): Edit {
    if c.increase then Increase(allocs, c.port, c.channel, c.denom, c.amount)
    else DecreaseAny(allocs, c.port, c.channel, c.denom, c.amount)
  }

  function Step(g: Grants, r: Request): (Grants, Outcome) {
    if !Found(g, r.pair, r.now) then (g, Failed(NoGrant))
    else
      var grant := g[r.pair];
      if !grant.auth.Transfer? then (g, Failed(UnknownAuthorizationType))
      else
        match EditOf(grant.auth.allocations, r.call)
        case Refused(e) => (g, Failed(EditRefused(e)))
        case Panicked => (g, Failed(EditPanicked))
        case Edited(allocs) =>
          if !Savable(grant.expiration, r.now) then (g, Failed(InvalidExpiration))
          else (g[r.pair := Grant(Transfer(allocs), grant.expiration)], Done)
  }

  // ---- the precompile on its keeper ----

  class AuthzKeeper {
    var grants: Grants

    constructor ()
      ensures grants == map[]
    {
      grants := map[];
    }

    /** `CheckAuthzExists` and the type assertion. */
    method CheckTransferAuthz(p: Pair, now: int) returns (r: Option<Allocations>, failure: Failure)
      ensures r.Some? <==> Found(grants, p, now) && grants[p].auth.Transfer?
      ensures r.Some? ==> r.value == grants[p].auth.allocations
      ensures r.None? ==> failure == if Found(grants, p, now) then UnknownAuthorizationType else NoGrant
    {
      if !Found(grants, p, now) { return None, NoGrant; }
      match grants[p].auth {
        case Transfer(allocs) => return Some(allocs), NoGrant;
        case Other => return None, UnknownAuthorizationType;
      }
    }

    method SaveEdit(p: Pair, now: int, edit: Edit) returns (r: Outcome)
      requires p in grants
      modifies this
      ensures match edit
              case Refused(e) => grants == old(grants) && r == Failed(EditRefused(e))
              case Panicked => grants == old(grants) && r == Failed(EditPanicked)
              case Edited(allocs) =>
                if Savable(old(grants)[p].expiration, now)
                then r == Done && grants == old(grants)[p := Grant(Transfer(allocs), old(grants)[p].expiration)]
                else r == Failed(InvalidExpiration) && grants == old(grants)
    {
      match edit {
        case Refused(e) => return Failed(EditRefused(e));
        case Panicked => return Failed(EditPanicked);
        case Edited(allocs) =>
          var expiration := grants[p].expiration;
          if !Savable(expiration, now) { return Failed(InvalidExpiration); }
          grants := grants[p := Grant(Transfer(allocs), expiration)];
          return Done;
      }
    }

    /** `IncreaseAllowance`. */
    method Increase(p: Pair, now: int, port: string, channel: string, denom: string, amount: uint256)
      returns (r: Outcome)
      modifies this
      ensures (grants, r) == Step(old(grants), Request(now, p, Call(true, port, channel, denom, amount)))
    {
      var allocs, failure := CheckTransferAuthz(p, now);
      if allocs.None? { return Failed(failure); }
      var edit := IncreaseAllowance(allocs.value, port, channel, denom, amount);
      r := SaveEdit(p, now, edit);
    }

    /** `DecreaseAllowance`. */
    method Decrease(p: Pair, now: int, port: string, channel: string, denom: string, amount: uint256)
      returns (r: Outcome)
      modifies this
      ensures (grants, r) == Step(old(grants), Request(now, p, Call(false, port, channel, denom, amount)))
    {
      var allocs, failure := CheckTransferAuthz(p, now);
      if allocs.None? { return Failed(failure); }
      var edit := DecreaseAllowance(allocs.value, port, channel, denom, amount);
      r := SaveEdit(p, now, edit);
    }
  }

  // ---- what a call does to the limits of the store ----

  predicate ValidGrants(g: Grants) {
    forall p :: p in g && g[p].auth.Transfer? ==> ValidAllocs(g[p].auth.allocations)
  }

  /** The limit a pair's grant puts on a port, channel and denomination. */
  function StoredLimit(g: Grants, p: Pair, port: string, channel: string, denom: string): int {
    if p in g && g[p].auth.Transfer? then LimitOf(g[p].auth.allocations, port, channel, denom) else 0
  }

  /** When the store takes a call: the pair has a transfer grant that does not lapse by this block, whose
      first allocation for the port and channel holds the denomination, enough of it for a decrease, and
      not too much of it for an increase. */
  ghost predicate Accepts(g: Grants, r: Request) {
    var c := r.call;
    && r.pair in g && g[r.pair].auth.Transfer?
    && (g[r.pair].expiration.None? || r.now < g[r.pair].expiration.value)
    && exists k, limit ::
         && IsLimit(g[r.pair].auth.allocations, k, c.port, c.channel, c.denom, limit)
         && if c.increase then limit + c.amount < TWO_256 else c.amount <= limit
  }

  /** A call succeeds exactly when the store takes it; then its own limit moves by the amount and every
      other limit of every pair stays; a failed call changes nothing. */
  lemma StepExact(g: Grants, r: Request, p: Pair, port: string, channel: string, denom: string)
    requires ValidGrants(g)
    ensures var (h, out) := Step(g, r);
            && ValidGrants(h)
            && (out == Done <==> Accepts(g, r)) && (out.Failed? ==> h == g)
            && StoredLimit(h, p, port, channel, denom)
               == StoredLimit(g, p, port, channel, denom) + Change(g, r, p, port, channel, denom)
  {
    hide Ics20.Increase, Ics20.Decrease, DecreaseAny, LimitOf, Locate, ValidAllocs, OnlyChanges, IsLimit, IndexOf;
    var c := r.call;
    if Found(g, r.pair, r.now) && g[r.pair].auth.Transfer? {
      var allocs := g[r.pair].auth.allocations;
      IncreaseEdits(allocs, c.port, c.channel, c.denom, c.amount);
      DecreaseEdits(allocs, c.port, c.channel, c.denom, c.amount);
      LimitExactly(allocs, c.port, c.channel, c.denom);
      DecreaseAnyIsDecrease(allocs, c.port, c.channel, c.denom, c.amount);
      var edit := EditOf(allocs, c);
      NeverPanics(allocs, c);
      if edit.Edited? {
        var limit := LimitOf(allocs, c.port, c.channel, c.denom);
        LocateIndex(allocs, c.port, c.channel, c.denom);
        LimitsAfter(allocs, edit.allocs, c.port, c.channel, c.denom,
                    if c.increase then limit + c.amount else limit - c.amount, port, channel, denom);
      }
    }
  }

  /** A lapsed grant is not found, one that lapses in this very block cannot be saved, and the other
      failures are the edit's. */
  lemma FailureReasons(g: Grants, r: Request)
    requires ValidGrants(g)
    ensures var out := Step(g, r).1;
            && (out == Failed(NoGrant) <==>
                  r.pair !in g || (g[r.pair].expiration.Some? && g[r.pair].expiration.value < r.now))
            && (out == Failed(UnknownAuthorizationType) ==> r.pair in g && g[r.pair].auth.Other?)
            && (out == Failed(InvalidExpiration) ==> r.pair in g && g[r.pair].expiration == Some(r.now))
            && out != Failed(EditPanicked)
  {
    hide EditOf, ValidAllocs;
    if Found(g, r.pair, r.now) && g[r.pair].auth.Transfer? { NeverPanics(g[r.pair].auth.allocations, r.call); }
  }

  lemma NeverPanics(allocs: Allocations, c: Call)
    requires ValidAllocs(allocs)
    ensures !EditOf(allocs, c).Panicked?
  {
    hide EditFrom, Lowered, Find, IndexOf, ValidAllocs;
    DecreaseAnyIsDecrease(allocs, c.port, c.channel, c.denom, c.amount);
  }

  /** What a call adds to a limit: its amount when it is accepted and names that limit. */
  ghost function Change(g: Grants, r: Request, p: Pair, port: string, channel: string, denom: string): int {
    var c := r.call;
    if !Accepts(g, r) || (r.pair, c.port, c.channel, c.denom) != (p, port, channel, denom) then 0
    else if c.increase then c.amount else 0 - c.amount
  }

  function RunStore(g: Grants, rs: seq<Request>): Grants
    decreases |rs|
  {
    if rs == [] then g else RunStore(Step(g, rs[0]).0, rs[1..])
  }

  ghost function NetChange(g: Grants, rs: seq<Request>, p: Pair, port: string, channel: string, denom: string): int
    decreases |rs|
  {
    if rs == [] then 0
    else Change(g, rs[0], p, port, channel, denom) + NetChange(Step(g, rs[0]).0, rs[1..], p, port, channel, denom)
  }

  /** Over any run of calls by any pairs, each limit of each pair is its start plus what the accepted
      calls asked of it. */
  lemma {:induction false} RunStoreConserves(g: Grants, rs: seq<Request>, p: Pair, port: string, channel: string,
                                             denom: string)
    requires ValidGrants(g)
    ensures ValidGrants(RunStore(g, rs))
    ensures StoredLimit(RunStore(g, rs), p, port, channel, denom)
         == StoredLimit(g, p, port, channel, denom) + NetChange(g, rs, p, port, channel, denom)
    decreases |rs|
  {
    hide ValidGrants, Step, StoredLimit, Change;
    if rs != [] {
      StepExact(g, rs[0], p, port, channel, denom);
      RunStoreConserves(Step(g, rs[0]).0, rs[1..], p, port, channel, denom);
    }
  }
}
