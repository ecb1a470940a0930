/** The three ways blocks get into the index: the backward and forward runs of `index-eth-tx` and
    the live service. Whatever the sequence of phases, and wherever each is cut short, every height
    between the first and the last indexed block has been processed. */
module IndexRuns {
  import opened KvIndexer

  // ---- phases on the set of processed heights ----

  function Range(low: int, high: int): (s: set<int>)
    ensures forall h :: h in s <==> low <= h < high
    decreases high - low
  {
    if low >= high then {} else Range(low, high - 1) + {high - 1}
  }

  /** A phase and how far it got: `reached` is the lowest height a backward run indexed, and the
      height a forward or live run would have indexed next. */
  datatype Phase =
    | Backward(tip: int, reached: int)
    | Forward(tip: int, reached: int)
    | Live(latest: int, reached: int)

  lemma EmptyIfNone(s: set<int>)
    ensures (forall h :: h !in s) ==> s == {}
  {
    if forall h: int :: h !in s { assert s == {}; }
  }

  lemma {:induction false} EdgeExists(heights: set<int>, last: bool) returns (r: int)
    ensures IsEdge(heights, last, r)
    decreases |heights|
  {
    r := -1;
    EmptyIfNone(heights);
    if h :| h in heights {
      var rest := heights - {h};
      var s := EdgeExists(rest, last);
      r := if rest == {} then h else if (last && h > s) || (!last && h < s) then h else s;
      assert forall g :: g in heights ==> g == h || g in rest;
    }
  }

  /** `FirstIndexedBlock` or `LastIndexedBlock` of a set of heights. */
  ghost function Edge(heights: set<int>, last: bool): (r: int)
    ensures IsEdge(heights, last, r)
  {
    assert exists r :: IsEdge(heights, last, r) by { var r := EdgeExists(heights, last); }
    var r :| IsEdge(heights, last, r);
    r
  }

  lemma EdgeUnique(heights: set<int>, last: bool, r: int)
    requires IsEdge(heights, last, r)
    ensures r == Edge(heights, last)
  {
  }

  /** The heights processed after a phase; `eth` are the heights that carry eth transactions, the
      only ones the index itself remembers. */
  ghost function After(eth: set<int>, processed: set<int>, p: Phase): set<int> {
    match p
    case Backward(tip, reached) =>
      var first := Edge(eth * processed, false);
      processed + Range(if reached < 1 then 1 else reached, if first == -1 then tip else first)
    case Forward(tip, reached) =>
      var last := Edge(eth * processed, true);
      processed + Range((if last == -1 then 0 else last) + 1, if reached > tip + 1 then tip + 1 else reached)
    case Live(latest, reached) =>
      var last := Edge(eth * processed, true);
      processed + Range((if last == -1 then latest else last) + 1, reached)
  }

  /** Between two indexed heights everything has been processed. */
  ghost predicate NoHoles(eth: set<int>, processed: set<int>) {
    forall a, h, b :: a in eth * processed && b in eth * processed && a <= h <= b ==> h in processed
  }

  lemma PhaseKeepsNoHoles(eth: set<int>, processed: set<int>, p: Phase)
    requires NoHoles(eth, processed) && forall h :: h in eth ==> h > 0
    ensures NoHoles(eth, After(eth, processed, p))
  {
    var after := After(eth, processed, p);
    var first, last := Edge(eth * processed, false), Edge(eth * processed, true);
    assert eth * processed != {} ==> first in eth * processed && last in eth * processed;
    forall a, h, b | a in eth * after && b in eth * after && a <= h <= b ensures h in after {
      assert a in processed ==> a in eth * processed;
      assert b in processed ==> b in eth * processed;
      if first == -1 {
        assert a !in processed && b !in processed;
      } else if a in processed && b in processed {
      } else if p.Backward? {
        if b in processed && h >= first { assert first <= h <= b; }
      } else {
        if a in processed && h <= last { assert a <= h <= last; }
      }
    }
  }

  ghost function RunPhases(eth: set<int>, processed: set<int>, ps: seq<Phase>): set<int>
    decreases |ps|
  {
    if ps == [] then processed else RunPhases(eth, After(eth, processed, ps[0]), ps[1..])
  }

  lemma {:induction false} RunKeepsNoHoles(eth: set<int>, processed: set<int>, ps: seq<Phase>)
    requires NoHoles(eth, processed) && forall h :: h in eth ==> h > 0
    ensures NoHoles(eth, RunPhases(eth, processed, ps))
    decreases |ps|
  {
    hide NoHoles, After;
    if ps != [] {
      PhaseKeepsNoHoles(eth, processed, ps[0]);
      RunKeepsNoHoles(eth, After(eth, processed, ps[0]), ps[1..]);
    }
  }

  /** Starting from an empty index, no sequence of phases leaves a hole. */
  lemma NoSequenceLeavesHoles(eth: set<int>, ps: seq<Phase>)
    requires forall h :: h in eth ==> h > 0
    ensures NoHoles(eth, RunPhases(eth, {}, ps))
  {
    RunKeepsNoHoles(eth, {}, ps);
  }

  // ---- which heights a phase covers ----

  /** Every indexed height is above, or every one is below. */
  ghost predicate BelowAll(h: int, heights: set<int>) {
    forall x :: x in heights ==> h < x
  }

  ghost predicate AboveAll(h: int, heights: set<int>) {
    forall x :: x in heights ==> x < h
  }

  /** A backward run adds the heights below everything indexed down to where it got, a forward run those
      above everything indexed up to the tip, a live phase those above everything indexed; on an empty
      index they start below the tip, at height 1 and above the newest block. */
  lemma PhaseCovers(eth: set<int>, processed: set<int>, tip: int, reached: int, h: int)
    requires forall x :: x in eth ==> x > 0
    ensures h in After(eth, processed, Backward(tip, reached)) <==>
            || h in processed
            || (1 <= h && reached <= h && BelowAll(h, eth * processed) && (eth * processed == {} ==> h < tip))
    ensures h in After(eth, processed, Forward(tip, reached)) <==>
            || h in processed
            || (1 <= h <= tip && h < reached && AboveAll(h, eth * processed))
    ensures h in After(eth, processed, Live(tip, reached)) <==>
            || h in processed
            || (h < reached && AboveAll(h, eth * processed) && (eth * processed == {} ==> tip < h))
  {
    var indexed := eth * processed;
    var first, last := Edge(indexed, false), Edge(indexed, true);
    assert indexed != {} ==> first in indexed && last in indexed;
  }

  // ---- where a backward run starts ----

  /** The help text of `index-eth-tx backward` has an empty index start from the latest block. A run
      covers the tip only when something is indexed above it: on an empty index it stops short by one. */
  lemma BackwardCoversTip(eth: set<int>, processed: set<int>, tip: int, reached: int)
    ensures var first := Edge(eth * processed, false);
            tip in After(eth, processed, Backward(tip, reached))
            <==> tip in processed || (first != -1 && 1 <= tip && reached <= tip < first)
  {
  }

  /** On an empty index the tip is never covered, however far the run gets. */
  lemma BackwardMissesTip(eth: set<int>, tip: int, reached: int)
    ensures tip !in After(eth, {}, Backward(tip, reached))
    ensures forall h :: h in After(eth, {}, Backward(tip, reached)) <==> 1 <= h < tip && reached <= h
  {
    assert eth * {} == {};
    EdgeUnique({}, false, -1);
  }

  // ---- failed writes in the live service ----

  /** The live loop moves on after a failed write: the heights in `lost` are passed over. */
  ghost function LiveWithLosses(eth: set<int>, processed: set<int>, latest: int, reached: int,
                                lost: set<int>): set<int>
  {
    var last := Edge(eth * processed, true);
    processed + (Range((if last == -1 then latest else last) + 1, reached) - lost)
  }

  /** One lost write between two indexed blocks is a hole. */
  lemma LostWriteLeavesHole()
    ensures NoHoles({1, 2, 3}, {1}) && !NoHoles({1, 2, 3}, LiveWithLosses({1, 2, 3}, {1}, 1, 4, {2}))
  {
    var eth := {1, 2, 3};
    assert eth * {1} == {1};
    EdgeUnique({1}, true, 1);
    var after := LiveWithLosses(eth, {1}, 1, 4, {2});
    assert 1 in eth * after && 3 in eth * after && 2 !in after;
  }

  /** Where a live phase starts: above the last indexed block, or above the newest block when the
      index is empty. */
  ghost function LiveStart(eth: set<int>, processed: set<int>, latest: int): int {
    var last := Edge(eth * processed, true);
    if last == -1 then latest else last
  }

  /** An Ethereum block indexed before the phase, or written by it. */
  ghost predicate Written(eth: set<int>, processed: set<int>, start: int, reached: int, lost: set<int>, h: int) {
    h in eth * processed || (h in eth && start < h < reached && h !in lost)
  }

  /** Every Ethereum block the phase passes above a lost one is lost too, once anything indexed lies
      below. */
  ghost predicate LossesAtTheTop(eth: set<int>, processed: set<int>, latest: int, reached: int, lost: set<int>) {
    var start := LiveStart(eth, processed, latest);
    forall a, x, e ::
      (Written(eth, processed, start, reached, lost, a) && a < x < e < reached && start < x
       && x in lost && x !in processed && e in eth) ==> e in lost
  }

  /** A live phase that loses writes leaves no hole exactly when that holds, on an empty index too. */
  lemma LossesExactly(eth: set<int>, processed: set<int>, latest: int, reached: int, lost: set<int>)
    requires NoHoles(eth, processed) && forall h :: h in eth ==> h > 0
    ensures NoHoles(eth, LiveWithLosses(eth, processed, latest, reached, lost))
            <==> LossesAtTheTop(eth, processed, latest, reached, lost)
  {
    var start := LiveStart(eth, processed, latest);
    var after := LiveWithLosses(eth, processed, latest, reached, lost);
    assert forall h :: h in eth * after <==> Written(eth, processed, start, reached, lost, h);
    if NoHoles(eth, after) {
      forall a, x, e | Written(eth, processed, start, reached, lost, a) && a < x < e < reached && start < x
                       && x in lost && x !in processed && e in eth ensures e in lost {
        assert e !in lost ==> e in eth * after;
        assert e in eth * after ==> x in after;
      }
    }
    if LossesAtTheTop(eth, processed, latest, reached, lost) {
      forall a, h, b | a in eth * after && b in eth * after && a <= h <= b ensures h in after {
        assert b in processed ==> b in eth * processed;
        if h <= start {
          assert start in eth * processed ==> a <= h <= start;
        } else if h !in processed && h in lost {
          assert a < h < b < reached ==> b in lost;
        }
      }
    }
  }

  // ---- the code ----

  /** What happens to the live service between two looks at its state: a header arrives, or the next
      block is fetched, with or without success. */
  datatype LiveEvent = NewHeader(height: int) | Fetch(ok: bool)

  /** Where the live service is after `events`: the last block done. It fetches while a newer block is
      known, one height at a time, and stays when a fetch fails. */
  function LiveLast(blocks: Chain, last: int, latest: int, events: seq<LiveEvent>): int
    decreases |events|
  {
    if events == [] then last
    else
      match events[0]
      case NewHeader(height) => LiveLast(blocks, last, if height > latest then height else latest, events[1..])
      case Fetch(ok) =>
        LiveLast(blocks, if last < latest && ok && last + 1 in blocks then last + 1 else last, latest, events[1..])
  }

  function OkFetches(events: seq<LiveEvent>): nat {
    if events == [] then 0 else (if events[0] == Fetch(true) then 1 else 0) + OkFetches(events[1..])
  }

  /** With the missing blocks at hand and no newer header, each successful fetch brings the service one
      block further, until it is up to date. */
  lemma {:induction false} LiveCatchesUp(blocks: Chain, last: int, latest: int, events: seq<LiveEvent>)
    requires forall h :: last < h <= latest ==> h in blocks
    requires forall k :: 0 <= k < |events| && events[k].NewHeader? ==> events[k].height <= latest
    ensures var n := OkFetches(events);
            LiveLast(blocks, last, latest, events) ==
            if latest <= last then last else if last + n <= latest then last + n else latest
    decreases |events|
  {
    if events != [] {
      var next := if last < latest && events[0] == Fetch(true) then last + 1 else last;
      assert forall k :: 0 <= k < |events| - 1 ==> events[1..][k] == events[k + 1];
      LiveCatchesUp(blocks, next, latest, events[1..]);
    }
  }

  /** Whatever happens it never passes the newest block it has heard of. */
  lemma {:induction false} LiveStaysBelow(blocks: Chain, last: int, latest: int, events: seq<LiveEvent>, bound: int)
    requires last <= bound && latest <= bound
    requires forall k :: 0 <= k < |events| && events[k].NewHeader? ==> events[k].height <= bound
    ensures last <= LiveLast(blocks, last, latest, events) <= bound
    ensures forall h :: last < h <= LiveLast(blocks, last, latest, events) ==> h in blocks
    decreases |events|
  {
    if events != [] {
      var next := if events[0] == Fetch(true) && last < latest && last + 1 in blocks then last + 1 else last;
      var newest := if events[0].NewHeader? && events[0].height > latest then events[0].height else latest;
      assert forall k :: 0 <= k < |events| - 1 ==> events[1..][k] == events[k + 1];
      LiveStaysBelow(blocks, next, newest, events[1..], bound);
    }
  }

  /** An indexer over one chain, with the heights processed so far. */
  class Session {
    const indexer: KVIndexer
    ghost const chain: Chain
    ghost var processed: set<int>

    ghost predicate Valid()
      reads this, indexer
    {
      ValidChain(chain) && Indexes(indexer.db, chain, processed)
    }

    ghost function Eth(): set<int> {
      EthHeights(chain, chain.Keys)
    }

    constructor (ghost chain: Chain)
      requires ValidChain(chain)
      ensures Valid() && processed == {} && this.chain == chain && fresh(indexer)
    {
      indexer := new KVIndexer();
      this.chain := chain;
      processed := {};
    }

    lemma EthProcessed(done: set<int>)
      requires done <= chain.Keys
      ensures EthHeights(chain, done) == Eth() * done
    {
    }

    lemma EthPositive()
      requires Valid()
      ensures forall h :: h in Eth() ==> h > 0
    {
      hide Indexes, DistinctHashes, Entries;
    }

    method Load(last: bool) returns (r: int)
      requires Valid()
      ensures r == Edge(Eth() * processed, last)
    {
      hide IsEdge;
      var h := LoadBlock(indexer.db, last);
      EdgeFound(indexer.db, chain, processed, last, h);
      EthProcessed(processed);
      EdgeUnique(Eth() * processed, last, h.value);
      r := h.value;
    }

    method Index(block: Block, h: int)
      requires Valid() && h in chain && block == chain[h]
      modifies this, indexer
      ensures Valid() && processed == old(processed) + {h}
    {
      hide Indexes, WithBlock;
      IndexBlockExtends(indexer.db, chain, processed, h);
      indexer.IndexBlock(block);
      processed := processed + {h};
    }

    /** `index-eth-tx backward`: from below the first indexed block (or the tip) down to height 1, until
        a block cannot be loaded. */
    method RunBackward(blocks: Chain, tip: int) returns (ghost reached: int)
      requires Valid() && forall h :: h in blocks ==> h in chain && blocks[h] == chain[h]
      modifies this, indexer
      ensures Valid() && processed == After(Eth(), old(processed), Backward(tip, reached))
      ensures BelowAll(reached - 1, Eth() * old(processed)) && (Eth() * old(processed) == {} ==> reached <= tip)
      ensures reached > 1 ==> reached - 1 !in blocks
    {
      hide Valid, Eth;
      EthPositive();
      var first := Load(false);
      if first == -1 { first := tip; }
      var i := first - 1;
      while i > 0
        invariant Valid()
        invariant i < first && (i >= 0 || i == first - 1)
        invariant processed == old(processed) + Range(i + 1, first)
      {
        if i !in blocks { break; }
        Index(blocks[i], i);
        assert Range(i, first) == Range(i + 1, first) + {i};
        i := i - 1;
      }
      reached := i + 1;
      if reached < 1 { assert Range(reached, first) == Range(1, first); }
    }

    /** `index-eth-tx forward`: from above the last indexed block (or from 1) up to the tip. */
    method RunForward(blocks: Chain, tip: int) returns (ghost reached: int)
      requires Valid() && forall h :: h in blocks ==> h in chain && blocks[h] == chain[h]
      modifies this, indexer
      ensures Valid() && processed == After(Eth(), old(processed), Forward(tip, reached))
      ensures 1 <= reached && AboveAll(reached, Eth() * old(processed))
      ensures reached <= tip ==> reached !in blocks
    {
      hide Valid, Eth;
      EthPositive();
      var latest := Load(true);
      if latest == -1 { latest := 0; }
      var i := latest + 1;
      while i <= tip
        invariant Valid()
        invariant latest < i && (i <= tip + 1 || i == latest + 1)
        invariant processed == old(processed) + Range(latest + 1, i)
      {
        if i !in blocks { break; }
        Index(blocks[i], i);
        assert Range(latest + 1, i + 1) == Range(latest + 1, i) + {i};
        i := i + 1;
      }
      reached := i;
      if i > tip + 1 { assert Range(latest + 1, tip + 1) == Range(latest + 1, i); }
    }

    /** The live service for as long as `events` last: it starts at the last indexed block, or skips
        to the newest one when the index is empty, and retries a height until it is fetched. */
    method RunLive(blocks: Chain, latest: int, events: seq<LiveEvent>) returns (ghost reached: int)
      requires Valid() && forall h :: h in blocks ==> h in chain && blocks[h] == chain[h]
      modifies this, indexer
      ensures Valid() && processed == After(Eth(), old(processed), Live(latest, reached))
      ensures reached == LiveLast(blocks, LiveStart(Eth(), old(processed), latest), latest, events) + 1
    {
      hide Valid, Eth;
      var latestBlock := latest;
      var lastBlock := Load(true);
      if lastBlock == -1 { lastBlock := latestBlock; }
      ghost var start := lastBlock;
      assert events[0..] == events;
      for k := 0 to |events|
        invariant Valid()
        invariant start <= lastBlock
        invariant LiveLast(blocks, start, latest, events) == LiveLast(blocks, lastBlock, latestBlock, events[k..])
        invariant processed == old(processed) + Range(start + 1, lastBlock + 1)
      {
        assert events[k..][1..] == events[k + 1..];
        match events[k] {
          case NewHeader(height) =>
            if height > latestBlock { latestBlock := height; }
          case Fetch(ok) =>
            if latestBlock <= lastBlock { continue; }
            var i := lastBlock + 1;
            if !ok || i !in blocks { continue; }
            Index(blocks[i], i);
            assert Range(start + 1, i + 1) == Range(start + 1, i) + {i};
            lastBlock := i;
        }
      }
      assert events[|events|..] == [];
      reached := lastBlock + 1;
    }
  }
}
