/** What the index holds about each Ethereum message, said without the indexing loop: which messages are
    recorded, at which position, and with which values. */
module KvRecords {
  import opened Words
  import opened ByteOrder
  import opened TxResultCodec
  import opened KvIndexer

  /** How many messages of a transaction are recorded: all of them when it failed, those the events
      mention when it went through, none when it is no readable Ethereum transaction. */
  function RecordedCount(tx: Tx): nat {
    if !tx.relevant || !tx.decodes || !tx.isEth || !tx.parses then 0
    else if tx.codeOk && |tx.parsed| < |tx.msgs| then |tx.parsed|
    else |tx.msgs|
  }

  /** The messages recorded in the transactions before `t`. */
  function Offset(block: Block, t: nat): nat
    requires t <= |block.txs|
  {
    if t == 0 then 0 else Offset(block, t - 1) + RecordedCount(block.txs[t - 1])
  }

  /** A message of a transaction that went through has the gas its event reports, one of a failed
      transaction its gas limit. */
  function Gas(tx: Tx, m: nat): uint64
    requires m < RecordedCount(tx)
  {
    if tx.codeOk then tx.parsed[m].gasUsed else tx.msgs[m].gas
  }

  function GasUpTo(tx: Tx, m: nat): nat
    requires m <= RecordedCount(tx)
  {
    if m == 0 then 0 else GasUpTo(tx, m - 1) + Gas(tx, m - 1)
  }

  /** The record of message `m` of transaction `t`. */
  function RecordOf(block: Block, t: nat, m: nat): TxResultValue
    requires t < |block.txs| && m < RecordedCount(block.txs[t]) && Offset(block, t) + m < 0x8000_0000
  {
    var tx := block.txs[t];
    TxResultValue(
      block.height, t % TWO_32, m % TWO_32, Offset(block, t) + m,
      if tx.codeOk then tx.parsed[m].failed else true,
      if tx.codeOk then tx.parsed[m].gasUsed else tx.msgs[m].gas,
      GasUpTo(tx, m + 1) % TWO_64)
  }

  // ---- one transaction ----

  /** The entries from message `m` on: one for each recorded message, in order. */
  lemma {:induction false} MsgEntriesAre(tx: Tx, height: int64, txIndex: nat, m: nat, ethIndex: int32, k: nat)
    requires IsIndexed(tx) && m <= RecordedCount(tx)
    ensures var es := MsgEntries(tx, height, txIndex, m, GasUpTo(tx, m) % TWO_64, ethIndex);
            && |es| == RecordedCount(tx) - m
            && (k < |es| ==>
                  && es[k].hash == tx.msgs[m + k].hash
                  && es[k].result == TxResultValue(height, txIndex % TWO_32, (m + k) % TWO_32, ToInt32(ethIndex + k),
                                                   if tx.codeOk then tx.parsed[m + k].failed else true,
                                                   Gas(tx, m + k), GasUpTo(tx, m + k + 1) % TWO_64))
    decreases |tx.msgs| - m
  {
    hide ToInt32, ToUint64, MsgEntries, Gas, RecordedCount;
    ToInt32Id(ethIndex);
    if m == RecordedCount(tx) {
      NoneLeft(tx, height, txIndex, m, GasUpTo(tx, m) % TWO_64, ethIndex);
    } else {
      MsgEntriesUnfold(tx, height, txIndex, m, GasUpTo(tx, m) % TWO_64, ethIndex);
      ModAdds(GasUpTo(tx, m), Gas(tx, m));
      MsgEntriesAre(tx, height, txIndex, m + 1, ToInt32(ethIndex + 1), if k > 0 then k - 1 else 0);
      WrapAdds(ethIndex + 1, if k > 0 then k - 1 else 0);
    }
  }

  lemma MsgEntriesUnfold(tx: Tx, height: int64, txIndex: nat, m: nat, cumulative: uint64, ethIndex: int32)
    requires IsIndexed(tx) && m < RecordedCount(tx)
    ensures m < |tx.msgs| && (tx.codeOk ==> m < |tx.parsed|)
    ensures var sum := (cumulative + Gas(tx, m)) % TWO_64;
            MsgEntries(tx, height, txIndex, m, cumulative, ethIndex) ==
            [Entry(tx.msgs[m].hash,
                   TxResultValue(height, txIndex % TWO_32, m % TWO_32, ethIndex,
                                 if tx.codeOk then tx.parsed[m].failed else true, Gas(tx, m), sum))]
            + MsgEntries(tx, height, txIndex, m + 1, sum, ToInt32(ethIndex + 1))
  {
    hide ToInt32;
  }

  lemma ModAdds(x: nat, n: nat)
    ensures (x % TWO_64 + n) % TWO_64 == (x + n) % TWO_64
  {
    WrapAdds64(x, n);
  }

  lemma {:induction false} NoneLeft(tx: Tx, height: int64, txIndex: nat, m: nat, cumulative: uint64, ethIndex: int32)
    requires IsIndexed(tx) && RecordedCount(tx) <= m
    ensures MsgEntries(tx, height, txIndex, m, cumulative, ethIndex) == []
    decreases |tx.msgs| - m
  {
    if m < |tx.msgs| { NoneLeft(tx, height, txIndex, m + 1, cumulative, ethIndex); }
  }

  lemma TxEntriesAre(block: Block, t: nat, ethIndex: int32, k: nat)
    requires t < |block.txs|
    ensures var es, tx := TxEntries(block, t, ethIndex), block.txs[t];
            && |es| == RecordedCount(tx)
            && (k < |es| ==>
                  && es[k].hash == tx.msgs[k].hash
                  && es[k].result == TxResultValue(block.height, t % TWO_32, k % TWO_32, ToInt32(ethIndex + k),
                                                   if tx.codeOk then tx.parsed[k].failed else true,
                                                   Gas(tx, k), GasUpTo(tx, k + 1) % TWO_64))
  {
    hide ToInt32, MsgEntries;
    if IsIndexed(block.txs[t]) { MsgEntriesAre(block.txs[t], block.height, t, 0, ethIndex, k); }
  }

  // ---- one block ----

  /** Message `m` of transaction `t` is entry number `Offset + m`, and there are no other entries. */
  lemma {:induction false} EntriesFromAre(block: Block, s: nat, ethIndex: int32, t: nat, m: nat)
    requires s <= |block.txs| && ethIndex == ToInt32(Offset(block, s))
    ensures Offset(block, s) <= Offset(block, |block.txs|)
    ensures |EntriesFrom(block, s, ethIndex)| == Offset(block, |block.txs|) - Offset(block, s)
    ensures s <= t < |block.txs| && m < RecordedCount(block.txs[t]) ==>
              && Offset(block, s) <= Offset(block, t)
              && var es, tx := EntriesFrom(block, s, ethIndex), block.txs[t];
                 var k := Offset(block, t) - Offset(block, s) + m;
                 && k < |es| && es[k].hash == tx.msgs[m].hash
                 && es[k].result == TxResultValue(block.height, t % TWO_32, m % TWO_32, ToInt32(Offset(block, t) + m),
                                                  if tx.codeOk then tx.parsed[m].failed else true,
                                                  Gas(tx, m), GasUpTo(tx, m + 1) % TWO_64)
    decreases |block.txs| - s
  {
    hide ToInt32, TxEntries, RecordedCount, Gas, GasUpTo;
    if s < |block.txs| {
      var es := TxEntries(block, s, ethIndex);
      TxEntriesAre(block, s, ethIndex, m);
      WrapAdds(Offset(block, s), |es|);
      WrapAdds(Offset(block, s), m);
      EntriesFromAre(block, s + 1, ToInt32(ethIndex + |es|), t, m);
    }
  }

  /** The entries of a block are the records of its messages, in order. */
  lemma EntryIsRecord(block: Block, t: nat, m: nat)
    requires t < |block.txs| && m < RecordedCount(block.txs[t]) && |Entries(block)| <= 0x8000_0000
    ensures Offset(block, t) + m < |Entries(block)| == Offset(block, |block.txs|)
    ensures Entries(block)[Offset(block, t) + m] == Entry(block.txs[t].msgs[m].hash, RecordOf(block, t, m))
  {
    hide RecordedCount, Gas, GasUpTo, EntriesFrom, Offset;
    NoOffset(block);
    ToInt32Id(0);
    EntriesFromAre(block, 0, 0, t, m);
    ToInt32Id(Offset(block, t) + m);
    assert Entries(block)[Offset(block, t) + m].result.gasUsed == Gas(block.txs[t], m);
    GasIs(block.txs[t], m);
  }

  lemma NoOffset(block: Block)
    ensures Offset(block, 0) == 0
  {
  }

  lemma GasIs(tx: Tx, m: nat)
    requires m < RecordedCount(tx)
    ensures Gas(tx, m) == if tx.codeOk then tx.parsed[m].gasUsed else tx.msgs[m].gas
  {
  }

  /** Every entry is one of them. */
  lemma EntryHasMessage(block: Block, k: nat) returns (t: nat, m: nat)
    requires k < Offset(block, |block.txs|)
    ensures t < |block.txs| && m < RecordedCount(block.txs[t]) && k == Offset(block, t) + m
  {
    t := |block.txs|;
    while t > 0 && k < Offset(block, t - 1)
      invariant t <= |block.txs| && k < Offset(block, t)
    {
      t := t - 1;
    }
    assert t > 0 by { NoOffset(block); }
    t := t - 1;
    m := k - Offset(block, t);
  }

  // ---- lookups ----

  /** Asking for a message of a processed block by its hash, or by its place among the block's Ethereum
      messages, gives what the block says about it. */
  lemma LookupByMessage(db: Db, chain: Chain, processed: set<int>, h: int64, t: nat, m: nat)
    requires ValidChain(chain) && Indexes(db, chain, processed) && h in processed
    requires t < |chain[h].txs| && m < RecordedCount(chain[h].txs[t])
    ensures Offset(chain[h], t) + m < 0x8000_0000
    ensures var r := RecordOf(chain[h], t, m);
            && GetByTxHash(db, chain[h].txs[t].msgs[m].hash) == Found(r)
            && GetByBlockAndIndex(db, h, Offset(chain[h], t) + m) == Found(r)
            && r.height == h
  {
    hide RecordedCount, Entries, Offset, GetByTxHash, GetByBlockAndIndex, ValidChain, Indexes, RecordOf;
    ChainBounds(db, chain, processed, h);
    EntryIsRecord(chain[h], t, m);
    LookupsAgree(db, chain, processed, h, Offset(chain[h], t) + m);
  }

  lemma ChainBounds(db: Db, chain: Chain, processed: set<int>, h: int)
    requires ValidChain(chain) && Indexes(db, chain, processed) && h in processed
    ensures h in chain && chain[h].height == h && |Entries(chain[h])| <= 0x8000_0000
  {
    hide Entries, DistinctHashes, Owned, Recorded;
  }

  /** A hash that no processed block records is not found. */
  lemma OtherHashNotFound(db: Db, chain: Chain, processed: set<int>, other: hash)
    requires Indexes(db, chain, processed)
    requires forall h, t, m: nat ::
               h in processed && 0 <= t < |chain[h].txs| && m < RecordedCount(chain[h].txs[t]) ==>
               chain[h].txs[t].msgs[m].hash != other
    requires forall h :: h in processed ==> Count(chain, h) <= 0x8000_0000
    ensures GetByTxHash(db, other) == NotFound
  {
    hide RecordedCount, Entries, Offset, RecordOf, TxIndexKey, Recorded;
    if TxHashKey(other) in db {
      assert Owned(TxHashKey(other), chain, processed);
      var h, i :| h in processed && 0 <= i < Count(chain, h) && IsKeyOf(TxHashKey(other), At(chain, h, i));
      var e := At(chain, h, i);
      HashKeyOf(other, e);
      EntriesCount(chain[h]);
      var t, m := EntryHasMessage(chain[h], i);
      EntryIsRecord(chain[h], t, m);
    }
  }

  lemma EntriesCount(block: Block)
    ensures |Entries(block)| == Offset(block, |block.txs|)
  {
    hide EntriesFrom, RecordedCount, Offset;
    NoOffset(block);
    ToInt32Id(0);
    EntriesFromAre(block, 0, 0, 0, 0);
  }

  lemma HashKeyOf(other: hash, e: Entry)
    requires IsKeyOf(TxHashKey(other), e)
    ensures e.hash == other
  {
    assert TxHashKey(other)[0] == 1 && TxIndexKey(e.result.height, e.result.ethTxIndex)[0] == 2;
    assert TxHashKey(other)[1..] == other && TxHashKey(e.hash)[1..] == e.hash;
  }

  // ---- keys ----

  /** A hash key is 1 and the hash; an index key is 2, the block and the index, eight bytes each with
      the most significant first. */
  lemma KeyLayout(h: hash, block: int64, index: int32)
    requires 0 <= block && 0 <= index
    ensures |TxHashKey(h)| == 33 && TxHashKey(h)[0] == 1 && TxHashKey(h)[1..] == h
    ensures var key := TxIndexKey(block, index);
            |key| == 17 && key[0] == 2 && FromBigEndian(key[1..9]) == block && FromBigEndian(key[9..]) == index
  {
    hide BigEndian, FromBigEndian, ToUint64;
    var key := TxIndexKey(block, index);
    FitsPositive(block);
    FitsPositive(index);
    assert key[1..9] == BigEndian(ToUint64(block), 8) && key[9..] == BigEndian(ToUint64(index), 8);
    BigEndianRoundTrip(block, 8);
    BigEndianRoundTrip(index, 8);
  }
}
