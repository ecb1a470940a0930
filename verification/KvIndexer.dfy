/** The Ethereum transaction index (`indexer/kv_indexer.go`): per block, every eth message is
    written under its hash and under (block, index). */
module KvIndexer {
  import opened Wrappers
  import opened Words
  import opened ByteOrder
  import opened Message
  import opened TxResultCodec

  type hash = s: bytes | |s| == 32 witness seq(32, i => 0)
  type Db = map<bytes, bytes>

  // ---- keys ----

  function TxHashKey(h: hash): bytes {
    [1] + h
  }

  function TxIndexKey(block: int64, index: int32): bytes {
    [2] + (BigEndian(ToUint64(block), 8) + BigEndian(ToUint64(index), 8))
  }

  function ParseBlockNumber(key: bytes): Option<int64> {
    if |key| != 17 then None else Some(ToInt64(FromBigEndian(key[1..9])))
  }

  lemma Fits(x: int64)
    ensures ToUint64(x) < Pow2(8 * 8) && ToInt64(ToUint64(x)) == x
  {
    Pow2Literals();
    LowBitsAgree(x);
    ToInt64Small(x);
  }

  lemma FitsPositive(x: int64)
    requires x >= 0
    ensures ToUint64(x) == x < Pow2(8 * 8)
  {
    Pow2Literals();
  }

  lemma ParseBlockNumberOfKey(block: int64, index: int32)
    ensures ParseBlockNumber(TxIndexKey(block, index)) == Some(block)
  {
    hide BigEndian, FromBigEndian, ToUint64, ToInt64;
    Fits(block);
    assert TxIndexKey(block, index)[1..9] == BigEndian(ToUint64(block), 8);
    BigEndianRoundTrip(ToUint64(block), 8);
  }

  /** Different blocks or indexes have different keys. */
  lemma IndexKeyInjective(b: int64, i: int32, c: int64, j: int32)
    requires TxIndexKey(b, i) == TxIndexKey(c, j)
    ensures b == c && i == j
  {
    hide BigEndian, FromBigEndian, ToUint64, ToInt64;
    ParseBlockNumberOfKey(b, i);
    ParseBlockNumberOfKey(c, j);
    Fits(i);
    Fits(j);
    assert TxIndexKey(b, i)[9..] == BigEndian(ToUint64(i), 8) && TxIndexKey(c, j)[9..] == BigEndian(ToUint64(j), 8);
    BigEndianRoundTrip(ToUint64(i), 8);
    BigEndianRoundTrip(ToUint64(j), 8);
  }

  /** The store's key order is the numeric order of (block, index). */
  lemma IndexKeyOrder(b: int64, i: int32, c: int64, j: int32)
    requires 0 <= b && 0 <= i && 0 <= c && 0 <= j
    ensures LexLeq(TxIndexKey(b, i), TxIndexKey(c, j)) <==> b < c || (b == c && i <= j)
  {
    hide BigEndian, LexLeq, ToUint64, Pow2;
    FitsPositive(b);
    FitsPositive(i);
    FitsPositive(c);
    FitsPositive(j);
    var bb, bi, bc, bj := BigEndian(b, 8), BigEndian(i, 8), BigEndian(c, 8), BigEndian(j, 8);
    LexConcat([2], [2], bb + bi, bc + bj);
    LexConcat(bb, bc, bi, bj);
    BigEndianOrder(b, c, 8);
    BigEndianOrder(i, j, 8);
    if bb == bc {
      BigEndianRoundTrip(b, 8);
      BigEndianRoundTrip(c, 8);
    }
  }

  // ---- what a block contributes ----

  datatype EthMsg = EthMsg(hash: hash, gas: uint64)

  datatype ParsedTx = ParsedTx(ethTxIndex: int32, gasUsed: uint64, failed: bool)

  /** A transaction with what the node recorded about it: whether it succeeded or failed as expected,
      decodes, is an eth transaction, and whether its events parse, into one item per message. */
  datatype Tx = Tx(relevant: bool, decodes: bool, isEth: bool, parses: bool, codeOk: bool,
                   msgs: seq<EthMsg>, parsed: seq<ParsedTx>)

  datatype Block = Block(height: int64, txs: seq<Tx>)

  datatype Entry = Entry(hash: hash, result: TxResultValue)

  predicate IsIndexed(tx: Tx) {
    tx.relevant && tx.decodes && tx.isEth && tx.parses
  }

  /** A message that its transaction's events do not mention is passed over. */
  predicate Mentioned(tx: Tx, m: nat) {
    !tx.codeOk || m < |tx.parsed|
  }

  function GasUsed(tx: Tx, m: nat): uint64
    requires m < |tx.msgs| && Mentioned(tx, m)
  {
    if tx.codeOk then tx.parsed[m].gasUsed else tx.msgs[m].gas
  }

  function Failed(tx: Tx, m: nat): bool
    requires m < |tx.msgs| && Mentioned(tx, m)
  {
    if tx.codeOk then tx.parsed[m].failed else true
  }

  /** The entries of a transaction's messages from `m` on. */
  function MsgEntries(tx: Tx, height: int64, txIndex: nat, m: nat, cumulative: uint64, ethIndex: int32): seq<Entry>
    decreases |tx.msgs| - m
  {
    if m >= |tx.msgs| then []
    else if !Mentioned(tx, m) then MsgEntries(tx, height, txIndex, m + 1, cumulative, ethIndex)
    else
      var gas := GasUsed(tx, m);
      var sum := ToUint64(cumulative + gas);
      [Entry(tx.msgs[m].hash, TxResultValue(height, ToUint32(txIndex), ToUint32(m), ethIndex, Failed(tx, m), gas, sum))]
      + MsgEntries(tx, height, txIndex, m + 1, sum, ToInt32(ethIndex + 1))
  }

  function TxEntries(block: Block, t: nat, ethIndex: int32): seq<Entry>
    requires t < |block.txs|
  {
    if IsIndexed(block.txs[t]) then MsgEntries(block.txs[t], block.height, t, 0, 0, ethIndex) else []
  }

  function EntriesFrom(block: Block, t: nat, ethIndex: int32): seq<Entry>
    decreases |block.txs| - t
  {
    if t >= |block.txs| then []
    else
      var es := TxEntries(block, t, ethIndex);
      es + EntriesFrom(block, t + 1, ToInt32(ethIndex + |es|))
  }

  function Entries(block: Block): seq<Entry> {
    EntriesFrom(block, 0, 0)
  }

  function PutEntry(db: Db, e: Entry): Db {
    db[TxHashKey(e.hash) := Wired(e.result)][TxIndexKey(e.result.height, e.result.ethTxIndex) := e.hash]
  }

  function PutAll(db: Db, es: seq<Entry>): Db
    decreases |es|
  {
    if es == [] then db else PutAll(PutEntry(db, es[0]), es[1..])
  }

  // ---- the recorded indexes and gas ----

  lemma WrapAdds(x: int, n: nat)
    ensures ToInt32(ToInt32(x) + n) == ToInt32(x + n)
  {
  }

  lemma {:induction false} MsgEntryIndexes(tx: Tx, height: int64, txIndex: nat, m: nat, cumulative: uint64,
                                           ethIndex: int32, k: nat)
    requires k < |MsgEntries(tx, height, txIndex, m, cumulative, ethIndex)|
    ensures var r := MsgEntries(tx, height, txIndex, m, cumulative, ethIndex)[k].result;
            r.height == height && r.txIndex == ToUint32(txIndex) && r.ethTxIndex == ToInt32(ethIndex + k)
    decreases |tx.msgs| - m
  {
    hide ToUint32, ToInt32, ToUint64, GasUsed, Failed;
    ToInt32Id(ethIndex);
    if !Mentioned(tx, m) {
      MsgEntryIndexes(tx, height, txIndex, m + 1, cumulative, ethIndex, k);
    } else if k > 0 {
      MsgEntryIndexes(tx, height, txIndex, m + 1, ToUint64(cumulative + GasUsed(tx, m)), ToInt32(ethIndex + 1), k - 1);
      WrapAdds(ethIndex + 1, k - 1);
    }
  }

  lemma ToInt32Id(x: int32)
    ensures ToInt32(x) == x
  {
  }

  lemma {:induction false} EntryIndexes(block: Block, t: nat, ethIndex: int32, k: nat)
    requires k < |EntriesFrom(block, t, ethIndex)|
    ensures var r := EntriesFrom(block, t, ethIndex)[k].result;
            r.height == block.height && r.ethTxIndex == ToInt32(ethIndex + k)
    decreases |block.txs| - t
  {
    hide ToInt32, MsgEntries;
    var es := TxEntries(block, t, ethIndex);
    if k < |es| {
      MsgEntryIndexes(block.txs[t], block.height, t, 0, 0, ethIndex, k);
    } else {
      EntryIndexes(block, t + 1, ToInt32(ethIndex + |es|), k - |es|);
      WrapAdds(ethIndex + |es|, k - |es|);
    }
  }

  /** The eth indexes of a block are 0, 1, 2, ... in order. */
  lemma IndexesAreSequential(block: Block, k: nat)
    requires |Entries(block)| <= 0x8000_0000 && k < |Entries(block)|
    ensures Entries(block)[k].result.ethTxIndex == k && Entries(block)[k].result.height == block.height
  {
    EntryIndexes(block, 0, 0, k);
    ToInt32Id(k);
  }

  function TotalGas(es: seq<Entry>): nat {
    if es == [] then 0 else TotalGas(es[..|es| - 1]) + es[|es| - 1].result.gasUsed
  }

  lemma {:induction false} TotalGasCons(e: Entry, es: seq<Entry>)
    ensures TotalGas([e] + es) == e.result.gasUsed + TotalGas(es)
  {
    if es == [] {
      assert [e] + es == [e] && [e][..0] == [];
    } else {
      var n := |es| - 1;
      assert ([e] + es)[..n + 1] == [e] + es[..n];
      TotalGasCons(e, es[..n]);
    }
  }

  /** Within a transaction the cumulative gas is the running sum, modulo 2^64. */
  lemma {:induction false} CumulativeGas(tx: Tx, height: int64, txIndex: nat, m: nat, cumulative: uint64,
                                         ethIndex: int32, k: nat)
    requires k < |MsgEntries(tx, height, txIndex, m, cumulative, ethIndex)|
    ensures var es := MsgEntries(tx, height, txIndex, m, cumulative, ethIndex);
            es[k].result.cumulativeGasUsed == ToUint64(cumulative + TotalGas(es[..k + 1]))
    decreases |tx.msgs| - m
  {
    hide ToUint32, ToInt32, GasUsed, Failed, TotalGas;
    if !Mentioned(tx, m) {
      CumulativeGas(tx, height, txIndex, m + 1, cumulative, ethIndex, k);
    } else {
      var es := MsgEntries(tx, height, txIndex, m, cumulative, ethIndex);
      var gas := GasUsed(tx, m);
      var rest := es[1..];
      TotalGasCons(es[0], rest[..k]);
      assert es[..k + 1] == [es[0]] + rest[..k];
      if k == 0 {
        TotalGasEmpty();
      } else {
        CumulativeGas(tx, height, txIndex, m + 1, ToUint64(cumulative + gas), ToInt32(ethIndex + 1), k - 1);
        WrapAdds64(cumulative + gas, TotalGas(rest[..k]));
      }
    }
  }

  lemma TotalGasEmpty()
    ensures TotalGas([]) == 0
  {
  }

  lemma WrapAdds64(x: nat, n: nat)
    ensures ToUint64(ToUint64(x) + n) == ToUint64(x + n)
  {
  }

  // ---- writing entries ----

  predicate IsKeyOf(k: bytes, e: Entry) {
    k == TxHashKey(e.hash) || k == TxIndexKey(e.result.height, e.result.ethTxIndex)
  }

  /** Both keys of the entry are there, with their values. */
  predicate Recorded(db: Db, e: Entry) {
    var hk, ik := TxHashKey(e.hash), TxIndexKey(e.result.height, e.result.ethTxIndex);
    hk in db && db[hk] == Wired(e.result) && ik in db && db[ik] == e.hash
  }

  /** No two entries share a key. */
  ghost predicate Apart(e: Entry, f: Entry) {
    forall k :: !(IsKeyOf(k, e) && IsKeyOf(k, f))
  }

  lemma DifferentEntriesApart(e: Entry, f: Entry)
    requires e.hash != f.hash
    requires (e.result.height, e.result.ethTxIndex) != (f.result.height, f.result.ethTxIndex)
    ensures Apart(e, f)
  {
    hide TxIndexKey;
    if TxIndexKey(e.result.height, e.result.ethTxIndex) == TxIndexKey(f.result.height, f.result.ethTxIndex) {
      IndexKeyInjective(e.result.height, e.result.ethTxIndex, f.result.height, f.result.ethTxIndex);
    }
    assert TxHashKey(e.hash) != TxHashKey(f.hash) by {
      assert TxHashKey(e.hash)[1..] == e.hash && TxHashKey(f.hash)[1..] == f.hash;
    }
    KeyPrefixes(e, f);
    KeyPrefixes(f, e);
  }

  lemma KeyPrefixes(e: Entry, f: Entry)
    ensures TxHashKey(e.hash) != TxIndexKey(f.result.height, f.result.ethTxIndex)
  {
  }

  lemma PutEntryRecords(db: Db, e: Entry)
    ensures Recorded(PutEntry(db, e), e)
    ensures forall k :: k in PutEntry(db, e) <==> k in db || IsKeyOf(k, e)
    ensures forall k :: k in db && !IsKeyOf(k, e) ==> PutEntry(db, e)[k] == db[k]
  {
  }

  lemma {:induction false} PutAllRecords(db: Db, es: seq<Entry>)
    requires forall i, j :: 0 <= i < j < |es| ==> Apart(es[i], es[j])
    ensures forall i :: 0 <= i < |es| ==> Recorded(PutAll(db, es), es[i])
    ensures forall k :: k in PutAll(db, es) ==> k in db || exists i :: 0 <= i < |es| && IsKeyOf(k, es[i])
    ensures forall k :: k in db && (forall i :: 0 <= i < |es| ==> !IsKeyOf(k, es[i])) ==>
              k in PutAll(db, es) && PutAll(db, es)[k] == db[k]
    decreases |es|
  {
    hide IsKeyOf, Recorded, PutEntry;
    if es != [] {
      var e, rest, mid := es[0], es[1..], PutEntry(db, es[0]);
      PutEntryRecords(db, e);
      forall i, j | 0 <= i < j < |rest| ensures Apart(rest[i], rest[j]) {
        assert rest[i] == es[i + 1] && rest[j] == es[j + 1];
      }
      PutAllRecords(mid, rest);
      assert Recorded(PutAll(db, es), e) by {
        RecordedKept(mid, PutAll(mid, rest), e, rest);
      }
      forall i | 0 <= i < |es| ensures Recorded(PutAll(db, es), es[i]) {
        if i > 0 { assert es[i] == rest[i - 1]; }
      }
      forall k | k in PutAll(db, es) ensures k in db || exists i :: 0 <= i < |es| && IsKeyOf(k, es[i]) {
        if k in mid {
          if k !in db { assert IsKeyOf(k, es[0]); }
        } else {
          var i :| 0 <= i < |rest| && IsKeyOf(k, rest[i]);
          assert es[i + 1] == rest[i];
        }
      }
      forall k | k in db && (forall i :: 0 <= i < |es| ==> !IsKeyOf(k, es[i]))
        ensures k in PutAll(db, es) && PutAll(db, es)[k] == db[k]
      {
        assert !IsKeyOf(k, es[0]);
        forall i | 0 <= i < |rest| ensures !IsKeyOf(k, rest[i]) { assert rest[i] == es[i + 1]; }
      }
    }
  }

  lemma RecordedKept(before: Db, after: Db, e: Entry, es: seq<Entry>)
    requires Recorded(before, e)
    requires forall i :: 0 <= i < |es| ==> Apart(e, es[i])
    requires forall k :: k in before && (forall i :: 0 <= i < |es| ==> !IsKeyOf(k, es[i])) ==>
               k in after && after[k] == before[k]
    ensures Recorded(after, e)
  {
  }

  // ---- the index of a set of blocks ----

  type Chain = map<int, Block>

  function Count(chain: Chain, h: int): nat
    requires h in chain
  {
    |Entries(chain[h])|
  }

  function At(chain: Chain, h: int, i: int): Entry
    requires h in chain && 0 <= i < Count(chain, h)
  {
    Entries(chain[h])[i]
  }

  /** Heights are positive, no block has more eth messages than an `int32` can number, and no two
      messages share a hash. */
  ghost predicate ValidChain(chain: Chain) {
    ValidHeights(chain) && DistinctHashes(chain)
  }

  ghost predicate ValidHeights(chain: Chain) {
    forall h :: h in chain ==> 1 <= h < TWO_63 && chain[h].height == h && Count(chain, h) <= 0x8000_0000
  }

  ghost predicate DistinctHashes(chain: Chain) {
    forall h, i, g, j ::
      (h in chain && g in chain && 0 <= i < Count(chain, h) && 0 <= j < Count(chain, g) && (h, i) != (g, j)) ==>
      At(chain, h, i).hash != At(chain, g, j).hash
  }

  /** The store holds the entries of the processed blocks and nothing else. */
  ghost predicate Indexes(db: Db, chain: Chain, processed: set<int>) {
    && processed <= chain.Keys
    && (forall h, i :: h in processed && 0 <= i < Count(chain, h) ==> Recorded(db, At(chain, h, i)))
    && (forall k :: k in db ==> Owned(k, chain, processed))
  }

  ghost predicate Owned(k: bytes, chain: Chain, processed: set<int>)
    requires processed <= chain.Keys
  {
    exists h, i :: h in processed && 0 <= i < Count(chain, h) && IsKeyOf(k, At(chain, h, i))
  }

  lemma EntriesApart(chain: Chain, h: int, i: int, g: int, j: int)
    requires ValidChain(chain) && h in chain && g in chain && 0 <= i < Count(chain, h) && 0 <= j < Count(chain, g)
    requires (h, i) != (g, j)
    ensures Apart(At(chain, h, i), At(chain, g, j))
  {
    hide Entries;
    IndexesAreSequential(chain[h], i);
    IndexesAreSequential(chain[g], j);
    DifferentEntriesApart(At(chain, h, i), At(chain, g, j));
  }

  function WithBlock(db: Db, block: Block): Db {
    PutAll(db, Entries(block))
  }

  /** Indexing a block adds it to the processed ones, whatever the order and however often. */
  lemma IndexBlockExtends(db: Db, chain: Chain, processed: set<int>, h: int)
    requires ValidChain(chain) && Indexes(db, chain, processed) && h in chain
    ensures Indexes(WithBlock(db, chain[h]), chain, processed + {h})
  {
    hide Entries, Recorded, IsKeyOf, PutAll, ValidChain, Apart;
    var es, after := Entries(chain[h]), WithBlock(db, chain[h]);
    forall i, j | 0 <= i < j < |es| ensures Apart(es[i], es[j]) { EntriesApart(chain, h, i, h, j); }
    PutAllRecords(db, es);
    forall g, j | g in processed + {h} && 0 <= j < Count(chain, g) ensures Recorded(after, At(chain, g, j)) {
      if g == h {
        assert At(chain, g, j) == es[j];
      } else {
        forall i | 0 <= i < |es| ensures Apart(At(chain, g, j), es[i]) { EntriesApart(chain, g, j, h, i); }
        RecordedKept(db, after, At(chain, g, j), es);
      }
    }
    forall k | k in after ensures Owned(k, chain, processed + {h}) {
      if k in db {
        var g, i :| g in processed && 0 <= i < Count(chain, g) && IsKeyOf(k, At(chain, g, i));
        assert g in processed + {h};
      } else {
        var i :| 0 <= i < |es| && IsKeyOf(k, es[i]);
        assert h in processed + {h} && es[i] == At(chain, h, i);
      }
    }
  }

  /** The processed blocks determine the store. */
  lemma IndexUnique(db: Db, other: Db, chain: Chain, processed: set<int>)
    requires Indexes(db, chain, processed) && Indexes(other, chain, processed)
    ensures db == other
  {
    hide Indexes;
    IndexIncluded(db, other, chain, processed);
    IndexIncluded(other, db, chain, processed);
    assert db.Keys == other.Keys;
  }

  lemma KeyAgrees(k: bytes, e: Entry, db: Db, other: Db)
    requires IsKeyOf(k, e) && Recorded(db, e) && Recorded(other, e)
    ensures k in db && k in other && other[k] == db[k]
  {
  }

  lemma IndexIncluded(db: Db, other: Db, chain: Chain, processed: set<int>)
    requires Indexes(db, chain, processed) && Indexes(other, chain, processed)
    ensures forall k :: k in db ==> k in other && other[k] == db[k]
  {
    hide IsKeyOf, Recorded, Entries;
    forall k | k in db ensures k in other && other[k] == db[k] {
      assert Owned(k, chain, processed);
      var h, i :| h in processed && 0 <= i < Count(chain, h) && IsKeyOf(k, At(chain, h, i));
      KeyAgrees(k, At(chain, h, i), db, other);
    }
  }

  /** Indexing a block again changes nothing. */
  lemma ReindexChangesNothing(db: Db, chain: Chain, processed: set<int>, h: int)
    requires ValidChain(chain) && Indexes(db, chain, processed) && h in processed
    ensures WithBlock(db, chain[h]) == db
  {
    hide WithBlock, ValidChain;
    IndexBlockExtends(db, chain, processed, h);
    assert processed + {h} == processed;
    IndexUnique(WithBlock(db, chain[h]), db, chain, processed);
  }

  // ---- reading the index ----

  /** Absent, unreadable, or the stored result. */
  datatype Lookup = NotFound | Corrupt | Found(result: TxResultValue)

  function GetByTxHash(db: Db, h: hash): Lookup {
    var key := TxHashKey(h);
    if key !in db || db[key] == [] then NotFound
    else if |db[key]| >= TWO_63 then Corrupt
    else
      match Parse(SCHEMA, db[key])
      case ParseFailed(_) => Corrupt
      case Events(es) => Found(ApplyAll(ZERO, es))
  }

  function GetByBlockAndIndex(db: Db, block: int64, index: int32): Lookup {
    var key := TxIndexKey(block, index);
    if key !in db || db[key] == [] then NotFound
    else GetByTxHash(db, BytesToHash(db[key]))
  }

  /** Go's `common.BytesToHash`: the last 32 bytes, left-padded with zeros. */
  function BytesToHash(bs: bytes): hash {
    if |bs| >= 32 then bs[|bs| - 32..] else seq(32 - |bs|, i => 0) + bs
  }

  /** Both ways of asking for a message of a processed block give the same stored result, with the
      right height and index. A zero result would encode to nothing and read as absent, which the
      positive height rules out. */
  lemma LookupsAgree(db: Db, chain: Chain, processed: set<int>, h: int64, i: int32)
    requires ValidChain(chain) && Indexes(db, chain, processed) && h in processed && 0 <= i < Count(chain, h)
    ensures var e := At(chain, h, i);
            && GetByTxHash(db, e.hash) == Found(e.result)
            && GetByBlockAndIndex(db, h, i) == Found(e.result)
            && e.result.height == h && e.result.ethTxIndex == i
  {
    hide Entries, Recorded, GetByTxHash, GetByBlockAndIndex, DistinctHashes, Owned;
    var e := At(chain, h, i);
    IndexesAreSequential(chain[h], i);
    StoredIsRead(db, e);
  }

  lemma StoredIsRead(db: Db, e: Entry)
    requires Recorded(db, e) && e.result != ZERO
    ensures GetByTxHash(db, e.hash) == Found(e.result)
    ensures GetByBlockAndIndex(db, e.result.height, e.result.ethTxIndex) == Found(e.result)
  {
    hide Wired, Parse, ApplyAll, TxIndexKey, TxHashKey;
    RoundTrip(e.result);
    WiredEmptyOnlyForZero(e.result);
    assert BytesToHash(e.hash) == e.hash;
  }

  // ---- the first and last indexed block ----

  /** The keys an iterator over [0x02, 0x03) visits. */
  predicate InIndexRange(k: bytes) {
    LexLeq([2], k) && !LexLeq([3], k)
  }

  lemma IndexRangeIsPrefix(k: bytes)
    ensures InIndexRange(k) <==> k != [] && k[0] == 2
  {
    var two: bytes, three: bytes := [2], [3];
    assert two[1..] == [] && three[1..] == [];
    if k != [] { assert LexLeq(two[1..], k[1..]) && LexLeq(three[1..], k[1..]); }
  }

  /** The greatest (least) key of the index range. */
  ghost predicate IsEdgeKey(db: Db, last: bool, key: bytes) {
    && key in db && InIndexRange(key)
    && forall k :: k in db && InIndexRange(k) ==> if last then LexLeq(k, key) else LexLeq(key, k)
  }

  /** The first key of the range in ascending or descending order, as a database iterator finds it. */
  method SeekIndexKey(db: Db, descending: bool) returns (best: Option<bytes>)
    ensures best.None? ==> forall k :: k in db ==> !InIndexRange(k)
    ensures best.Some? ==> IsEdgeKey(db, descending, best.value)
  {
    hide LexLeq, InIndexRange;
    best := None;
    var rest := db.Keys;
    while rest != {}
      invariant rest <= db.Keys
      invariant best.None? ==> forall k :: k in db.Keys - rest ==> !InIndexRange(k)
      invariant best.Some? ==> best.value in db && InIndexRange(best.value)
      invariant best.Some? ==> forall k :: k in db.Keys - rest && InIndexRange(k) ==>
                                 if descending then LexLeq(k, best.value) else LexLeq(best.value, k)
      decreases |rest|
    {
      var k :| k in rest;
      if InIndexRange(k) {
        if best.None? {
          best := Some(k);
          LexReflexive(k);
        } else {
          var b := best.value;
          LexTotal(k, b);
          LexReflexive(k);
          if if descending then LexLeq(b, k) else LexLeq(k, b) {
            forall j | j in db.Keys - rest && InIndexRange(j)
              ensures if descending then LexLeq(j, k) else LexLeq(k, j)
            {
              if descending { LexTransitive(j, b, k); } else { LexTransitive(k, b, j); }
            }
            best := Some(k);
          }
        }
      }
      rest := rest - {k};
    }
  }

  lemma {:induction false} LexReflexive(a: bytes)
    ensures LexLeq(a, a)
  {
    LexTotal(a, a);
  }

  datatype Height = Height(value: int) | WrongKeyLength

  function HeightOf(key: bytes): Height {
    match ParseBlockNumber(key)
    case None => WrongKeyLength
    case Some(b) => Height(b)
  }

  /** The height in the edge key, or -1 when the range is empty. */
  ghost predicate IsEdgeHeight(db: Db, last: bool, r: Height) {
    if exists k :: k in db && InIndexRange(k) then exists k :: IsEdgeKey(db, last, k) && r == HeightOf(k)
    else r == Height(-1)
  }

  /** `LoadFirstBlock` and `LoadLastBlock`. */
  method LoadBlock(db: Db, last: bool) returns (r: Height)
    ensures IsEdgeHeight(db, last, r)
  {
    hide LexLeq, InIndexRange, ParseBlockNumber;
    var it := SeekIndexKey(db, last);
    if it.None? { return Height(-1); }
    assert IsEdgeKey(db, last, it.value);
    var b := ParseBlockNumber(it.value);
    if b.None? { return WrongKeyLength; }
    return Height(b.value);
  }

  /** The processed blocks that contributed entries. */
  function EthHeights(chain: Chain, processed: set<int>): set<int>
    requires processed <= chain.Keys
  {
    set h | h in processed && Count(chain, h) > 0
  }

  /** The lowest (highest) height present, or -1 when there is none. */
  ghost predicate IsEdge(heights: set<int>, last: bool, r: int) {
    if heights == {} then r == -1 else r in heights && forall h :: h in heights ==> if last then h <= r else r <= h
  }

  lemma IndexKeysOf(db: Db, chain: Chain, processed: set<int>, k: bytes) returns (h: int64, i: int32)
    requires ValidChain(chain) && Indexes(db, chain, processed) && k in db && InIndexRange(k)
    ensures h in processed && 0 <= i < Count(chain, h) && 0 < h && k == TxIndexKey(h, i)
  {
    hide Entries, LexLeq, DistinctHashes, TxIndexKey, InIndexRange;
    IndexRangeIsPrefix(k);
    assert Owned(k, chain, processed);
    var g, j :| g in processed && 0 <= j < Count(chain, g) && IsKeyOf(k, At(chain, g, j));
    IndexesAreSequential(chain[g], j);
    assert TxHashKey(At(chain, g, j).hash)[0] == 1;
    h, i := g, j;
  }

  lemma HasIndexKey(db: Db, chain: Chain, processed: set<int>, h: int64)
    requires ValidChain(chain) && Indexes(db, chain, processed) && h in processed && Count(chain, h) > 0
    ensures TxIndexKey(h, 0) in db && InIndexRange(TxIndexKey(h, 0))
  {
    hide Entries, LexLeq, DistinctHashes, InIndexRange, BigEndian;
    assert Recorded(db, At(chain, h, 0));
    IndexesAreSequential(chain[h], 0);
    IndexRangeIsPrefix(TxIndexKey(h, 0));
  }

  /** What the loader finds is the lowest (highest) processed height with eth messages. */
  lemma EdgeFound(db: Db, chain: Chain, processed: set<int>, last: bool, r: Height)
    requires ValidChain(chain) && Indexes(db, chain, processed) && processed <= chain.Keys
    requires IsEdgeHeight(db, last, r)
    ensures r.Height? && IsEdge(EthHeights(chain, processed), last, r.value)
  {
    hide Entries, LexLeq, InIndexRange, TxIndexKey, Indexes, ValidChain, ParseBlockNumber;
    var heights := EthHeights(chain, processed);
    if key :| IsEdgeKey(db, last, key) && r == HeightOf(key) {
      var h, i := IndexKeysOf(db, chain, processed, key);
      ParseBlockNumberOfKey(h, i);
      assert r == Height(h) && h in heights;
      forall g: int | g in heights ensures if last then g <= h else h <= g {
        IndexKeyPositive(db, chain, processed, g);
        HasIndexKey(db, chain, processed, g);
        if last { IndexKeyOrder(g, 0, h, i); } else { IndexKeyOrder(h, i, g, 0); }
      }
    } else {
      forall h: int | h in heights ensures false {
        IndexKeyPositive(db, chain, processed, h);
        HasIndexKey(db, chain, processed, h);
      }
    }
  }

  lemma IndexKeyPositive(db: Db, chain: Chain, processed: set<int>, h: int)
    requires ValidChain(chain) && Indexes(db, chain, processed) && h in processed
    ensures 0 < h < TWO_63
  {
  }

  // ---- the code ----

  class KVIndexer {
    var db: Db

    constructor ()
      ensures db == map[]
    {
      db := map[];
    }

    /** The loop over one transaction's messages, writing into the batch. */
    method IndexMsgs(batch: Db, tx: Tx, height: int64, txIndex: nat, ethTxIndex: int32)
      returns (written: Db, next: int32)
      ensures var es := MsgEntries(tx, height, txIndex, 0, 0, ethTxIndex);
              written == PutAll(batch, es) && next == ToInt32(ethTxIndex + |es|)
    {
      hide PutEntry, ToUint32, ToUint64, ToInt32;
      ghost var all := MsgEntries(tx, height, txIndex, 0, 0, ethTxIndex);
      ghost var done: nat := 0;
      written, next := batch, ethTxIndex;
      var cumulativeGasUsed: uint64 := 0;
      ToInt32Id(ethTxIndex);
      for msgIndex := 0 to |tx.msgs|
        invariant done <= |all| && next == ToInt32(ethTxIndex + done)
        invariant all[done..] == MsgEntries(tx, height, txIndex, msgIndex, cumulativeGasUsed, next)
        invariant PutAll(batch, all) == PutAll(written, all[done..])
      {
        var gasUsed, failed := 0, false;
        if !tx.codeOk {
          gasUsed, failed := tx.msgs[msgIndex].gas, true;
        } else {
          if msgIndex >= |tx.parsed| { continue; }
          gasUsed, failed := tx.parsed[msgIndex].gasUsed, tx.parsed[msgIndex].failed;
        }
        cumulativeGasUsed := ToUint64(cumulativeGasUsed + gasUsed);
        var e := Entry(tx.msgs[msgIndex].hash,
                       TxResultValue(height, ToUint32(txIndex), ToUint32(msgIndex), next,
                                     failed, gasUsed, cumulativeGasUsed));
        assert all[done..][0] == e && all[done..][1..] == all[done + 1..];
        written := PutEntry(written, e);
        WrapAdds(ethTxIndex + done, 1);
        next := ToInt32(next + 1);
        done := done + 1;
      }
    }

    /** `IndexBlock`: the entries of the block go into a batch, which is then written. */
    method IndexBlock(block: Block)
      modifies this
      ensures db == WithBlock(old(db), block)
    {
      hide PutAll, MsgEntries, ToInt32;
      var batch, ethTxIndex: int32 := db, 0;
      for txIndex := 0 to |block.txs|
        invariant PutAll(db, Entries(block)) == PutAll(batch, EntriesFrom(block, txIndex, ethTxIndex))
        invariant db == old(db)
      {
        var tx := block.txs[txIndex];
        ghost var es := TxEntries(block, txIndex, ethTxIndex);
        PutAllConcat(batch, es, EntriesFrom(block, txIndex + 1, ToInt32(ethTxIndex + |es|)));
        ToInt32Id(ethTxIndex);
        PutAllNothing(batch);
        if !tx.relevant { continue; }
        if !tx.decodes { continue; }
        if !tx.isEth { continue; }
        if !tx.parses { continue; }
        batch, ethTxIndex := IndexMsgs(batch, tx, block.height, txIndex, ethTxIndex);
      }
      PutAllNothing(batch);
      db := batch;
    }
  }

  lemma PutAllNothing(db: Db)
    ensures PutAll(db, []) == db
  {
  }

  lemma {:induction false} PutAllConcat(db: Db, a: seq<Entry>, b: seq<Entry>)
    ensures PutAll(db, a + b) == PutAll(PutAll(db, a), b)
    decreases |a|
  {
    hide PutEntry;
    if a == [] {
      assert a + b == b;
    } else {
      assert (a + b)[1..] == a[1..] + b;
      PutAllConcat(PutEntry(db, a[0]), a[1..], b);
    }
  }
}
