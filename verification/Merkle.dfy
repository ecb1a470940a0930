/** The migration airdrop's Merkle tree: the builder and prover of `cmd/migration-merkle` and the
    on-chain verifier of `x/tokenomics/keeper`. SHA-256 is an arbitrary function into 32 bytes; no
    property of it is assumed, so binding is stated as "or here is a collision". */
module Merkle {
  import opened Words
  import opened Varint
  import opened ByteOrder
  import opened Amounts

  const HASH_SIZE := 32

  type digest = s: bytes | |s| == HASH_SIZE witness seq(32, i => 0)
  type Sha = bytes -> digest

  datatype Entry = Entry(claimer: bytes, amount: bytes)

  ghost predicate Collision(sha: Sha, x: bytes, y: bytes) {
    x != y && sha(x) == sha(y)
  }

  // ---- hashing ----

  function Payload(e: Entry): bytes {
    Encode(|e.claimer|) + (e.claimer + (Encode(|e.amount|) + e.amount))
  }

  function LeafHash(sha: Sha, e: Entry): digest {
    sha(sha(Payload(e)))
  }

  function Combined(a: bytes, b: bytes): bytes {
    if LexLeq(a, b) then a + b else b + a
  }

  function HashPair(sha: Sha, a: bytes, b: bytes): digest {
    sha(Combined(a, b))
  }

  /** The length prefixes make the leaf payload unambiguous. */
  lemma PayloadInjective(e: Entry, f: Entry)
    requires Payload(e) == Payload(f)
    ensures e == f
  {
    var re, rf := e.claimer + (Encode(|e.amount|) + e.amount), f.claimer + (Encode(|f.amount|) + f.amount);
    EncodePrefixFree(|e.claimer|, |f.claimer|, re, rf);
    var n := |e.claimer|;
    assert e.claimer == re[..n] == rf[..n] == f.claimer;
    assert re[n..] == Encode(|e.amount|) + e.amount && rf[n..] == Encode(|f.amount|) + f.amount;
    EncodePrefixFree(|e.amount|, |f.amount|, e.amount, f.amount);
  }

  /** Sorting the pair makes the parent independent of the side a child is on. */
  lemma CombinedSymmetric(a: bytes, b: bytes)
    ensures Combined(a, b) == Combined(b, a)
  {
    LexTotal(a, b);
    if LexLeq(a, b) && LexLeq(b, a) { LexAntisymmetric(a, b); }
  }

  /** A sorted pair of digests determines the pair, up to the side. */
  lemma CombinedDetermines(a: digest, b: digest, c: digest, d: digest)
    requires Combined(a, b) == Combined(c, d)
    ensures (a == c && b == d) || (a == d && b == c)
  {
    var x, y := Combined(a, b), Combined(c, d);
    assert (x[..32] == a && x[32..] == b) || (x[..32] == b && x[32..] == a);
    assert (y[..32] == c && y[32..] == d) || (y[..32] == d && y[32..] == c);
  }

  /** The half with the smaller number comes first. */
  lemma CombinedSorted(a: digest, b: digest)
    ensures var c := Combined(a, b);
            && |c| == 64 && multiset{c[..32], c[32..]} == multiset{a, b}
            && FromBigEndian(c[..32]) <= FromBigEndian(c[32..])
  {
    hide LexLeq, FromBigEndian;
    LexIsNumeric(a, b);
    var c := Combined(a, b);
    assert (c[..32] == a && c[32..] == b) || (c[..32] == b && c[32..] == a);
  }

  /** The payload is the claimer and the amount, each behind its length, a single byte below 128. */
  lemma PayloadLayout(e: Entry)
    requires |e.claimer| < 128 && |e.amount| < 128
    ensures Payload(e) == [|e.claimer|] + e.claimer + [|e.amount|] + e.amount
  {
    assert Encode(|e.claimer|) == [|e.claimer|] && Encode(|e.amount|) == [|e.amount|];
  }

  // ---- building the tree level by level ----

  function NextLevel(sha: Sha, xs: seq<digest>): seq<digest> {
    if |xs| <= 1 then xs
    else [HashPair(sha, xs[0], xs[1])] + NextLevel(sha, xs[2..])
  }

  lemma {:induction false} NextLevelLength(sha: Sha, xs: seq<digest>)
    ensures |NextLevel(sha, xs)| == (|xs| + 1) / 2
  {
    if |xs| > 1 { NextLevelLength(sha, xs[2..]); }
  }

  function Levels(sha: Sha, xs: seq<digest>): (ls: seq<seq<digest>>)
    ensures |ls| > 0 && ls[0] == xs
    decreases |xs|
  {
    NextLevelLength(sha, xs);
    if |xs| <= 1 then [xs] else [xs] + Levels(sha, NextLevel(sha, xs))
  }

  function Root(sha: Sha, xs: seq<digest>): digest
    requires |xs| > 0
    decreases |xs|
  {
    NextLevelLength(sha, xs);
    if |xs| == 1 then xs[0] else Root(sha, NextLevel(sha, xs))
  }

  /** The inner loop of `buildTree`: one level from the one below it. */
  method BuildLevel(sha: Sha, current: seq<digest>) returns (next: seq<digest>)
    ensures next == NextLevel(sha, current)
  {
    hide HashPair;
    next := [];
    var i := 0;
    while i < |current|
      invariant 0 <= i <= |current| + 1
      invariant NextLevel(sha, current) == next + NextLevel(sha, if i < |current| then current[i..] else [])
    {
      ghost var rest := current[i..];
      if i + 1 == |current| {
        // Odd node: promoted unchanged.
        next := next + [current[i]];
      } else {
        assert i + 2 < |current| ==> rest[2..] == current[i + 2..];
        next := next + [HashPair(sha, current[i], current[i + 1])];
      }
      i := i + 2;
    }
  }

  /** `buildTree`: the root and the node list of every level. */
  method BuildTree(sha: Sha, leaves: seq<digest>) returns (root: digest, levels: seq<seq<digest>>)
    requires |leaves| > 0
    ensures root == Root(sha, leaves)
    ensures levels == Levels(sha, leaves)
  {
    hide NextLevel;
    if |leaves| == 1 { return leaves[0], [leaves]; }
    levels := [leaves];
    var current := leaves;
    ghost var done: seq<seq<digest>> := [];
    while |current| > 1
      invariant |current| > 0
      invariant Root(sha, leaves) == Root(sha, current)
      invariant levels == done + [current]
      invariant Levels(sha, leaves) == done + Levels(sha, current)
      decreases |current|
    {
      NextLevelLength(sha, current);
      var next := BuildLevel(sha, current);
      levels := levels + [next];
      done := done + [current];
      current := next;
    }
    return current[0], levels;
  }

  // ---- proofs ----

  function Sibling(index: nat): nat {
    if index % 2 == 0 then index + 1 else index - 1
  }

  /** The sibling on one level; a promoted node has none. */
  function SiblingAt(index: nat, nodes: seq<digest>): seq<digest> {
    if Sibling(index) < |nodes| then [nodes[Sibling(index)]] else []
  }

  function Proof(index: nat, levels: seq<seq<digest>>): seq<digest> {
    if |levels| <= 1 then []
    else SiblingAt(index, levels[0]) + Proof(index / 2, levels[1..])
  }

  lemma ProofStep(index: nat, levels: seq<seq<digest>>, level: nat)
    requires level < |levels| - 1
    ensures Proof(index, levels[level..]) == SiblingAt(index, levels[level]) + Proof(index / 2, levels[level + 1..])
  {
  }

  lemma ProofDone(index: nat, levels: seq<seq<digest>>)
    requires |levels| <= 1
    ensures Proof(index, levels) == []
  {
  }

  /** `proofFor`: the siblings on the way up. */
  method ProofFor(index: nat, levels: seq<seq<digest>>) returns (proof: seq<digest>)
    ensures proof == Proof(index, levels)
  {
    hide Proof;
    proof := [];
    var idx, level := index, 0;
    assert levels[0..] == levels;
    while level < |levels| - 1
      invariant 0 <= level && (level <= |levels| - 1 || level == 0)
      invariant Proof(index, levels) == proof + Proof(idx, levels[level..])
    {
      ProofStep(idx, levels, level);
      var nodes := levels[level];
      var sibling := if idx % 2 == 0 then idx + 1 else idx - 1;
      ghost var found, rest := SiblingAt(idx, nodes), Proof(idx / 2, levels[level + 1..]);
      assert proof + (found + rest) == (proof + found) + rest;
      if sibling < |nodes| {
        assert found == [nodes[sibling]];
        proof := proof + [nodes[sibling]];
      } else {
        assert proof + found == proof;
      }
      idx := idx / 2;
      level := level + 1;
    }
    ProofDone(idx, levels[level..]);
  }

  function Fold(sha: Sha, current: bytes, proof: seq<bytes>): bytes
    decreases |proof|
  {
    if proof == [] then current else Fold(sha, HashPair(sha, current, proof[0]), proof[1..])
  }

  /** The verifier's verdict, in one expression: every proof element is a digest and the leaf folds
      to the root. */
  predicate Verifies(sha: Sha, e: Entry, proof: seq<bytes>, root: bytes) {
    && root != []
    && (forall k :: 0 <= k < |proof| ==> |proof[k]| == HASH_SIZE)
    && Fold(sha, LeafHash(sha, e), proof) == root
  }

  /** What the chain hashes for a claim: the amount as it prints. */
  function ClaimEntry(claimer: bytes, amount: int): Entry {
    Entry(claimer, AmountText(amount))
  }

  /** `verifyMerkleClaim`. */
  method VerifyClaim(sha: Sha, claimer: bytes, amount: int, proof: seq<bytes>, root: bytes) returns (ok: bool)
    ensures ok == Verifies(sha, ClaimEntry(claimer, amount), proof, root)
  {
    hide LeafHash;
    if |root| == 0 { return false; }
    ghost var e := ClaimEntry(claimer, amount);
    var current: bytes := LeafHash(sha, Entry(claimer, AmountText(amount)));
    for i := 0 to |proof|
      invariant forall k :: 0 <= k < i ==> |proof[k]| == HASH_SIZE
      invariant Fold(sha, LeafHash(sha, e), proof) == Fold(sha, current, proof[i..])
    {
      var sibling := proof[i];
      if |sibling| != HASH_SIZE { return false; }
      assert proof[i..][1..] == proof[i + 1..];
      current := HashPair(sha, current, sibling);
    }
    return current == root;
  }

  // ---- completeness ----

  lemma {:induction false} NextLevelAt(sha: Sha, xs: seq<digest>, j: nat)
    requires 2 * j < |xs|
    ensures j < |NextLevel(sha, xs)|
    ensures NextLevel(sha, xs)[j] == if 2 * j + 1 < |xs| then HashPair(sha, xs[2 * j], xs[2 * j + 1]) else xs[2 * j]
    decreases j
  {
    NextLevelLength(sha, xs);
    if j > 0 { NextLevelAt(sha, xs[2..], j - 1); }
  }

  /** Every leaf's proof folds to the root, promoted nodes included. */
  lemma {:induction false} ProofFolds(sha: Sha, xs: seq<digest>, index: nat)
    requires index < |xs|
    ensures Fold(sha, xs[index], Proof(index, Levels(sha, xs))) == Root(sha, xs)
    decreases |xs|
  {
    if |xs| > 1 {
      var next, up := NextLevel(sha, xs), index / 2;
      NextLevelLength(sha, xs);
      LevelStep(sha, xs, index);
      assert Levels(sha, xs)[1..] == Levels(sha, next);
      hide NextLevel, HashPair, Levels, Sibling;
      ProofFolds(sha, next, up);
      var rest := Proof(up, Levels(sha, next));
      if Sibling(index) < |xs| {
        assert ([xs[Sibling(index)]] + rest)[1..] == rest;
      } else {
        assert [] + rest == rest;
      }
    }
  }

  /** One step up: the parent is the hash with the sibling, or the node itself when it has none. */
  lemma LevelStep(sha: Sha, xs: seq<digest>, index: nat)
    requires index < |xs|
    ensures index / 2 < |NextLevel(sha, xs)|
    ensures NextLevel(sha, xs)[index / 2]
         == if Sibling(index) < |xs| then HashPair(sha, xs[index], xs[Sibling(index)]) else xs[index]
  {
    hide Combined, NextLevel;
    NextLevelAt(sha, xs, index / 2);
    if Sibling(index) < |xs| { CombinedSymmetric(xs[index], xs[Sibling(index)]); }
  }

  /** A proof is no longer than the height of the tree: at most k elements for up to 2^k leaves. */
  lemma {:induction false} ProofLength(sha: Sha, xs: seq<digest>, index: nat, k: nat)
    requires 0 < |xs| <= Pow2(k)
    ensures |Proof(index, Levels(sha, xs))| <= k
    decreases |xs|
  {
    if |xs| > 1 {
      var next := NextLevel(sha, xs);
      NextLevelLength(sha, xs);
      assert Levels(sha, xs)[1..] == Levels(sha, next);
      ProofLength(sha, next, index / 2, k - 1);
    }
  }

  // ---- binding ----

  datatype Tree = Leaf(entry: Entry) | Node(left: Tree, right: Tree)

  function Hashed(sha: Sha, t: Tree): digest {
    match t
    case Leaf(e) => LeafHash(sha, e)
    case Node(l, r) => HashPair(sha, Hashed(sha, l), Hashed(sha, r))
  }

  function Members(t: Tree): set<Entry> {
    match t
    case Leaf(e) => {e}
    case Node(l, r) => Members(l) + Members(r)
  }

  function AllHashed(sha: Sha, ts: seq<Tree>): (xs: seq<digest>)
    ensures |xs| == |ts|
    ensures forall k :: 0 <= k < |ts| ==> xs[k] == Hashed(sha, ts[k])
  {
    seq(|ts|, k requires 0 <= k < |ts| => Hashed(sha, ts[k]))
  }

  function AllMembers(ts: seq<Tree>): set<Entry> {
    if ts == [] then {} else Members(ts[0]) + AllMembers(ts[1..])
  }

  function Paired(ts: seq<Tree>): seq<Tree> {
    if |ts| <= 1 then ts else [Node(ts[0], ts[1])] + Paired(ts[2..])
  }

  lemma {:induction false} PairedHashes(sha: Sha, ts: seq<Tree>)
    ensures AllHashed(sha, Paired(ts)) == NextLevel(sha, AllHashed(sha, ts))
    ensures AllMembers(Paired(ts)) == AllMembers(ts)
    ensures |Paired(ts)| == (|ts| + 1) / 2
  {
    hide AllHashed, HashPair;
    if |ts| > 1 {
      PairedHashes(sha, ts[2..]);
      assert ts[1..][1..] == ts[2..];
      assert AllHashed(sha, ts)[2..] == AllHashed(sha, ts[2..]);
      assert Paired(ts)[1..] == Paired(ts[2..]);
      assert AllHashed(sha, Paired(ts)) == [Hashed(sha, Paired(ts)[0])] + AllHashed(sha, Paired(ts[2..]));
    } else {
      assert AllHashed(sha, ts) == AllHashed(sha, Paired(ts));
    }
  }

  /** The levels the builder computes are the levels of one binary tree over the same entries. */
  lemma {:induction false} RootTree(sha: Sha, ts: seq<Tree>) returns (t: Tree)
    requires |ts| > 0
    ensures Hashed(sha, t) == Root(sha, AllHashed(sha, ts))
    ensures Members(t) == AllMembers(ts)
    decreases |ts|
  {
    hide AllHashed;
    if |ts| == 1 {
      t := ts[0];
      assert ts[1..] == [];
    } else {
      PairedHashes(sha, ts);
      t := RootTree(sha, Paired(ts));
    }
  }

  lemma {:induction false} FoldLast(sha: Sha, current: bytes, proof: seq<bytes>)
    requires |proof| > 0
    ensures var n := |proof| - 1;
            Fold(sha, current, proof) == HashPair(sha, Fold(sha, current, proof[..n]), proof[n])
    decreases |proof|
  {
    var n := |proof| - 1;
    if n > 0 {
      FoldLast(sha, HashPair(sha, current, proof[0]), proof[1..]);
      assert proof[1..][..n - 1] == proof[..n][1..];
    }
  }

  lemma {:induction false} FoldIsDigest(sha: Sha, current: digest, proof: seq<bytes>)
    ensures |Fold(sha, current, proof)| == HASH_SIZE
    decreases |proof|
  {
    if proof != [] { FoldIsDigest(sha, HashPair(sha, current, proof[0]), proof[1..]); }
  }

  /** Two entries with the same leaf hash are the same entry, or the double hash gives a collision. */
  lemma LeafBinds(sha: Sha, e: Entry, f: Entry) returns (x: bytes, y: bytes)
    requires LeafHash(sha, e) == LeafHash(sha, f)
    ensures e == f || Collision(sha, x, y)
  {
    if sha(Payload(e)) != sha(Payload(f)) {
      x, y := sha(Payload(e)), sha(Payload(f));
    } else {
      x, y := Payload(e), Payload(f);
      if x == y { PayloadInjective(e, f); }
    }
  }

  /** Whatever folds to the hash of a tree is one of the tree's entries, or a collision can be read
      off: a leaf hashes 32 bytes and an inner node 64, so the two never agree by accident. */
  lemma {:induction false} TreeBinds(sha: Sha, t: Tree, e: Entry, proof: seq<bytes>) returns (x: bytes, y: bytes)
    requires forall k :: 0 <= k < |proof| ==> |proof[k]| == HASH_SIZE
    requires Fold(sha, LeafHash(sha, e), proof) == Hashed(sha, t)
    ensures e in Members(t) || Collision(sha, x, y)
    decreases t
  {
    if proof == [] {
      if t.Leaf? {
        x, y := LeafBinds(sha, e, t.entry);
      } else {
        x, y := sha(Payload(e)), Combined(Hashed(sha, t.left), Hashed(sha, t.right));
      }
    } else {
      var n := |proof| - 1;
      var below := Fold(sha, LeafHash(sha, e), proof[..n]);
      FoldLast(sha, LeafHash(sha, e), proof);
      FoldIsDigest(sha, LeafHash(sha, e), proof[..n]);
      x := Combined(below, proof[n]);
      if t.Leaf? {
        y := sha(Payload(t.entry));
      } else {
        y := Combined(Hashed(sha, t.left), Hashed(sha, t.right));
        if x == y {
          CombinedDetermines(below, proof[n], Hashed(sha, t.left), Hashed(sha, t.right));
          x, y := TreeBinds(sha, if below == Hashed(sha, t.left) then t.left else t.right, e, proof[..n]);
        }
      }
    }
  }

  function LeafHashes(sha: Sha, entries: seq<Entry>): (xs: seq<digest>)
    ensures |xs| == |entries|
    ensures forall k :: 0 <= k < |entries| ==> xs[k] == LeafHash(sha, entries[k])
  {
    seq(|entries|, k requires 0 <= k < |entries| => LeafHash(sha, entries[k]))
  }

  function SnapshotRoot(sha: Sha, entries: seq<Entry>): digest
    requires |entries| > 0
  {
    Root(sha, LeafHashes(sha, entries))
  }

  function LeafTrees(entries: seq<Entry>): (ts: seq<Tree>)
    ensures |ts| == |entries|
    ensures forall k :: 0 <= k < |entries| ==> ts[k] == Leaf(entries[k])
  {
    seq(|entries|, k requires 0 <= k < |entries| => Leaf(entries[k]))
  }

  lemma {:induction false} LeafTreesMembers(entries: seq<Entry>)
    ensures AllMembers(LeafTrees(entries)) == set e | e in entries
  {
    hide LeafTrees;
    if entries != [] {
      LeafTreesMembers(entries[1..]);
      assert LeafTrees(entries)[1..] == LeafTrees(entries[1..]);
      assert entries == [entries[0]] + entries[1..];
    }
  }

  /** Soundness of the airdrop: a claim the verifier accepts against the published root is an entry
      of the snapshot, unless it hands over two inputs with the same SHA-256. */
  lemma ClaimBinding(sha: Sha, entries: seq<Entry>, e: Entry, proof: seq<bytes>) returns (x: bytes, y: bytes)
    requires |entries| > 0
    requires Verifies(sha, e, proof, SnapshotRoot(sha, entries))
    ensures e in entries || Collision(sha, x, y)
  {
    var ts := LeafTrees(entries);
    assert AllHashed(sha, ts) == LeafHashes(sha, entries);
    LeafTreesMembers(entries);
    var t := RootTree(sha, ts);
    x, y := TreeBinds(sha, t, e, proof);
  }

  /** One proof leads from different leaves to different roots, or to a collision on the way. */
  lemma {:induction false} FoldInjective(sha: Sha, a: digest, b: digest, proof: seq<bytes>) returns (x: bytes, y: bytes)
    requires forall k :: 0 <= k < |proof| ==> |proof[k]| == HASH_SIZE
    requires Fold(sha, a, proof) == Fold(sha, b, proof)
    ensures a == b || Collision(sha, x, y)
    decreases |proof|
  {
    hide Combined;
    x, y := [], [];
    if proof != [] {
      x, y := Combined(a, proof[0]), Combined(b, proof[0]);
      if x == y {
        CombinedDetermines(a, proof[0], b, proof[0]);
      } else if sha(x) != sha(y) {
        x, y := FoldInjective(sha, HashPair(sha, a, proof[0]), HashPair(sha, b, proof[0]), proof[1..]);
      }
    }
  }

  /** The proof the builder writes for entry i. */
  function WrittenProof(sha: Sha, entries: seq<Entry>, i: nat): seq<digest> {
    Proof(i, Levels(sha, LeafHashes(sha, entries)))
  }

  /** Completeness of the airdrop, exactly: with the proof written for entry i the chain accepts the
      amount the entry spells as the chain prints it, and no other amount without a collision. */
  lemma ClaimCompleteness(sha: Sha, entries: seq<Entry>, i: nat, amount: int) returns (x: bytes, y: bytes)
    requires i < |entries|
    ensures var e, proof := ClaimEntry(entries[i].claimer, amount), WrittenProof(sha, entries, i);
            var accepted := Verifies(sha, e, proof, SnapshotRoot(sha, entries));
            && (entries[i].amount == AmountText(amount) ==> accepted)
            && (accepted ==> entries[i].amount == AmountText(amount) || Collision(sha, x, y))
  {
    hide AmountText, LeafHash, Proof, Levels;
    x, y := [], [];
    var e, proof := ClaimEntry(entries[i].claimer, amount), WrittenProof(sha, entries, i);
    ProofFolds(sha, LeafHashes(sha, entries), i);
    if Verifies(sha, e, proof, SnapshotRoot(sha, entries)) {
      x, y := FoldInjective(sha, LeafHash(sha, e), LeafHash(sha, entries[i]), proof);
      if !Collision(sha, x, y) { x, y := LeafBinds(sha, e, entries[i]); }
    }
  }

  /** Against the root of a single entry no proof with elements in it verifies, or it shows a collision. */
  lemma SingleEntryRefuses(sha: Sha, entries: seq<Entry>, e: Entry, proof: seq<bytes>) returns (x: bytes, y: bytes)
    requires |entries| == 1 && proof != []
    ensures Verifies(sha, e, proof, SnapshotRoot(sha, entries)) ==> Collision(sha, x, y)
  {
    var n := |proof| - 1;
    var below := Fold(sha, LeafHash(sha, e), proof[..n]);
    FoldLast(sha, LeafHash(sha, e), proof);
    FoldIsDigest(sha, LeafHash(sha, e), proof[..n]);
    x, y := Combined(below, proof[n]), sha(Payload(entries[0]));
  }
}
