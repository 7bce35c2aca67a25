/**
 The Merkle aggregate over proof commitments: the level-by-level builder that duplicates the
 last node of an odd level, the inclusion-path builder and the inclusion verifier.
 SHA-256 is any function with 32-byte results; where a property rests on it, the lemma hands
 back two different inputs with the same digest instead.
 */
module MerkleRecursion {
  import opened Digests
  import opened Numerals
  import opened Wrappers
  import opened Hex

  const SCHEME := "merkle-recursion-v1"

  datatype Aggregate = Aggregate(scheme: string, count: int, treeHeight: int, rootHex: string)

  datatype InclusionProof = InclusionProof(leafIndex: int, leafHex: string, path: seq<string>, positions: seq<bool>)

  datatype Error =
    | EmptyLeafList
    | EmptyLeaf(index: nat)
    | UnsupportedScheme
    | PathLengthMismatch
    | PositionsLengthMismatch
    | LeafIndexOutOfRange
    | BadLeafHex
    | BadPathHex(index: nat)
    | RootMismatch

  // ---- the specification tree ----

  function LeafDigest(sha: Sha256, leaf: Bytes): Digest {
    sha([0] + leaf)
  }

  function NodeDigest(sha: Sha256, left: Digest, right: Digest): Digest {
    sha([1] + left + right)
  }

  function Clamp(i: nat, n: nat): nat
    requires n > 0
  {
    if i < n then i else n - 1
  }

  /** Half the level, rounded up: node i is over children 2i and 2i+1, the latter clamped to the last real node. */
  function NextLevel(sha: Sha256, level: seq<Digest>): (next: seq<Digest>)
    requires |level| > 0
    ensures |next| == (|level| + 1) / 2
  {
    seq((|level| + 1) / 2, i requires 0 <= i < (|level| + 1) / 2 =>
      NodeDigest(sha, level[2 * i], level[Clamp(2 * i + 1, |level|)]))
  }

  function Root(sha: Sha256, level: seq<Digest>): Digest
    requires |level| > 0
    decreases |level|
  {
    if |level| == 1 then level[0] else Root(sha, NextLevel(sha, level))
  }

  function Height(n: nat): nat {
    if n <= 1 then 0 else 1 + Height((n + 1) / 2)
  }

  /**
   The leaf of an n-leaf tree that a bottom-up list of left/right turns leads to: walk down from the
   root, and where an odd level's duplicate is entered, stay on the node it duplicates.
   */
  function Walk(n: nat, turns: seq<bool>): (leaf: nat)
    requires n > 0 && |turns| == Height(n)
    ensures leaf < n
    decreases n
  {
    if n == 1 then 0
    else Clamp(2 * Walk((n + 1) / 2, turns[1..]) + (if turns[0] then 1 else 0), n)
  }

  /** The other child of the parent that the walk passes through. */
  function SiblingOf(level: seq<Digest>, turns: seq<bool>): Digest
    requires |level| > 1 && |turns| == Height(|level|)
  {
    level[Clamp(2 * Walk((|level| + 1) / 2, turns[1..]) + (if turns[0] then 0 else 1), |level|)]
  }

  /** The sibling digests met on that walk, bottom-up. */
  function Siblings(sha: Sha256, level: seq<Digest>, turns: seq<bool>): (path: seq<Digest>)
    requires |level| > 0 && |turns| == Height(|level|)
    ensures |path| == |turns|
    decreases |level|
  {
    if |level| == 1 then [] else
      [SiblingOf(level, turns)] + Siblings(sha, NextLevel(sha, level), turns[1..])
  }

  /** The root a verifier recomputes from a leaf digest, the siblings and the turns. */
  function Fold(sha: Sha256, acc: Digest, path: seq<Digest>, turns: seq<bool>): Digest
    requires |path| == |turns|
    decreases |path|
  {
    if path == [] then acc else
      Fold(sha, if turns[0] then NodeDigest(sha, path[0], acc) else NodeDigest(sha, acc, path[0]),
           path[1..], turns[1..])
  }

  /** The turns from leaf i up: right at a level exactly when i's ancestor there is a right child. */
  function TurnsOf(n: nat, i: nat): (turns: seq<bool>)
    requires i < n
    ensures |turns| == Height(n)
  {
    if n == 1 then [] else [i % 2 == 1] + TurnsOf((n + 1) / 2, i / 2)
  }

  // ---- what the tree guarantees ----

  /** The children a walk chooses between at one level. */
  lemma WalkStep(sha: Sha256, level: seq<Digest>, turns: seq<bool>)
    requires |level| > 1 && |turns| == Height(|level|)
    ensures |turns[1..]| == Height(|NextLevel(sha, level)|)
    ensures var parent := Walk(|NextLevel(sha, level)|, turns[1..]);
            && 2 * parent < |level|
            && level[Walk(|level|, turns)]
               == (if turns[0] then level[Clamp(2 * parent + 1, |level|)] else level[2 * parent])
            && NextLevel(sha, level)[parent]
               == NodeDigest(sha, level[2 * parent], level[Clamp(2 * parent + 1, |level|)])
  {
  }

  lemma RootStep(sha: Sha256, level: seq<Digest>, turns: seq<bool>)
    requires |level| > 1 && |turns| == Height(|level|)
    ensures Root(sha, level) == Root(sha, NextLevel(sha, level)) && |turns| > 0
  {
  }

  lemma SiblingIs(sha: Sha256, level: seq<Digest>, turns: seq<bool>)
    requires |level| > 1 && |turns| == Height(|level|) > 0 && |turns[1..]| == Height(|NextLevel(sha, level)|)
    ensures var parent := Walk(|NextLevel(sha, level)|, turns[1..]);
            2 * parent < |level| ==>
              SiblingOf(level, turns)
              == (if turns[0] then level[2 * parent] else level[Clamp(2 * parent + 1, |level|)])
  {
    hide NodeDigest, Walk, Height;
  }

  lemma SiblingsStep(sha: Sha256, level: seq<Digest>, turns: seq<bool>)
    requires |level| > 1 && |turns| == Height(|level|)
    ensures |turns[1..]| == Height(|NextLevel(sha, level)|)
    ensures var path, parent := Siblings(sha, level, turns), Walk(|NextLevel(sha, level)|, turns[1..]);
            && 2 * parent < |level|
            && path[0] == (if turns[0] then level[2 * parent] else level[Clamp(2 * parent + 1, |level|)])
            && path[1..] == Siblings(sha, NextLevel(sha, level), turns[1..])
  {
    hide NodeDigest, Root, Fold, Siblings, Walk, Height, NextLevel, SiblingOf;
    WalkStep(sha, level, turns);
    SiblingsUnfold(sha, level, turns);
    SiblingIs(sha, level, turns);
  }

  lemma FoldStep(sha: Sha256, acc: Digest, path: seq<Digest>, turns: seq<bool>)
    requires |path| == |turns| > 0
    ensures Fold(sha, acc, path, turns)
            == Fold(sha, if turns[0] then NodeDigest(sha, path[0], acc) else NodeDigest(sha, acc, path[0]),
                    path[1..], turns[1..])
  {
  }

  /** Every walk's leaf folds up to the root: completeness, walks into duplicated nodes included. */
  lemma {:induction false} WalkFoldsToRoot(sha: Sha256, level: seq<Digest>, turns: seq<bool>)
    requires |level| > 0 && |turns| == Height(|level|)
    ensures Fold(sha, level[Walk(|level|, turns)], Siblings(sha, level, turns), turns) == Root(sha, level)
    decreases |level|
  {
    if |level| > 1 {
      RootStep(sha, level, turns);
      SiblingsStep(sha, level, turns);
      hide Fold, Walk, Root, Height, NextLevel, NodeDigest, Siblings, SiblingOf;
      WalkStep(sha, level, turns);
      FoldStep(sha, level[Walk(|level|, turns)], Siblings(sha, level, turns), turns);
      WalkFoldsToRoot(sha, NextLevel(sha, level), turns[1..]);
    }
  }

  /** Equal node digests have equal children, or their two inputs collide. */
  lemma NodeOpens(sha: Sha256, l: Digest, r: Digest, l': Digest, r': Digest) returns (a: Bytes, b: Bytes)
    requires NodeDigest(sha, l, r) == NodeDigest(sha, l', r')
    ensures (l == l' && r == r') || Collision(sha, a, b)
  {
    a, b := [1] + l + r, [1] + l' + r';
    assert l == a[1..33] && r == a[33..] && l' == b[1..33] && r' == b[33..];
  }

  /** Whatever folds up to the root is the leaf its turns walk to, or two colliding inputs come out. */
  lemma {:induction false} FoldSound(sha: Sha256, level: seq<Digest>, acc: Digest, path: seq<Digest>, turns: seq<bool>)
    returns (a: Bytes, b: Bytes)
    requires |level| > 0 && |path| == |turns| == Height(|level|)
    requires Fold(sha, acc, path, turns) == Root(sha, level)
    ensures acc == level[Walk(|level|, turns)] || Collision(sha, a, b)
    decreases |level|
  {
    a, b := [], [];
    if |level| > 1 {
      var next := NextLevel(sha, level);
      assert Root(sha, level) == Root(sha, next) && |turns| > 0;
      hide Fold, Walk, Root, Height, NextLevel, Collision, NodeDigest;
      WalkStep(sha, level, turns);
      FoldStep(sha, acc, path, turns);
      var parent := Walk(|next|, turns[1..]);
      var left, right := if turns[0] then path[0] else acc, if turns[0] then acc else path[0];
      a, b := FoldSound(sha, next, NodeDigest(sha, left, right), path[1..], turns[1..]);
      if !Collision(sha, a, b) {
        a, b := NodeOpens(sha, left, right, level[2 * parent], level[Clamp(2 * parent + 1, |level|)]);
      }
    }
  }

  lemma {:induction false} WalkOfTurns(n: nat, i: nat)
    requires i < n
    ensures Walk(n, TurnsOf(n, i)) == i
  {
    if n > 1 {
      WalkOfTurns((n + 1) / 2, i / 2);
    }
  }

  predicate Bit(i: nat, k: nat) {
    i / Pow2(k) % 2 == 1
  }

  lemma HalveTwice(i: nat, p: nat)
    requires p > 0
    ensures i / 2 / p == i / (2 * p)
  {
    var q := i / (2 * p);
    var r := i % (2 * p);
    assert i == 2 * (p * q) + r && 0 <= r < 2 * p;
    assert i / 2 == q * p + r / 2;
    var d := i / 2 / p - q;
    assert i / 2 == (i / 2 / p) * p + i / 2 % p;
    assert d * p == r / 2 - i / 2 % p;
    MultipleIsLarge(d, p);
  }

  /** Turn k of leaf i is bit k of i. */
  lemma {:induction false} TurnsAreBits(n: nat, i: nat, k: nat)
    requires i < n && k < Height(n)
    ensures TurnsOf(n, i)[k] == Bit(i, k)
  {
    if k > 0 {
      TurnsAreBits((n + 1) / 2, i / 2, k - 1);
      HalveTwice(i, Pow2(k - 1));
    }
  }

  /** The height is the binary logarithm of the leaf count, rounded up. */
  lemma {:induction false} HeightIsCeilLog2(n: nat)
    requires n > 0
    ensures n <= Pow2(Height(n))
    ensures n > 1 ==> Pow2(Height(n) - 1) < n
  {
    if n > 1 {
      HeightIsCeilLog2((n + 1) / 2);
    }
  }

  // ---- aggregates over caller-supplied leaves ----

  function LeafLevel(sha: Sha256, leaves: seq<Bytes>): (level: seq<Digest>)
    ensures |level| == |leaves|
  {
    seq(|leaves|, i requires 0 <= i < |leaves| => LeafDigest(sha, leaves[i]))
  }

  function AggregateOf(sha: Sha256, leaves: seq<Bytes>): Aggregate
    requires leaves != []
  {
    Aggregate(SCHEME, |leaves|, Height(|leaves|), HexEncode(Root(sha, LeafLevel(sha, leaves))))
  }

  function HexAll(path: seq<Digest>): seq<string> {
    seq(|path|, i requires 0 <= i < |path| => HexEncode(path[i]))
  }

  function ProofOf(sha: Sha256, leaves: seq<Bytes>, i: nat): InclusionProof
    requires i < |leaves|
  {
    var turns := TurnsOf(|leaves|, i);
    InclusionProof(i, HexEncode(LeafDigest(sha, leaves[i])),
                   HexAll(Siblings(sha, LeafLevel(sha, leaves), turns)), turns)
  }

  predicate IsDigestHex(s: string) {
    HexDecode(s).Some? && |HexDecode(s).value| == 32
  }

  function DecodeDigest(s: string): Digest
    requires IsDigestHex(s)
  {
    HexDecode(s).value
  }

  function DecodePath(path: seq<string>): (p: seq<Digest>)
    requires forall i :: 0 <= i < |path| ==> IsDigestHex(path[i])
    ensures |p| == |path|
  {
    seq(|path|, i requires 0 <= i < |path| => DecodeDigest(path[i]))
  }

  /** What the verifier accepts. */
  predicate Accepts(sha: Sha256, agg: Aggregate, proof: InclusionProof) {
    && agg.scheme == SCHEME
    && agg.treeHeight == |proof.path| == |proof.positions|
    && 0 <= proof.leafIndex < agg.count
    && IsDigestHex(proof.leafHex)
    && (forall i :: 0 <= i < |proof.path| ==> IsDigestHex(proof.path[i]))
    && HexEncode(Fold(sha, DecodeDigest(proof.leafHex), DecodePath(proof.path), proof.positions)) == agg.rootHex
  }

  /** Completeness: the built proof of every index of every leaf list is accepted. */
  lemma BuiltProofAccepted(sha: Sha256, leaves: seq<Bytes>, i: nat)
    requires i < |leaves|
    ensures Accepts(sha, AggregateOf(sha, leaves), ProofOf(sha, leaves, i))
    ensures |ProofOf(sha, leaves, i).path| == AggregateOf(sha, leaves).treeHeight
  {
    var level := LeafLevel(sha, leaves);
    var turns := TurnsOf(|leaves|, i);
    var path := Siblings(sha, level, turns);
    WalkOfTurns(|leaves|, i);
    WalkFoldsToRoot(sha, level, turns);
    DecodeEncode(level[i]);
    forall k | 0 <= k < |path| ensures HexDecode(HexAll(path)[k]) == Some(path[k]) {
      DecodeEncode(path[k]);
    }
    assert DecodePath(HexAll(path)) == path;
  }

  /**
   Soundness: an accepted proof's leaf digest is the tagged digest of the leaf its positions walk
   to, or two colliding inputs come out.
   */
  lemma InclusionSound(sha: Sha256, leaves: seq<Bytes>, proof: InclusionProof) returns (a: Bytes, b: Bytes)
    requires leaves != [] && Accepts(sha, AggregateOf(sha, leaves), proof)
    ensures DecodeDigest(proof.leafHex) == LeafDigest(sha, leaves[Walk(|leaves|, proof.positions)])
            || Collision(sha, a, b)
  {
    var level := LeafLevel(sha, leaves);
    var acc, path := DecodeDigest(proof.leafHex), DecodePath(proof.path);
    HexInjective(Fold(sha, acc, path, proof.positions), Root(sha, level));
    a, b := FoldSound(sha, level, acc, path, proof.positions);
  }

  /** If moreover the positions spell the claimed index in binary, the walk ends at that index. */
  lemma HonestPositionsNameTheLeaf(n: nat, turns: seq<bool>, i: nat)
    requires i < n && |turns| == Height(n)
    ensures (forall k :: 0 <= k < |turns| ==> turns[k] == Bit(i, k)) ==> Walk(n, turns) == i
  {
    if forall k :: 0 <= k < |turns| ==> turns[k] == Bit(i, k) {
      forall k | 0 <= k < |turns| ensures turns[k] == TurnsOf(n, i)[k] {
        TurnsAreBits(n, i, k);
      }
      assert turns == TurnsOf(n, i);
      WalkOfTurns(n, i);
    }
  }

  /**
   The verifier's comment promises membership "at leafIndex", but the index is only range-checked:
   relabelling an accepted proof with any other index in range leaves it accepted. So the index is
   right exactly when it is where the positions lead.
   */
  lemma LeafIndexOnlyRangeChecked(sha: Sha256, agg: Aggregate, proof: InclusionProof, other: int)
    requires Accepts(sha, agg, proof)
    ensures Accepts(sha, agg, proof.(leafIndex := other)) <==> 0 <= other < agg.count
  {
  }

  /** The proof whose positions are the given turns, for whichever leaf they walk to, labelled with index i. */
  function WalkProof(sha: Sha256, leaves: seq<Bytes>, turns: seq<bool>, i: nat): InclusionProof
    requires leaves != [] && |turns| == Height(|leaves|)
  {
    var level := LeafLevel(sha, leaves);
    InclusionProof(i, HexEncode(level[Walk(|leaves|, turns)]), HexAll(Siblings(sha, level, turns)), turns)
  }

  /** The verifier accepts every list of positions under every index in range. */
  lemma EveryWalkAccepted(sha: Sha256, leaves: seq<Bytes>, turns: seq<bool>, i: nat)
    requires leaves != [] && |turns| == Height(|leaves|) && i < |leaves|
    ensures Accepts(sha, AggregateOf(sha, leaves), WalkProof(sha, leaves, turns, i))
    ensures DecodeDigest(WalkProof(sha, leaves, turns, i).leafHex) == LeafDigest(sha, leaves[Walk(|leaves|, turns)])
  {
    var level := LeafLevel(sha, leaves);
    var path := Siblings(sha, level, turns);
    WalkFoldsToRoot(sha, level, turns);
    DecodeEncode(level[Walk(|leaves|, turns)]);
    forall k | 0 <= k < |path| ensures HexDecode(HexAll(path)[k]) == Some(path[k]) {
      DecodeEncode(path[k]);
    }
    assert DecodePath(HexAll(path)) == path;
  }

  predicate PairwiseDifferent(leaves: seq<Bytes>) {
    forall i, j :: 0 <= i < j < |leaves| ==> leaves[i] != leaves[j]
  }

  /** What a caller of the verifier can compute: the index its positions lead to in a tree of that count. */
  predicate PositionsNameIndex(agg: Aggregate, proof: InclusionProof) {
    agg.count > 0 && |proof.positions| == Height(agg.count) && Walk(agg.count, proof.positions) == proof.leafIndex
  }

  /**
   The documented claim "the leaf is proved to be at leafIndex". It holds of every accepted proof whose
   positions lead to leafIndex; and where the leaves are pairwise different it holds of no other
   accepted proof - or two colliding inputs come out. Both sides of the condition are the caller's.
   */
  lemma InclusionAtIndexIff(sha: Sha256, leaves: seq<Bytes>, proof: InclusionProof) returns (a: Bytes, b: Bytes)
    requires leaves != [] && Accepts(sha, AggregateOf(sha, leaves), proof)
    ensures PositionsNameIndex(AggregateOf(sha, leaves), proof) ==>
              DecodeDigest(proof.leafHex) == LeafDigest(sha, leaves[proof.leafIndex]) || Collision(sha, a, b)
    ensures PairwiseDifferent(leaves) && DecodeDigest(proof.leafHex) == LeafDigest(sha, leaves[proof.leafIndex]) ==>
              PositionsNameIndex(AggregateOf(sha, leaves), proof) || Collision(sha, a, b)
  {
    a, b := InclusionSound(sha, leaves, proof);
    var x, y := leaves[Walk(|leaves|, proof.positions)], leaves[proof.leafIndex];
    if !Collision(sha, a, b) && x != y {
      a, b := [0] + x, [0] + y;
      assert a[1..] == x && b[1..] == y;
    }
  }

  /**
   The condition is needed at every size: for every list of pairwise different leaves, every list of
   positions that leads elsewhere and every index in range, there is an accepted proof with those
   positions and that index that does not show the leaf at it - or a collision comes out.
   */
  lemma WrongIndexAccepted(sha: Sha256, leaves: seq<Bytes>, turns: seq<bool>, i: nat)
    returns (proof: InclusionProof, a: Bytes, b: Bytes)
    requires PairwiseDifferent(leaves) && i < |leaves| && |turns| == Height(|leaves|) && Walk(|leaves|, turns) != i
    ensures Accepts(sha, AggregateOf(sha, leaves), proof) && proof.positions == turns && proof.leafIndex == i
    ensures DecodeDigest(proof.leafHex) != LeafDigest(sha, leaves[i]) || Collision(sha, a, b)
  {
    proof := WalkProof(sha, leaves, turns, i);
    EveryWalkAccepted(sha, leaves, turns, i);
    a, b := [0] + leaves[Walk(|leaves|, turns)], [0] + leaves[i];
    assert a[1..] == leaves[Walk(|leaves|, turns)] && b[1..] == leaves[i];
  }

  lemma RelabelledProof(sha: Sha256, x: Bytes, y: Bytes)
    requires x != [] && y != []
    ensures var agg := AggregateOf(sha, [x, y]);
            var proof := ProofOf(sha, [x, y], 0).(leafIndex := 1);
            Accepts(sha, agg, proof) && Walk(2, proof.positions) != proof.leafIndex
  {
    BuiltProofAccepted(sha, [x, y], 0);
    LeafIndexOnlyRangeChecked(sha, AggregateOf(sha, [x, y]), ProofOf(sha, [x, y], 0), 1);
    WalkOfTurns(2, 0);
  }

  // ---- binding ----

  /** The two lists agree wherever the same turns lead: they are equal once padded to a full tree. */
  ghost predicate SamePadding(a: seq<Digest>, b: seq<Digest>)
    requires |a| > 0 && |b| > 0 && Height(|a|) == Height(|b|)
  {
    forall turns: seq<bool> :: |turns| == Height(|a|) ==> a[Walk(|a|, turns)] == b[Walk(|b|, turns)]
  }

  lemma ChildrenOf(sha: Sha256, a: seq<Digest>, turns: seq<bool>)
    requires |a| > 1 && |turns| + 1 == Height(|a|)
    ensures var next := NextLevel(sha, a);
            next[Walk(|next|, turns)]
            == NodeDigest(sha, a[Walk(|a|, [false] + turns)], a[Walk(|a|, [true] + turns)])
  {
    assert ([false] + turns)[1..] == turns && ([true] + turns)[1..] == turns;
    WalkStep(sha, a, [false] + turns);
    WalkStep(sha, a, [true] + turns);
    hide *;
  }

  lemma {:induction false} SamePaddingSameRoot(sha: Sha256, a: seq<Digest>, b: seq<Digest>)
    requires |a| > 0 && |b| > 0 && Height(|a|) == Height(|b|) && SamePadding(a, b)
    ensures Root(sha, a) == Root(sha, b)
    decreases |a|
  {
    if |a| == 1 {
      assert a[Walk(1, [])] == b[Walk(1, [])];
    } else {
      var a', b' := NextLevel(sha, a), NextLevel(sha, b);
      forall turns: seq<bool> | |turns| == Height(|a'|) ensures a'[Walk(|a'|, turns)] == b'[Walk(|b'|, turns)] {
        hide Walk, NextLevel, NodeDigest;
        ChildrenOf(sha, a, turns);
        ChildrenOf(sha, b, turns);
        var l, r := [false] + turns, [true] + turns;
        assert a[Walk(|a|, l)] == b[Walk(|b|, l)] && a[Walk(|a|, r)] == b[Walk(|b|, r)];
      }
      SamePaddingSameRoot(sha, a', b');
    }
  }

  /** Equal roots at equal height force the same leaf under the same turns, or a collision comes out. */
  lemma SameRootSameLeaf(sha: Sha256, a: seq<Digest>, b: seq<Digest>, turns: seq<bool>) returns (x: Bytes, y: Bytes)
    requires |a| > 0 && |b| > 0 && |turns| == Height(|a|) == Height(|b|)
    requires Root(sha, a) == Root(sha, b)
    ensures a[Walk(|a|, turns)] == b[Walk(|b|, turns)] || Collision(sha, x, y)
  {
    WalkFoldsToRoot(sha, b, turns);
    x, y := FoldSound(sha, a, b[Walk(|b|, turns)], Siblings(sha, b, turns), turns);
  }

  /** Binding, one position at a time: equal counts and equal roots give equal leaves or a collision. */
  lemma BindingAt(sha: Sha256, p: seq<Bytes>, q: seq<Bytes>, i: nat) returns (x: Bytes, y: Bytes)
    requires i < |p| == |q| && AggregateOf(sha, p).rootHex == AggregateOf(sha, q).rootHex
    ensures p[i] == q[i] || Collision(sha, x, y)
  {
    var a, b := LeafLevel(sha, p), LeafLevel(sha, q);
    HexInjective(Root(sha, a), Root(sha, b));
    WalkOfTurns(|p|, i);
    x, y := SameRootSameLeaf(sha, a, b, TurnsOf(|p|, i));
    if !Collision(sha, x, y) && p[i] != q[i] {
      x, y := [0] + p[i], [0] + q[i];
      assert x[1..] == p[i] && y[1..] == q[i];
    }
  }

  /** Binding: leaf lists with the same count and root are equal, or a collision comes out. */
  lemma Binding(sha: Sha256, p: seq<Bytes>, q: seq<Bytes>) returns (x: Bytes, y: Bytes)
    requires p != [] && q != [] && AggregateOf(sha, p) == AggregateOf(sha, q)
    ensures p == q || Collision(sha, x, y)
  {
    x, y := [], [];
    if p != q {
      var i :| 0 <= i < |p| && p[i] != q[i];
      x, y := BindingAt(sha, p, q, i);
    }
  }

  // ---- what a root alone fixes ----

  /** The level d steps above. */
  function LevelUp(sha: Sha256, level: seq<Digest>, d: nat): (up: seq<Digest>)
    requires |level| > 0 && d <= Height(|level|)
    ensures |up| > 0 && Height(|up|) == Height(|level|) - d
    decreases d
  {
    if d == 0 then level else LevelUp(sha, NextLevel(sha, level), d - 1)
  }

  lemma LevelUpNone(sha: Sha256, level: seq<Digest>)
    requires |level| > 0
    ensures LevelUp(sha, level, 0) == level
  {
  }

  lemma LevelUpStep(sha: Sha256, level: seq<Digest>, d: nat)
    requires |level| > 0 && 0 < d <= Height(|level|)
    ensures |level| > 1 && d - 1 <= Height(|NextLevel(sha, level)|)
    ensures LevelUp(sha, level, d) == LevelUp(sha, NextLevel(sha, level), d - 1)
  {
    hide NodeDigest;
  }

  lemma RootUp(sha: Sha256, level: seq<Digest>)
    requires |level| > 1
    ensures Root(sha, level) == Root(sha, NextLevel(sha, level))
  {
    hide NextLevel;
  }

  lemma {:induction false} LevelUpRoot(sha: Sha256, level: seq<Digest>, d: nat)
    requires |level| > 0 && d <= Height(|level|)
    ensures Root(sha, LevelUp(sha, level, d)) == Root(sha, level)
    decreases d
  {
    hide *;
    if d == 0 {
      LevelUpNone(sha, level);
    } else {
      LevelUpStep(sha, level, d);
      RootUp(sha, level);
      LevelUpRoot(sha, NextLevel(sha, level), d - 1);
    }
  }

  // ---- the tree from the top down ----

  /** How many nodes the level h above n leaves has: n halved h times, rounded up. */
  function Width(n: nat, h: nat): (w: nat)
    ensures n > 0 ==> w > 0
  {
    if h == 0 then n else (Width(n, h - 1) + 1) / 2
  }

  /**
   The tree as a definition from the top down: a leaf node is the hash of a zero byte and the leaf, an
   inner node the hash of a one byte and its left and right child, and a node without a right child
   takes its left child for both.
   */
  function TreeNode(sha: Sha256, leaves: seq<Bytes>, h: nat, i: nat): Digest
    requires i < Width(|leaves|, h)
  {
    if h == 0 then sha([0] + leaves[i])
    else
      var left := TreeNode(sha, leaves, h - 1, 2 * i);
      var right := if 2 * i + 1 < Width(|leaves|, h - 1) then TreeNode(sha, leaves, h - 1, 2 * i + 1) else left;
      sha([1] + left + right)
  }

  lemma {:induction false} LevelUpSnoc(sha: Sha256, level: seq<Digest>, d: nat)
    requires |level| > 0 && 0 < d <= Height(|level|)
    ensures LevelUp(sha, level, d) == NextLevel(sha, LevelUp(sha, level, d - 1))
    decreases d
  {
    hide *;
    LevelUpStep(sha, level, d);
    if d == 1 {
      LevelUpNone(sha, level);
      LevelUpNone(sha, NextLevel(sha, level));
    } else {
      LevelUpStep(sha, level, d - 1);
      LevelUpSnoc(sha, NextLevel(sha, level), d - 1);
    }
  }

  lemma NextAt(sha: Sha256, level: seq<Digest>, i: nat)
    requires |level| > 0 && i < (|level| + 1) / 2
    ensures |NextLevel(sha, level)| == (|level| + 1) / 2
    ensures NextLevel(sha, level)[i]
            == sha([1] + level[2 * i] + (if 2 * i + 1 < |level| then level[2 * i + 1] else level[2 * i]))
  {
  }

  /** Level by level from the bottom, the loop arrives at the nodes of that tree. */
  lemma {:induction false} LevelIsTree(sha: Sha256, leaves: seq<Bytes>, h: nat, i: nat)
    requires leaves != [] && h <= Height(|leaves|)
    ensures var up := LevelUp(sha, LeafLevel(sha, leaves), h);
            |up| == Width(|leaves|, h) && (i < |up| ==> up[i] == TreeNode(sha, leaves, h, i))
    decreases h
  {
    hide NextLevel, NodeDigest, LevelUp, Height;
    var level := LeafLevel(sha, leaves);
    if h == 0 {
      LevelUpNone(sha, level);
    } else {
      var below := LevelUp(sha, level, h - 1);
      LevelUpSnoc(sha, level, h);
      LevelIsTree(sha, leaves, h - 1, 2 * i);
      LevelIsTree(sha, leaves, h - 1, 2 * i + 1);
      NextLength(sha, below);
      if i < (|below| + 1) / 2 { NextAt(sha, below, i); }
    }
  }

  lemma NextLength(sha: Sha256, level: seq<Digest>)
    requires |level| > 0
    ensures |NextLevel(sha, level)| == (|level| + 1) / 2
  {
  }

  /** The aggregate names the leaf count, the height, and the hex of the top node of the tree. */
  lemma AggregateIsTree(sha: Sha256, leaves: seq<Bytes>)
    requires leaves != []
    ensures var agg, h := AggregateOf(sha, leaves), Height(|leaves|);
            && agg.scheme == "merkle-recursion-v1" && agg.count == |leaves| && agg.treeHeight == h
            && Width(|leaves|, h) == 1 && agg.rootHex == HexEncode(TreeNode(sha, leaves, h, 0))
  {
    hide NextLevel, NodeDigest, LevelUp, Root, HexEncode, TreeNode;
    var level, h := LeafLevel(sha, leaves), Height(|leaves|);
    var up := LevelUp(sha, level, h);
    LevelUpRoot(sha, level, h);
    LevelIsTree(sha, leaves, h, 0);
    RootOfOne(sha, up);
  }

  lemma RootOfOne(sha: Sha256, level: seq<Digest>)
    requires |level| > 0 && Height(|level|) == 0
    ensures |level| == 1 && Root(sha, level) == level[0]
  {
  }

  /** The node above leaf i at level k. */
  function Above(i: nat, k: nat): nat {
    QuotientNatural(i, Pow2(k));
    i / Pow2(k)
  }

  lemma QuotientNatural(i: nat, p: nat)
    requires p > 0
    ensures i / p >= 0
  {
    DivModSum(i, p);
    MultipleIsLarge(i / p, p);
  }

  lemma AboveStep(i: nat, k: nat)
    ensures Above(i, 0) == i && Above(i, k + 1) == Above(i / 2, k)
    ensures Bit(i, k) <==> Above(i, k) % 2 == 1
  {
    HalveTwice(i, Pow2(k));
  }

  /** The node beside node `at` of a level, which is the node itself where there is none. */
  function Beside(at: nat, width: nat): nat {
    if at % 2 == 1 then at - 1 else if at + 1 < width then at + 1 else at
  }

  /**
   What a built proof holds: its own index, the tagged hash of its leaf, and at each level the node beside
   the one above the leaf, with the bit of the index as its side.
   */
  lemma BuiltProofIs(sha: Sha256, leaves: seq<Bytes>, i: nat, k: nat)
    requires i < |leaves| && k < Height(|leaves|)
    ensures var proof, width := ProofOf(sha, leaves, i), Width(|leaves|, k);
            && proof.leafIndex == i && proof.leafHex == HexEncode(sha([0] + leaves[i]))
            && |proof.path| == |proof.positions| == Height(|leaves|)
            && proof.positions[k] == (Above(i, k) % 2 == 1)
            && Above(i, k) < width && Beside(Above(i, k), width) < width
            && proof.path[k] == HexEncode(TreeNode(sha, leaves, k, Beside(Above(i, k), width)))
  {
    hide NextLevel, LevelUp, HexEncode, TreeNode, Siblings, Height, Above, Beside, Width, Bit;
    var level := LeafLevel(sha, leaves);
    TurnsAreBits(|leaves|, i, k);
    AboveStep(i, k);
    SiblingUp(sha, level, i, k);
    LevelIsTree(sha, leaves, k, Beside(Above(i, k), |LevelUp(sha, level, k)|));
  }

  /** Sibling k of leaf i, in terms of the level k steps up. */
  lemma {:induction false} SiblingUp(sha: Sha256, level: seq<Digest>, i: nat, k: nat)
    requires i < |level| && k < Height(|level|)
    ensures var up, at := LevelUp(sha, level, k), Above(i, k);
            && at < |up| && Beside(at, |up|) < |up|
            && Siblings(sha, level, TurnsOf(|level|, i))[k] == up[Beside(at, |up|)]
    decreases k
  {
    hide NextLevel, NodeDigest, LevelUp, Siblings, SiblingOf, Height, Above, Beside, Walk, Bit, TurnsOf;
    var turns, next := TurnsOf(|level|, i), NextLevel(sha, level);
    TallEnough(|level|, k);
    NextLength(sha, level);
    SiblingsUnfold(sha, level, turns);
    if k == 0 {
      LevelUpNone(sha, level);
      SiblingOfTurns(level, i);
      AboveStep(i, 0);
      BesideIs(i, |level|);
    } else {
      LevelUpStep(sha, level, k);
      TurnsStep(|level|, i);
      AboveStep(i, k - 1);
      SiblingUp(sha, next, i / 2, k - 1);
    }
  }

  lemma TallEnough(n: nat, k: nat)
    requires k < Height(n)
    ensures n > 1 && Height(n) == 1 + Height((n + 1) / 2)
  {
  }

  lemma BesideIs(at: nat, n: nat)
    requires at < n && n > 1
    ensures Beside(at, n) < n && Beside(at, n) == Clamp(if at % 2 == 1 then at - 1 else at + 1, n)
  {
  }

  ghost predicate IsNode(sha: Sha256, x: Digest) {
    exists l: Digest, r: Digest :: x == NodeDigest(sha, l, r)
  }

  /** Above the leaves every entry is the digest of two children. */
  lemma {:induction false} LevelUpNodes(sha: Sha256, level: seq<Digest>, d: nat, i: nat)
    requires |level| > 0 && 0 < d <= Height(|level|) && i < |LevelUp(sha, level, d)|
    ensures IsNode(sha, LevelUp(sha, level, d)[i])
    decreases d
  {
    hide *;
    LevelUpStep(sha, level, d);
    if d == 1 {
      LevelUpNone(sha, NextLevel(sha, level));
      NextIsNode(sha, level, i);
    } else {
      LevelUpNodes(sha, NextLevel(sha, level), d - 1, i);
    }
  }

  lemma NextIsNode(sha: Sha256, level: seq<Digest>, i: nat)
    requires |level| > 0 && i < |NextLevel(sha, level)|
    ensures IsNode(sha, NextLevel(sha, level)[i])
  {
    assert NextLevel(sha, level)[i] == NodeDigest(sha, level[2 * i], level[Clamp(2 * i + 1, |level|)]);
    hide NodeDigest;
  }

  /** A leaf digest that is also a node digest gives a collision, for the two tags differ. */
  lemma LeafIsNoNode(sha: Sha256, leaf: Bytes) returns (x: Bytes, y: Bytes)
    requires IsNode(sha, LeafDigest(sha, leaf))
    ensures Collision(sha, x, y)
  {
    var l: Digest, r: Digest :| LeafDigest(sha, leaf) == NodeDigest(sha, l, r);
    x, y := [0] + leaf, [1] + l + r;
    assert x[0] == 0 && y[0] == 1;
  }

  /** Lists whose trees have different heights cannot share a root, unless a collision comes out. */
  lemma HeightsAgree(sha: Sha256, p: seq<Bytes>, q: seq<Bytes>) returns (x: Bytes, y: Bytes)
    requires p != [] && q != [] && Root(sha, LeafLevel(sha, p)) == Root(sha, LeafLevel(sha, q))
    requires Height(|p|) < Height(|q|)
    ensures Collision(sha, x, y)
  {
    hide Root, Fold, Siblings, NextLevel, LeafDigest, NodeDigest, LevelUp, IsNode, Collision;
    var a, b := LeafLevel(sha, p), LeafLevel(sha, q);
    var d := Height(|q|) - Height(|p|);
    var up := LevelUp(sha, b, d);
    LevelUpRoot(sha, b, d);
    var turns := seq(Height(|p|), _ => false);
    x, y := SameRootSameLeaf(sha, a, up, turns);
    if !Collision(sha, x, y) {
      LevelUpNodes(sha, b, d, Walk(|up|, turns));
      x, y := LeafIsNoNode(sha, p[Walk(|p|, turns)]);
    }
  }

  /** The two lists agree wherever the same turns lead: they are equal once padded to a full tree. */
  ghost predicate SamePaddedLeaves(p: seq<Bytes>, q: seq<Bytes>)
    requires p != [] && q != []
  {
    Height(|p|) == Height(|q|)
    && forall turns: seq<bool> :: |turns| == Height(|p|) ==> p[Walk(|p|, turns)] == q[Walk(|q|, turns)]
  }

  lemma LeavesAt(sha: Sha256, p: seq<Bytes>, q: seq<Bytes>, turns: seq<bool>) returns (x: Bytes, y: Bytes)
    requires p != [] && q != [] && Root(sha, LeafLevel(sha, p)) == Root(sha, LeafLevel(sha, q))
    requires Height(|p|) == Height(|q|) == |turns|
    ensures p[Walk(|p|, turns)] == q[Walk(|q|, turns)] || Collision(sha, x, y)
  {
    hide Root, Fold, Siblings, NextLevel;
    var l, m := p[Walk(|p|, turns)], q[Walk(|q|, turns)];
    x, y := SameRootSameLeaf(sha, LeafLevel(sha, p), LeafLevel(sha, q), turns);
    if !Collision(sha, x, y) && l != m {
      x, y := [0] + l, [0] + m;
      assert x[1..] == l && y[1..] == m;
    }
  }

  /**
   What a root alone fixes, whatever the counts: two leaf lists of any lengths with the same root are
   equal up to the padding of the tree, or a collision comes out.
   */
  lemma RootBinding(sha: Sha256, p: seq<Bytes>, q: seq<Bytes>) returns (x: Bytes, y: Bytes)
    requires p != [] && q != [] && AggregateOf(sha, p).rootHex == AggregateOf(sha, q).rootHex
    ensures SamePaddedLeaves(p, q) || Collision(sha, x, y)
  {
    hide Root, Walk, Collision, HexEncode, LeafLevel;
    x, y := [], [];
    HexInjective(Root(sha, LeafLevel(sha, p)), Root(sha, LeafLevel(sha, q)));
    if Height(|p|) < Height(|q|) {
      x, y := HeightsAgree(sha, p, q);
    } else if Height(|q|) < Height(|p|) {
      x, y := HeightsAgree(sha, q, p);
    } else if !SamePaddedLeaves(p, q) {
      var turns: seq<bool> :| |turns| == Height(|p|) && p[Walk(|p|, turns)] != q[Walk(|q|, turns)];
      x, y := LeavesAt(sha, p, q, turns);
    }
  }

  /** And conversely: lists that are equal up to padding have the same root. */
  lemma PaddedRoots(sha: Sha256, p: seq<Bytes>, q: seq<Bytes>)
    requires p != [] && q != [] && SamePaddedLeaves(p, q)
    ensures AggregateOf(sha, p).rootHex == AggregateOf(sha, q).rootHex
  {
    hide Root, Walk, HexEncode;
    SamePaddingSameRoot(sha, LeafLevel(sha, p), LeafLevel(sha, q));
  }

  /**
   Why the count is needed: repeating the last leaf of an odd list of three or more leaves changes
   neither the root nor the height.
   */
  lemma RepeatedLastLeaf(sha: Sha256, leaves: seq<Bytes>)
    requires |leaves| >= 3 && |leaves| % 2 == 1
    ensures var longer := leaves + [leaves[|leaves| - 1]];
            AggregateOf(sha, longer) == AggregateOf(sha, leaves).(count := |leaves| + 1)
  {
    var longer := leaves + [leaves[|leaves| - 1]];
    var a, b := LeafLevel(sha, leaves), LeafLevel(sha, longer);
    assert forall i :: 0 <= i < |a| ==> a[i] == b[i];
    assert NextLevel(sha, a) == NextLevel(sha, b);
  }

  // ---- the source's algorithms ----

  method HashLeaves(sha: Sha256, leaves: seq<Bytes>) returns (r: Result<seq<Digest>, Error>)
    ensures r.Ok? <==> [] !in leaves
    ensures r.Ok? ==> r.value == LeafLevel(sha, leaves)
    ensures r.Err? ==> r.error.EmptyLeaf? && r.error.index < |leaves| && leaves[r.error.index] == []
                       && [] !in leaves[..r.error.index]
  {
    var level: seq<Digest> := [];
    for i := 0 to |leaves|
      invariant [] !in leaves[..i]
      invariant level == LeafLevel(sha, leaves)[..i]
    {
      if leaves[i] == [] {
        return Err(EmptyLeaf(i));
      }
      level := level + [LeafDigest(sha, leaves[i])];
    }
    r := Ok(level);
  }

  /** One level up: pad an odd level with its last node, then hash the pairs. */
  method Compact(sha: Sha256, level: seq<Digest>) returns (padded: seq<Digest>, next: seq<Digest>)
    requires |level| > 1
    ensures |padded| == |level| + |level| % 2
    ensures forall i :: 0 <= i < |padded| ==> padded[i] == level[Clamp(i, |level|)]
    ensures next == NextLevel(sha, level)
  {
    padded := level;
    if |padded| % 2 == 1 {
      padded := padded + [padded[|padded| - 1]];
    }
    next := [];
    for i := 0 to |padded| / 2
      invariant next == NextLevel(sha, level)[..i]
    {
      next := next + [NodeDigest(sha, padded[2 * i], padded[2 * i + 1])];
    }
  }

  method AggregateMerkleRecursion(sha: Sha256, leaves: seq<Bytes>) returns (r: Result<Aggregate, Error>)
    ensures leaves == [] <==> r == Err(EmptyLeafList)
    ensures r.Ok? <==> leaves != [] && [] !in leaves
    ensures r.Ok? ==> r.value == AggregateOf(sha, leaves)
  {
    if |leaves| == 0 {
      return Err(EmptyLeafList);
    }
    var hashed := HashLeaves(sha, leaves);
    if hashed.Err? {
      return Err(hashed.error);
    }
    var level := hashed.value;
    var height := 0;
    while |level| > 1
      invariant |level| > 0
      invariant Root(sha, level) == Root(sha, LeafLevel(sha, leaves))
      invariant height + Height(|level|) == Height(|leaves|)
      decreases |level|
    {
      var padded, next := Compact(sha, level);
      level := next;
      height := height + 1;
    }
    r := Ok(Aggregate(SCHEME, |leaves|, height, HexEncode(level[0])));
  }

  lemma TurnsStep(n: nat, i: nat)
    requires n > 1 && i < n
    ensures TurnsOf(n, i) == [i % 2 == 1] + TurnsOf((n + 1) / 2, i / 2)
  {
  }

  lemma SiblingsUnfold(sha: Sha256, level: seq<Digest>, turns: seq<bool>)
    requires |level| > 1 && |turns| == Height(|level|)
    ensures Siblings(sha, level, turns) == [SiblingOf(level, turns)] + Siblings(sha, NextLevel(sha, level), turns[1..])
  {
  }

  lemma SiblingOfTurns(level: seq<Digest>, cursor: nat)
    requires |level| > 1 && cursor < |level|
    ensures SiblingOf(level, TurnsOf(|level|, cursor))
            == level[Clamp(if cursor % 2 == 1 then cursor - 1 else cursor + 1, |level|)]
  {
    var turns := TurnsOf(|level|, cursor);
    TurnsStep(|level|, cursor);
    assert turns[0] == (cursor % 2 == 1) && turns[1..] == TurnsOf((|level| + 1) / 2, cursor / 2);
    WalkOfTurns((|level| + 1) / 2, cursor / 2);
  }

  /** The path entries still to come when the builder's cursor is on a node of this level. */
  function PathFrom(sha: Sha256, level: seq<Digest>, cursor: nat): seq<string>
    requires cursor < |level|
  {
    HexAll(Siblings(sha, level, TurnsOf(|level|, cursor)))
  }

  /** One round of the path builder's loop: its sibling is the first of what is still to come. */
  lemma PathStep(sha: Sha256, level: seq<Digest>, cursor: nat)
    requires |level| > 1 && cursor < |level|
    ensures var sibling := level[Clamp(if cursor % 2 == 1 then cursor - 1 else cursor + 1, |level|)];
            PathFrom(sha, level, cursor) == [HexEncode(sibling)] + PathFrom(sha, NextLevel(sha, level), cursor / 2)
  {
    var turns := TurnsOf(|level|, cursor);
    SiblingsUnfold(sha, level, turns);
    SiblingOfTurns(level, cursor);
    TurnsStep(|level|, cursor);
    assert turns[1..] == TurnsOf((|level| + 1) / 2, cursor / 2);
    HexAllCons(SiblingOf(level, turns), Siblings(sha, NextLevel(sha, level), turns[1..]));
  }

  lemma HexAllCons(d: Digest, ds: seq<Digest>)
    ensures HexAll([d] + ds) == [HexEncode(d)] + HexAll(ds)
  {
  }

  lemma Regroup<T>(front: seq<T>, x: T, back: seq<T>)
    ensures front + ([x] + back) == front + [x] + back
  {
  }

  lemma PathDone(sha: Sha256, level: seq<Digest>)
    requires |level| == 1
    ensures PathFrom(sha, level, 0) == [] && TurnsOf(1, 0) == []
  {
  }

  /** The builder's loop: the siblings of the cursor's ancestors and which side they are on. */
  method CollectPath(sha: Sha256, leafLevel: seq<Digest>, leafIndex: nat)
    returns (path: seq<string>, positions: seq<bool>)
    requires leafIndex < |leafLevel|
    ensures path == PathFrom(sha, leafLevel, leafIndex) && positions == TurnsOf(|leafLevel|, leafIndex)
  {
    hide *;
    var level := leafLevel;
    var cursor: nat := leafIndex;
    path, positions := [], [];
    while |level| > 1
      invariant cursor < |level|
      invariant positions + TurnsOf(|level|, cursor) == TurnsOf(|leafLevel|, leafIndex)
      invariant path + PathFrom(sha, level, cursor) == PathFrom(sha, leafLevel, leafIndex)
      decreases |level|
    {
      var padded, next := Compact(sha, level);
      var isRight := cursor % 2 == 1;
      var siblingIdx := if isRight then cursor - 1 else cursor + 1;
      PathStep(sha, level, cursor);
      TurnsStep(|level|, cursor);
      Regroup(path, HexEncode(padded[siblingIdx]), PathFrom(sha, next, cursor / 2));
      Regroup(positions, isRight, TurnsOf(|next|, cursor / 2));
      path := path + [HexEncode(padded[siblingIdx])];
      positions := positions + [isRight];
      level, cursor := next, cursor / 2;
    }
    PathDone(sha, level);
  }

  method BuildInclusionProof(sha: Sha256, leaves: seq<Bytes>, leafIndex: int)
    returns (r: Result<InclusionProof, Error>)
    ensures !(0 <= leafIndex < |leaves|) <==> r == Err(LeafIndexOutOfRange)
    ensures r.Ok? <==> 0 <= leafIndex < |leaves| && [] !in leaves
    ensures r.Ok? ==> r.value == ProofOf(sha, leaves, leafIndex)
  {
    if leafIndex < 0 || leafIndex >= |leaves| {
      return Err(LeafIndexOutOfRange);
    }
    var hashed := HashLeaves(sha, leaves);
    if hashed.Err? {
      return Err(hashed.error);
    }
    var path, positions := CollectPath(sha, hashed.value, leafIndex);
    r := Ok(InclusionProof(leafIndex, HexEncode(hashed.value[leafIndex]), path, positions));
  }

  predicate LengthsFit(agg: Aggregate, proof: InclusionProof) {
    agg.scheme == SCHEME && agg.treeHeight == |proof.path| == |proof.positions|
  }

  predicate AllDigestHex(path: seq<string>) {
    forall i :: 0 <= i < |path| ==> IsDigestHex(path[i])
  }

  /** The verifier's loop: fold the siblings in, or stop at the first that is no 32-byte hex. */
  method FoldPath(sha: Sha256, leaf: Digest, path: seq<string>, positions: seq<bool>)
    returns (r: Result<Digest, Error>)
    requires |path| == |positions|
    ensures r.Ok? <==> AllDigestHex(path)
    ensures r.Ok? ==> r.value == Fold(sha, leaf, DecodePath(path), positions)
    ensures r.Err? ==> r.error.BadPathHex? && r.error.index < |path| && !IsDigestHex(path[r.error.index])
                       && forall k :: 0 <= k < r.error.index ==> IsDigestHex(path[k])
  {
    hide Fold, NodeDigest, IsDigestHex, DecodeDigest, HexDecode;
    var acc := leaf;
    for i := 0 to |path|
      invariant forall k :: 0 <= k < i ==> IsDigestHex(path[k])
      invariant AllDigestHex(path) ==>
                  Fold(sha, acc, DecodePath(path)[i..], positions[i..]) == Fold(sha, leaf, DecodePath(path), positions)
    {
      if !IsDigestHex(path[i]) {
        return Err(BadPathHex(i));
      }
      var sib := DecodeDigest(path[i]);
      if AllDigestHex(path) {
        FoldStep(sha, acc, DecodePath(path)[i..], positions[i..]);
        assert DecodePath(path)[i..][1..] == DecodePath(path)[i + 1..] && positions[i..][1..] == positions[i + 1..];
      }
      if positions[i] {
        acc := NodeDigest(sha, sib, acc);
      } else {
        acc := NodeDigest(sha, acc, sib);
      }
    }
    if AllDigestHex(path) { FoldNone(sha, acc, DecodePath(path)[|path|..], positions[|path|..]); }
    r := Ok(acc);
  }

  lemma FoldNone(sha: Sha256, acc: Digest, path: seq<Digest>, turns: seq<bool>)
    requires |path| == |turns| == 0
    ensures Fold(sha, acc, path, turns) == acc
  {
  }

  method VerifyMerkleInclusion(sha: Sha256, agg: Aggregate, proof: InclusionProof) returns (r: Result<bool, Error>)
    ensures r.Ok? ==> r.value
    ensures r.Ok? <==> Accepts(sha, agg, proof)
    ensures r == Err(UnsupportedScheme) <==> agg.scheme != SCHEME
    ensures r == Err(PathLengthMismatch) <==> agg.scheme == SCHEME && agg.treeHeight != |proof.path|
    ensures r == Err(PositionsLengthMismatch) <==>
              agg.scheme == SCHEME && agg.treeHeight == |proof.path| != |proof.positions|
    ensures r == Err(LeafIndexOutOfRange) <==> LengthsFit(agg, proof) && !(0 <= proof.leafIndex < agg.count)
    ensures r == Err(BadLeafHex) <==>
              LengthsFit(agg, proof) && 0 <= proof.leafIndex < agg.count && !IsDigestHex(proof.leafHex)
    ensures r.Err? && r.error.BadPathHex? ==>
              && r.error.index < |proof.path|
              && !IsDigestHex(proof.path[r.error.index])
              && forall k :: 0 <= k < r.error.index ==> IsDigestHex(proof.path[k])
    ensures r == Err(RootMismatch) ==>
              LengthsFit(agg, proof) && forall i :: 0 <= i < |proof.path| ==> IsDigestHex(proof.path[i])
  {
    hide Fold, IsDigestHex, DecodeDigest, HexDecode, DecodePath, HexEncode;
    if agg.scheme != SCHEME {
      return Err(UnsupportedScheme);
    }
    if agg.treeHeight != |proof.path| {
      return Err(PathLengthMismatch);
    }
    if |proof.path| != |proof.positions| {
      return Err(PositionsLengthMismatch);
    }
    if proof.leafIndex < 0 || proof.leafIndex >= agg.count {
      return Err(LeafIndexOutOfRange);
    }
    if !IsDigestHex(proof.leafHex) {
      return Err(BadLeafHex);
    }
    var folded := FoldPath(sha, DecodeDigest(proof.leafHex), proof.path, proof.positions);
    if folded.Err? {
      return Err(folded.error);
    }
    if HexEncode(folded.value) != agg.rootHex {
      return Err(RootMismatch);
    }
    r := Ok(true);
  }
}
