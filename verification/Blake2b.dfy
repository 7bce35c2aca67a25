/**
 BLAKE2b-256 as the TypeScript client computes it, over unbounded integers with explicit masks,
 proved against the definition in sections 2 and 3 of RFC 7693 over 64-bit words.
 */
module Blake2b {
  import opened Numerals
  import opened Words

  const IV: seq<Word> := [
    0x6a09e667f3bcc908, 0xbb67ae8584caa73b, 0x3c6ef372fe94f82b, 0xa54ff53a5f1d36f1,
    0x510e527fade682d1, 0x9b05688c2b3e6c1f, 0x1f83d9abfb41bd6b, 0x5be0cd19137e2179]

  // ---- RFC 7693 ----

  /** The message schedule of section 2.7: ten permutations of 0..15. */
  const SIGMA: seq<seq<nat>> := [
    [0, 1, 2, 3, 4, 5, 6, 7, 8, 9, 10, 11, 12, 13, 14, 15],
    [14, 10, 4, 8, 9, 15, 13, 6, 1, 12, 0, 2, 11, 7, 5, 3],
    [11, 8, 12, 0, 5, 2, 15, 13, 10, 14, 3, 6, 7, 1, 9, 4],
    [7, 9, 3, 1, 13, 12, 11, 14, 2, 6, 5, 10, 4, 0, 15, 8],
    [9, 0, 5, 7, 2, 4, 10, 15, 14, 1, 11, 12, 6, 8, 3, 13],
    [2, 12, 6, 10, 0, 11, 8, 3, 4, 13, 7, 5, 15, 14, 1, 9],
    [12, 5, 1, 15, 14, 13, 4, 10, 0, 7, 6, 3, 9, 2, 8, 11],
    [13, 11, 7, 14, 12, 1, 3, 9, 5, 0, 15, 4, 8, 6, 2, 10],
    [6, 15, 14, 9, 11, 3, 0, 8, 12, 2, 13, 7, 1, 4, 10, 5],
    [10, 2, 8, 4, 7, 6, 1, 5, 15, 11, 9, 14, 3, 12, 13, 0]]

  type Words16 = ws: seq<Word> | |ws| == 16 witness seq(16, _ => 0)
  type Words8 = ws: seq<Word> | |ws| == 8 witness seq(8, _ => 0)

  datatype Quad = Quad(a: Word, b: Word, c: Word, d: Word)

  /** One half of the mixing function: an addition into a and c, rotations of d and b. */
  function HalfG(q: Quad, x: Word, r1: nat, r2: nat): Quad
    requires r1 <= 64 && r2 <= 64
  {
    var a := Add64(Add64(q.a, q.b), x);
    var d := Rotr(Xor64(q.d, a), r1);
    var c := Add64(q.c, d);
    Quad(a, Rotr(Xor64(q.b, c), r2), c, d)
  }

  /** Section 3.1: the mixing function G, with the rotation constants 32, 24, 16 and 63. */
  function G(v: Words16, a: nat, b: nat, c: nat, d: nat, x: Word, y: Word): Words16
    requires a < 16 && b < 16 && c < 16 && d < 16
  {
    var q := HalfG(HalfG(Quad(v[a], v[b], v[c], v[d]), x, 32, 24), y, 16, 63);
    v[a := q.a][b := q.b][c := q.c][d := q.d]
  }

  /** The word of the message block that round `round` feeds to slot k. */
  function Pick(m: Words16, round: nat, k: nat): Word
    requires k < 16
  {
    var row := SIGMA[round % 10];
    if k < |row| && row[k] < 16 then m[row[k]] else 0
  }

  function Round(v: Words16, m: Words16, i: nat): Words16 {
    var v := G(v, 0, 4, 8, 12, Pick(m, i, 0), Pick(m, i, 1));
    var v := G(v, 1, 5, 9, 13, Pick(m, i, 2), Pick(m, i, 3));
    var v := G(v, 2, 6, 10, 14, Pick(m, i, 4), Pick(m, i, 5));
    var v := G(v, 3, 7, 11, 15, Pick(m, i, 6), Pick(m, i, 7));
    var v := G(v, 0, 5, 10, 15, Pick(m, i, 8), Pick(m, i, 9));
    var v := G(v, 1, 6, 11, 12, Pick(m, i, 10), Pick(m, i, 11));
    var v := G(v, 2, 7, 8, 13, Pick(m, i, 12), Pick(m, i, 13));
    G(v, 3, 4, 9, 14, Pick(m, i, 14), Pick(m, i, 15))
  }

  function Rounds(v: Words16, m: Words16, n: nat): Words16
    decreases n, |v|
  {
    if n == 0 then v else Round(Rounds(v, m, n - 1), m, n - 1)
  }

  /** The working vector: state and IV, with the 128-bit counter and the final flag mixed in. */
  function Start(h: Words8, t: nat, final: bool): Words16 {
    var v := h + IV;
    var v := v[12 := Xor64(v[12], t % MOD64)];
    var v := v[13 := Xor64(v[13], t / MOD64 % MOD64)];
    if final then v[14 := Xor64(v[14], MOD64 - 1)] else v
  }

  /** Section 3.2: the compression function F. */
  function F(h: Words8, m: Words16, t: nat, final: bool): Words8 {
    hide *;
    var v := Rounds(Start(h, t, final), m, 12);
    seq(8, i requires 0 <= i < 8 => Xor64(Xor64(h[i], v[i]), v[i + 8]))
  }

  function PaddedByte(input: seq<byte>, k: nat): byte {
    if k < |input| then input[k] else 0
  }

  /** Word j of block i of the zero-padded input, little-endian. */
  function BlockWord(input: seq<byte>, i: nat, j: nat): Word {
    var bs := seq<byte>(8, k requires 0 <= k < 8 => PaddedByte(input, 128 * i + 8 * j + k));
    WordFits(bs);
    FromLE(bs)
  }

  function Block(input: seq<byte>, i: nat): Words16 {
    seq(16, j requires 0 <= j < 16 => BlockWord(input, i, j))
  }

  /** The number of data blocks: one even for the empty input. */
  function BlockCount(n: nat): (dd: nat)
    ensures dd >= 1 && 128 * (dd - 1) <= n <= 128 * dd
    ensures n > 0 ==> 128 * (dd - 1) < n
  {
    if n == 0 then 1 else (n + 127) / 128
  }

  /** h after the parameter block: 32-byte digest, no key. */
  function Init(): Words8 {
    IV[0 := Xor64(IV[0], Xor64(0x01010000, Xor64(0, 32)))]
  }

  /** The state after the first i blocks, none of them the last. */
  function Absorb(input: seq<byte>, i: nat): Words8 {
    if i == 0 then Init() else F(Absorb(input, i - 1), Block(input, i - 1), 128 * i, false)
  }

  /** Section 3.3: every block but the last with a running byte count, the last with the total and the flag. */
  function Digest256(input: seq<byte>): (d: seq<byte>)
    ensures |d| == 32
  {
    hide *;
    var dd := BlockCount(|input|);
    var h := F(Absorb(input, dd - 1), Block(input, dd - 1), |input|, true);
    LeadBytes(h, 4)
  }

  /** The first n words of the state, little-endian. */
  function LeadBytes(h: Words8, n: nat): (bs: seq<byte>)
    requires n <= 8
    ensures |bs| == 8 * n
    decreases n, |h|
  {
    if n == 0 then [] else LeadBytes(h, n - 1) + ToLE(h[n - 1], 8)
  }

  lemma WordFits(bs: seq<byte>)
    requires |bs| == 8
    ensures FromLE(bs) < MOD64
  {
    hide FromLE;
    FromLESnoc(bs, 0);
    Pow2Values();
  }

  // ---- the source's algorithm ----

  function Rotr64(x: nat, n: nat): nat
    requires n <= 64
  {
    BitAnd(BitOr(Shr(x, n), Shl(x, 64 - n)), MASK64)
  }

  /** mix: the updates of v in place, in the source's order. */
  method Mix(v: array<Word>, a: nat, b: nat, c: nat, d: nat, x: Word, y: Word)
    requires v.Length == 16
    requires a < 16 && b < 16 && c < 16 && d < 16
    requires a != b && a != c && a != d && b != c && b != d && c != d
    modifies v
    ensures v[..] == G(old(v[..]), a, b, c, d, x, y)
  {
    hide HalfG;
    MixHalf(v, a, b, c, d, x, 32, 24);
    MixHalf(v, a, b, c, d, y, 16, 63);
  }

  method MixHalf(v: array<Word>, a: nat, b: nat, c: nat, d: nat, x: Word, r1: nat, r2: nat)
    requires v.Length == 16 && r1 <= 64 && r2 <= 64
    requires a < 16 && b < 16 && c < 16 && d < 16
    requires a != b && a != c && a != d && b != c && b != d && c != d
    modifies v
    ensures Quad(v[a], v[b], v[c], v[d]) == HalfG(old(Quad(v[a], v[b], v[c], v[d])), x, r1, r2)
    ensures forall i :: 0 <= i < 16 && i != a && i != b && i != c && i != d ==> v[i] == old(v[i])
  {
    hide BitAnd, BitOr, BitXor, Shr, Shl, Rotr;
    AddMasked(v, a, b, x);
    XorRotate(v, d, a, r1);
    AddMasked(v, c, d, 0);
    XorRotate(v, b, c, r2);
  }

  /** v[i] = (v[i] + v[j] + x) & MASK64 */
  method AddMasked(v: array<Word>, i: nat, j: nat, x: Word)
    requires i < v.Length && j < v.Length
    modifies v
    ensures v[i] == old(Add64(Add64(v[i], v[j]), x))
    ensures forall k :: 0 <= k < v.Length && k != i ==> v[k] == old(v[k])
  {
    hide BitAnd;
    MaskTo64(v[i] + v[j] + x);
    v[i] := BitAnd(v[i] + v[j] + x, MASK64);
  }

  /** v[i] = rotr64(v[i] ^ v[j], r) */
  method XorRotate(v: array<Word>, i: nat, j: nat, r: nat)
    requires i < v.Length && j < v.Length && r <= 64
    modifies v
    ensures v[i] == old(Rotr(Xor64(v[i], v[j]), r))
    ensures forall k :: 0 <= k < v.Length && k != i ==> v[k] == old(v[k])
  {
    hide BitAnd, BitOr, BitXor, Shr, Shl, Rotr;
    ghost var w := Xor64(v[i], v[j]);
    ShiftOrMaskRotates(w, r);
    v[i] := Rotr64(BitXor(v[i], v[j]), r);
  }

  /** The schedule table as the source lists it: twelve rows, the last two repeating the first two. */
  const BLAKE2B_SIGMA: seq<seq<nat>> := [
    [0, 1, 2, 3, 4, 5, 6, 7, 8, 9, 10, 11, 12, 13, 14, 15],
    [14, 10, 4, 8, 9, 15, 13, 6, 1, 12, 0, 2, 11, 7, 5, 3],
    [11, 8, 12, 0, 5, 2, 15, 13, 10, 14, 3, 6, 7, 1, 9, 4],
    [7, 9, 3, 1, 13, 12, 11, 14, 2, 6, 5, 10, 4, 0, 15, 8],
    [9, 0, 5, 7, 2, 4, 10, 15, 14, 1, 11, 12, 6, 8, 3, 13],
    [2, 12, 6, 10, 0, 11, 8, 3, 4, 13, 7, 5, 15, 14, 1, 9],
    [12, 5, 1, 15, 14, 13, 4, 10, 0, 7, 6, 3, 9, 2, 8, 11],
    [13, 11, 7, 14, 12, 1, 3, 9, 5, 0, 15, 4, 8, 6, 2, 10],
    [6, 15, 14, 9, 11, 3, 0, 8, 12, 2, 13, 7, 1, 4, 10, 5],
    [10, 2, 8, 4, 7, 6, 1, 5, 15, 11, 9, 14, 3, 12, 13, 0],
    [0, 1, 2, 3, 4, 5, 6, 7, 8, 9, 10, 11, 12, 13, 14, 15],
    [14, 10, 4, 8, 9, 15, 13, 6, 1, 12, 0, 2, 11, 7, 5, 3]]

  /** The source's table is the schedule of section 2.7 taken modulo ten, and all its entries are word indices. */
  lemma Schedule(round: nat)
    requires round < 12
    ensures BLAKE2B_SIGMA[round] == SIGMA[round % 10]
    ensures |BLAKE2B_SIGMA[round]| == 16 && forall k :: 0 <= k < 16 ==> BLAKE2B_SIGMA[round][k] < 16
  {
  }

  method ReadU64LE(bytes: array<byte>, offset: nat) returns (out: nat)
    requires offset + 8 <= bytes.Length
    ensures out == FromLE(bytes[offset..offset + 8])
  {
    hide FromLE, BitOr, BitXor, Shl, Pow2;
    out := 0;
    FromLENil();
    assert bytes[offset..offset + 0] == [];
    for i := 0 to 8
      invariant out == FromLE(bytes[offset..offset + i])
    {
      FromLESnoc(bytes[offset..offset + i], bytes[offset + i]);
      assert bytes[offset..offset + i] + [bytes[offset + i]] == bytes[offset..offset + (i + 1)];
      DisjointSum(out, bytes[offset + i], 8 * i);
      out := BitOr(out, Shl(bytes[offset + i], 8 * i));
    }
  }

  lemma FromLENil()
    ensures FromLE([]) == 0
  {
  }

  method WriteU64LE(bytes: array<byte>, offset: nat, value: Word)
    requires offset + 8 <= bytes.Length
    modifies bytes
    ensures bytes[offset..offset + 8] == ToLE(value, 8)
    ensures forall k :: 0 <= k < bytes.Length && !(offset <= k < offset + 8) ==> bytes[k] == old(bytes[k])
  {
    hide ToLE, BitAnd, Shr, Pow2;
    for i := 0 to 8
      invariant forall k :: 0 <= k < i ==> bytes[offset + k] == ToLE(value, 8)[k]
      invariant forall k :: 0 <= k < bytes.Length && !(offset <= k < offset + i) ==> bytes[k] == old(bytes[k])
    {
      Pow2Values();
      MaskIsMod(Shr(value, 8 * i), 8);
      ToLEAt(value, 8, i);
      bytes[offset + i] := BitAnd(Shr(value, 8 * i), 0xff);
    }
  }

  function WordsOf(block: seq<byte>): Words16
    requires |block| == 128
  {
    seq(16, j requires 0 <= j < 16 => WordAt(block, j))
  }

  function WordAt(block: seq<byte>, j: nat): Word
    requires |block| == 128 && j < 16
  {
    WordFits(block[8 * j..8 * j + 8]);
    FromLE(block[8 * j..8 * j + 8])
  }

  method LoadBlock(block: array<byte>) returns (m: array<Word>)
    requires block.Length == 128
    ensures fresh(m) && m.Length == 16 && m[..] == WordsOf(block[..])
  {
    hide FromLE;
    m := new Word[16];
    for i := 0 to 16
      invariant forall k :: 0 <= k < i ==> m[k] == WordAt(block[..], k)
    {
      var w := ReadU64LE(block, 8 * i);
      assert block[..][8 * i..8 * i + 8] == block[8 * i..8 * i + 8];
      WordFits(block[8 * i..8 * i + 8]);
      m[i] := w;
    }
    assert m[..] == WordsOf(block[..]);
  }

  method LoadVector(h: array<Word>, t: nat, isFinal: bool) returns (v: array<Word>)
    requires h.Length == 8
    ensures fresh(v) && v.Length == 16 && v[..] == Start(h[..], t, isFinal)
  {
    hide BitAnd, BitXor, Shr, Pow2;
    v := new Word[16];
    for i := 0 to 8
      invariant forall k :: 0 <= k < i ==> v[k] == h[k]
    {
      v[i] := h[i];
    }
    for i := 0 to 8
      invariant forall k :: 0 <= k < 8 ==> v[k] == h[k]
      invariant forall k :: 0 <= k < i ==> v[8 + k] == IV[k]
    {
      v[8 + i] := IV[i];
    }
    assert v[..] == h[..] + IV;
    MaskTo64(t);
    Pow2Values();
    MaskTo64(Shr(t, 64));
    ShrIsDiv(t);
    v[12] := Xor64(v[12], BitAnd(t, MASK64));
    v[13] := Xor64(v[13], BitAnd(Shr(t, 64), MASK64));
    if isFinal {
      v[14] := Xor64(v[14], MASK64);
    }
  }

  lemma ShrIsDiv(t: nat)
    ensures Shr(t, 64) == t / MOD64
  {
    Pow2Values();
  }

  method OneRound(v: array<Word>, m: array<Word>, round: nat)
    requires v.Length == 16 && m.Length == 16 && v != m && round < 12
    modifies v
    ensures v[..] == Round(old(v[..]), m[..], round)
  {
    hide G, Pick;
    Picks(m[..], round);
    var s := BLAKE2B_SIGMA[round];
    Mix(v, 0, 4, 8, 12, m[s[0]], m[s[1]]);
    Mix(v, 1, 5, 9, 13, m[s[2]], m[s[3]]);
    Mix(v, 2, 6, 10, 14, m[s[4]], m[s[5]]);
    Mix(v, 3, 7, 11, 15, m[s[6]], m[s[7]]);
    Mix(v, 0, 5, 10, 15, m[s[8]], m[s[9]]);
    Mix(v, 1, 6, 11, 12, m[s[10]], m[s[11]]);
    Mix(v, 2, 7, 8, 13, m[s[12]], m[s[13]]);
    Mix(v, 3, 4, 9, 14, m[s[14]], m[s[15]]);
  }

  lemma Picks(m: Words16, round: nat)
    requires round < 12
    ensures |BLAKE2B_SIGMA[round]| == 16
    ensures forall k :: 0 <= k < 16 ==> BLAKE2B_SIGMA[round][k] < 16 && m[BLAKE2B_SIGMA[round][k]] == Pick(m, round, k)
  {
    Schedule(round);
  }

  method Compress(h: array<Word>, block: array<byte>, t: nat, isFinal: bool)
    requires h.Length == 8 && block.Length == 128
    modifies h
    ensures h[..] == F(old(h[..]), WordsOf(block[..]), t, isFinal)
  {
    hide Start, Round, Rounds, WordsOf, BitXor;
    var v := LoadVector(h, t, isFinal);
    ghost var v0 := v[..];
    var m := LoadBlock(block);
    RoundsNil(v0, m[..]);
    for round := 0 to 12
      invariant v[..] == Rounds(v0, m[..], round)
      invariant m[..] == WordsOf(block[..])
      invariant h[..] == old(h[..])
    {
      RoundsStep(v0, m[..], round);
      OneRound(v, m, round);
    }
    ghost var hs, vs := h[..], v[..];
    for i := 0 to 8
      invariant v[..] == vs
      invariant forall k :: 0 <= k < i ==> h[k] == Xor64(Xor64(hs[k], vs[k]), vs[k + 8])
      invariant forall k :: i <= k < 8 ==> h[k] == hs[k]
    {
      XorAssoc(h[i], v[i], v[i + 8]);
      h[i] := Xor64(h[i], Xor64(v[i], v[i + 8]));
    }
    assert h[..] == F(hs, WordsOf(block[..]), t, isFinal);
  }

  lemma RoundsNil(v: Words16, m: Words16)
    ensures Rounds(v, m, 0) == v
  {
  }

  lemma RoundsStep(v: Words16, m: Words16, n: nat)
    ensures Rounds(v, m, n + 1) == Round(Rounds(v, m, n), m, n)
  {
  }

  /** 0x01010020 packs digest length 32, no key, fanout 1 and depth 1. */
  lemma ParameterBlock()
    ensures Xor64(0x01010000, Xor64(0, 32)) == 0x01010020
  {
    OrZero(32);
    Pow2Values();
    assert Shl(0x0101, 16) == 0x01010000;
    XorComm(0x01010000, 32);
    DisjointSum(32, 0x0101, 16);
  }

  method CopyBlock(block: array<byte>, bytes: seq<byte>)
    requires |bytes| <= block.Length
    modifies block
    ensures block[..] == bytes + old(block[..])[|bytes|..]
  {
    forall k | 0 <= k < |bytes| {
      block[k] := bytes[k];
    }
  }

  lemma BlockIs(input: seq<byte>, i: nat, bytes: seq<byte>)
    requires |bytes| == 128 && forall k :: 0 <= k < 128 ==> bytes[k] == PaddedByte(input, 128 * i + k)
    ensures WordsOf(bytes) == Block(input, i)
  {
    hide FromLE;
    forall j | 0 <= j < 16 ensures WordsOf(bytes)[j] == Block(input, i)[j] {
      var bs := seq<byte>(8, k requires 0 <= k < 8 => PaddedByte(input, 128 * i + 8 * j + k));
      assert bytes[8 * j..8 * j + 8] == bs;
    }
  }

  lemma AbsorbStep(input: seq<byte>, i: nat)
    ensures Absorb(input, i + 1) == F(Absorb(input, i), Block(input, i), 128 * (i + 1), false)
  {
  }

  lemma AbsorbNone(input: seq<byte>)
    ensures Absorb(input, 0) == Init()
  {
  }

  method InitialState() returns (h: array<Word>)
    ensures fresh(h) && h.Length == 8 && h[..] == Init()
  {
    hide BitXor;
    h := new Word[8](i requires 0 <= i < 8 => IV[i]);
    assert h[..] == IV;
    ParameterBlock();
    h[0] := Xor64(h[0], 0x01010020);
  }

  lemma LeadBytesStep(h: Words8, n: nat)
    requires n < 8
    ensures LeadBytes(h, 0) == [] && LeadBytes(h, n + 1) == LeadBytes(h, n) + ToLE(h[n], 8)
  {
  }

  method EmitDigest(h: array<Word>) returns (digest: seq<byte>)
    requires h.Length == 8
    ensures digest == LeadBytes(h[..], 4)
  {
    hide ToLE, LeadBytes;
    var out := new byte[32](_ => 0);
    LeadBytesStep(h[..], 0);
    for k := 0 to 4
      invariant out[..8 * k] == LeadBytes(h[..], k)
    {
      ghost var before := out[..8 * k];
      WriteU64LE(out, 8 * k, h[k]);
      LeadBytesStep(h[..], k);
      assert out[..8 * k] == before;
      assert out[..8 * (k + 1)] == out[..8 * k] + out[8 * k..8 * k + 8];
    }
    digest := out[..];
    assert digest == out[..8 * 4];
  }

  lemma DigestIs(input: seq<byte>, i: nat)
    requires i == BlockCount(|input|) - 1
    ensures Digest256(input) == LeadBytes(F(Absorb(input, i), Block(input, i), |input|, true), 4)
  {
    hide F, Absorb, Block, LeadBytes, BlockCount;
  }

  lemma LastBlock(n: nat, i: nat)
    requires 128 * i <= n <= 128 * i + 128 && (n > 0 ==> 128 * i < n)
    ensures i == BlockCount(n) - 1
  {
  }

  lemma FullBlock(input: seq<byte>, i: nat, bytes: seq<byte>)
    requires 128 * (i + 1) <= |input| && bytes == input[128 * i..128 * (i + 1)]
    ensures WordsOf(bytes) == Block(input, i)
  {
    BlockIs(input, i, bytes);
  }

  lemma FinalBlock(input: seq<byte>, i: nat, bytes: seq<byte>)
    requires 128 * i <= |input| <= 128 * (i + 1)
    requires bytes == input[128 * i..] + seq<byte>(128 * (i + 1) - |input|, _ => 0)
    ensures WordsOf(bytes) == Block(input, i)
  {
    BlockIs(input, i, bytes);
  }

  method FillZero(block: array<byte>)
    modifies block
    ensures block[..] == seq<byte>(block.Length, _ => 0)
  {
    forall k | 0 <= k < block.Length {
      block[k] := 0;
    }
  }

  /** For an input of any length the source computes the BLAKE2b-256 digest of RFC 7693. */
  method Blake2b256(input: seq<byte>) returns (digest: seq<byte>)
    ensures digest == Digest256(input)
  {
    hide *;
    var h := InitialState();
    AbsorbNone(input);
    var block := new byte[128](_ => 0);
    var t, offset := 0, 0;
    ghost var i := 0;
    while |input| - offset > 128
      invariant 0 <= offset == t == 128 * i <= |input| && (|input| > 0 ==> offset < |input|)
      invariant h[..] == Absorb(input, i)
    {
      CopyBlock(block, input[offset..offset + 128]);
      assert block[..] == input[128 * i..128 * (i + 1)];
      FullBlock(input, i, block[..]);
      t := t + 128;
      AbsorbStep(input, i);
      Compress(h, block, t, false);
      offset := offset + 128;
      i := i + 1;
    }
    var remaining := |input| - offset;
    FillZero(block);
    CopyBlock(block, input[offset..]);
    assert block[..] == input[128 * i..] + seq<byte>(128 * (i + 1) - |input|, _ => 0);
    FinalBlock(input, i, block[..]);
    t := t + remaining;
    LastBlock(|input|, i);
    Compress(h, block, t, true);
    DigestIs(input, i);
    digest := EmitDigest(h);
  }
}
