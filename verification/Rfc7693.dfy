/**
 BLAKE2b-256 a second time, as sections 2 and 3 of RFC 7693 write it: the initialization vector by the
 square roots it comes from, the mixing function as eight assignments, a round as four columns and four
 diagonals, the input and the digest byte by byte. The specification the client's loop was proved
 against is this function.
 */
module Rfc7693 {
  import opened Numerals
  import opened Words
  import opened Blake2b

  const TWO64 := 0x1_0000_0000_0000_0000

  // ---- section 2.6 ----

  const PRIMES := [2, 3, 5, 7, 11, 13, 17, 19]

  /** w is the first 64 bits after the binary point of the square root of p. */
  predicate FractionOfRoot(p: nat, w: nat) {
    exists s: nat :: s < 5 && Rooted(p, s, w)
  }

  predicate Rooted(p: nat, s: nat, w: nat) {
    && s * s < p < (s + 1) * (s + 1) && w < TWO64
    && (s * TWO64 + w) * (s * TWO64 + w) < p * TWO64 * TWO64 < (s * TWO64 + w + 1) * (s * TWO64 + w + 1)
  }

  /** The eight words are the fractions of the square roots of the first eight primes. */
  lemma InitialVector(i: nat)
    requires i < 8
    ensures FractionOfRoot(PRIMES[i], IV[i])
  {
    if i < 2 {
      assert Rooted(PRIMES[i], 1, IV[i]);
    } else if i < 4 {
      assert Rooted(PRIMES[i], 2, IV[i]);
    } else if i < 6 {
      assert Rooted(PRIMES[i], 3, IV[i]);
    } else {
      assert Rooted(PRIMES[i], 4, IV[i]);
    }
  }

  // ---- section 3.1 ----

  function Mixing(v: Words16, a: nat, b: nat, c: nat, d: nat, x: Word, y: Word): Words16
    requires a < 16 && b < 16 && c < 16 && d < 16
  {
    var v: Words16 := v[a := (v[a] + v[b] + x) % TWO64];
    var v: Words16 := v[d := Rotr(Xor64(v[d], v[a]), 32)];
    var v: Words16 := v[c := (v[c] + v[d]) % TWO64];
    var v: Words16 := v[b := Rotr(Xor64(v[b], v[c]), 24)];
    var v: Words16 := v[a := (v[a] + v[b] + y) % TWO64];
    var v: Words16 := v[d := Rotr(Xor64(v[d], v[a]), 16)];
    var v: Words16 := v[c := (v[c] + v[d]) % TWO64];
    v[b := Rotr(Xor64(v[b], v[c]), 63)]
  }

  lemma SumTwice(a: Word, b: Word, x: Word)
    ensures Add64(Add64(a, b), x) == (a + b + x) % TWO64
  {
  }

  lemma MixIsG(v: Words16, a: nat, b: nat, c: nat, d: nat, x: Word, y: Word)
    requires a < 16 && b < 16 && c < 16 && d < 16
    requires a != b && a != c && a != d && b != c && b != d && c != d
    ensures Mixing(v, a, b, c, d, x, y) == G(v, a, b, c, d, x, y)
  {
    hide Rotr, Xor64;
    var q := Quad(v[a], v[b], v[c], v[d]);
    SumTwice(q.a, q.b, x);
    var p := HalfG(q, x, 32, 24);
    SumTwice(p.a, p.b, y);
  }

  // ---- section 3.2 ----

  /** The word of the message that round r feeds into position k, by the schedule's row r mod 10. */
  function Fed(m: Words16, r: nat, k: nat): Word
    requires k < 16
  {
    SigmaInRange(r % 10, k);
    m[SIGMA[r % 10][k]]
  }

  /** Every row of the schedule is a permutation of 0 to 15. */
  lemma SigmaInRange(r: nat, k: nat)
    requires r < 10 && k < 16
    ensures |SIGMA[r]| == 16 && SIGMA[r][k] < 16
    ensures k in SIGMA[r]
  {
  }

  /** The first n of the four columns: column i mixes rows 0 to 3 of column i. */
  function Columns(v: Words16, m: Words16, r: nat, n: nat): Words16
    requires n <= 4
    decreases n, |v|
  {
    if n == 0 then v
    else
      var i := n - 1;
      Mixing(Columns(v, m, r, i), i, 4 + i, 8 + i, 12 + i, Fed(m, r, 2 * i), Fed(m, r, 2 * i + 1))
  }

  /** The first n of the four diagonals: diagonal i moves one column to the right at each row. */
  function Diagonals(v: Words16, m: Words16, r: nat, n: nat): Words16
    requires n <= 4
    decreases n, |v|
  {
    if n == 0 then v
    else
      var i := n - 1;
      Mixing(Diagonals(v, m, r, i), i, 4 + (i + 1) % 4, 8 + (i + 2) % 4, 12 + (i + 3) % 4,
          Fed(m, r, 8 + 2 * i), Fed(m, r, 9 + 2 * i))
  }

  lemma FedIsPick(m: Words16, r: nat, k: nat)
    requires k < 16
    ensures Fed(m, r, k) == Pick(m, r, k)
  {
    SigmaInRange(r % 10, k);
    hide SIGMA;
  }

  lemma ColumnsNone(v: Words16, m: Words16, r: nat)
    ensures Columns(v, m, r, 0) == v
  {
  }

  lemma ColumnStep(v: Words16, m: Words16, r: nat, i: nat)
    requires i < 4
    ensures Columns(v, m, r, i + 1)
            == G(Columns(v, m, r, i), i, 4 + i, 8 + i, 12 + i, Pick(m, r, 2 * i), Pick(m, r, 2 * i + 1))
  {
    hide Mixing, G, Fed, Pick;
    FedIsPick(m, r, 2 * i);
    FedIsPick(m, r, 2 * i + 1);
    MixIsG(Columns(v, m, r, i), i, 4 + i, 8 + i, 12 + i,
           Fed(m, r, 2 * i), Fed(m, r, 2 * i + 1));
  }

  lemma ColumnsAre(v: Words16, m: Words16, r: nat)
    ensures Columns(v, m, r, 4)
            == G(G(G(G(v, 0, 4, 8, 12, Pick(m, r, 0), Pick(m, r, 1)), 1, 5, 9, 13, Pick(m, r, 2), Pick(m, r, 3)),
                   2, 6, 10, 14, Pick(m, r, 4), Pick(m, r, 5)), 3, 7, 11, 15, Pick(m, r, 6), Pick(m, r, 7))
  {
    hide *;
    ColumnsNone(v, m, r);
    ColumnStep(v, m, r, 0);
    ColumnStep(v, m, r, 1);
    ColumnStep(v, m, r, 2);
    ColumnStep(v, m, r, 3);
  }

  lemma DiagonalsNone(v: Words16, m: Words16, r: nat)
    ensures Diagonals(v, m, r, 0) == v
  {
  }

  lemma DiagonalStep(v: Words16, m: Words16, r: nat, i: nat)
    requires i < 4
    ensures Diagonals(v, m, r, i + 1)
            == G(Diagonals(v, m, r, i), i, 4 + (i + 1) % 4, 8 + (i + 2) % 4, 12 + (i + 3) % 4,
                 Pick(m, r, 8 + 2 * i), Pick(m, r, 9 + 2 * i))
  {
    hide Mixing, G, Fed, Pick;
    FedIsPick(m, r, 8 + 2 * i);
    FedIsPick(m, r, 9 + 2 * i);
    MixIsG(Diagonals(v, m, r, i), i, 4 + (i + 1) % 4, 8 + (i + 2) % 4, 12 + (i + 3) % 4,
           Fed(m, r, 8 + 2 * i), Fed(m, r, 9 + 2 * i));
  }

  lemma DiagonalsAre(v: Words16, m: Words16, r: nat)
    ensures Diagonals(v, m, r, 4)
            == G(G(G(G(v, 0, 5, 10, 15, Pick(m, r, 8), Pick(m, r, 9)), 1, 6, 11, 12, Pick(m, r, 10), Pick(m, r, 11)),
                   2, 7, 8, 13, Pick(m, r, 12), Pick(m, r, 13)), 3, 4, 9, 14, Pick(m, r, 14), Pick(m, r, 15))
  {
    hide *;
    DiagonalsNone(v, m, r);
    DiagonalStep(v, m, r, 0);
    DiagonalStep(v, m, r, 1);
    DiagonalStep(v, m, r, 2);
    DiagonalStep(v, m, r, 3);
  }

  /** Rounds 0 to n - 1. */
  function Mixed(v: Words16, m: Words16, n: nat): Words16
    decreases n, |v|
  {
    if n == 0 then v
    else Diagonals(Columns(Mixed(v, m, n - 1), m, n - 1, 4), m, n - 1, 4)
  }

  lemma {:induction false} MixedIsRounds(v: Words16, m: Words16, n: nat)
    ensures Mixed(v, m, n) == Rounds(v, m, n)
    decreases n
  {
    hide G, Pick, Columns, Diagonals;
    if n > 0 {
      var before := Mixed(v, m, n - 1);
      MixedIsRounds(v, m, n - 1);
      ColumnsAre(before, m, n - 1);
      DiagonalsAre(Columns(before, m, n - 1, 4), m, n - 1);
    }
  }

  /** The low and the high word of the byte counter. */
  function Counter(t: nat): (Word, Word) {
    (t % TWO64, t / TWO64 % TWO64)
  }

  /** The last row of the working vector: the counter's two words and the final flag are mixed in. */
  function LastRow(t: nat, final: bool): (row: seq<Word>)
    ensures |row| == 4
  {
    hide Xor64;
    var (low, high) := Counter(t);
    [Xor64(IV[4], low), Xor64(IV[5], high), if final then Xor64(IV[6], 0xffff_ffff_ffff_ffff) else IV[6], IV[7]]
  }

  function Prepared(h: Words8, t: nat, final: bool): Words16 {
    hide LastRow;
    h + IV[..4] + LastRow(t, final)
  }

  /** The compression function F. */
  function Compressed(h: Words8, m: Words16, t: nat, final: bool): Words8 {
    hide *;
    var v := Mixed(Prepared(h, t, final), m, 12);
    seq(8, i requires 0 <= i < 8 => Xor64(Xor64(h[i], v[i]), v[i + 8]))
  }

  lemma PreparedIsStart(h: Words8, t: nat, final: bool)
    ensures Prepared(h, t, final) == Start(h, t, final)
  {
    hide Xor64;
    var v, w := Prepared(h, t, final), Start(h, t, final);
    forall i | 0 <= i < 12 ensures v[i] == w[i] {
    }
    assert v[12] == w[12] && v[13] == w[13] && v[14] == w[14] && v[15] == w[15];
  }

  lemma CompressedIsF(h: Words8, m: Words16, t: nat, final: bool)
    ensures Compressed(h, m, t, final) == F(h, m, t, final)
  {
    hide Mixed, Rounds, Xor64, IV, Prepared, Start;
    PreparedIsStart(h, t, final);
    MixedIsRounds(Start(h, t, final), m, 12);
  }

  // ---- section 3.3 ----

  /** Byte k of the zero-padded input. */
  function ByteAt(input: seq<byte>, k: nat): byte {
    if k < |input| then input[k] else 0
  }

  /** Word j of block i: eight bytes, the first the least significant. */
  function WordAt(input: seq<byte>, i: nat, j: nat): (w: nat)
    ensures w < TWO64
  {
    var k := 128 * i + 8 * j;
    LittleEndian(ByteAt(input, k), ByteAt(input, k + 1), ByteAt(input, k + 2), ByteAt(input, k + 3),
                 ByteAt(input, k + 4), ByteAt(input, k + 5), ByteAt(input, k + 6), ByteAt(input, k + 7))
  }

  function LittleEndian(b0: nat, b1: nat, b2: nat, b3: nat, b4: nat, b5: nat, b6: nat, b7: nat): nat {
    b0 + 0x100 * b1 + 0x1_0000 * b2 + 0x100_0000 * b3 + 0x1_0000_0000 * b4
    + 0x100_0000_0000 * b5 + 0x1_0000_0000_0000 * b6 + 0x100_0000_0000_0000 * b7
  }

  function DataBlock(input: seq<byte>, i: nat): Words16 {
    seq(16, j requires 0 <= j < 16 => WordAt(input, i, j))
  }

  /** The state after the first n blocks, the counter being the number of bytes compressed so far. */
  function Chained(input: seq<byte>, n: nat): Words8 {
    if n == 0 then IV[0 := Xor64(IV[0], 0x0101_0020)]
    else Compressed(Chained(input, n - 1), DataBlock(input, n - 1), 128 * n, false)
  }

  /** The number of blocks after padding; the empty input has one. */
  function Blocks(n: nat): nat {
    if n == 0 then 1 else (n + 127) / 128
  }

  lemma BlocksPositive(n: nat)
    ensures Blocks(n) > 0 && Blocks(n) == BlockCount(n)
  {
  }

  /** Byte k of the state, each word written least significant byte first. */
  function StateByte(h: Words8, k: nat): byte
    requires k < 64
  {
    h[k / 8] / Byte256(k % 8) % 256
  }

  /** 256 to the power k. */
  function Byte256(k: nat): (p: nat)
    ensures p > 0
  {
    if k == 0 then 1 else 256 * Byte256(k - 1)
  }

  /** An unkeyed digest of 32 bytes. */
  function Blake2b256Of(input: seq<byte>): seq<byte> {
    hide *;
    BlocksPositive(|input|);
    var last := Blocks(|input|) - 1;
    var h := Compressed(Chained(input, last), DataBlock(input, last), |input|, true);
    seq(32, k requires 0 <= k < 32 => StateByte(h, k))
  }

  lemma WordsAgree(input: seq<byte>, i: nat)
    ensures DataBlock(input, i) == Block(input, i)
  {
    forall j | 0 <= j < 16 ensures WordAt(input, i, j) == BlockWord(input, i, j) { WordAgrees(input, i, j); }
  }

  lemma WordAgrees(input: seq<byte>, i: nat, j: nat)
    ensures WordAt(input, i, j) == BlockWord(input, i, j)
  {
    hide FromLE, LittleEndian, ByteAt, PaddedByte;
    var bs := seq<byte>(8, n requires 0 <= n < 8 => PaddedByte(input, 128 * i + 8 * j + n));
    EightBytes(bs);
    assert BlockWord(input, i, j) == FromLE(bs);
    forall n | 0 <= n < 8 ensures bs[n] == ByteAt(input, 128 * i + 8 * j + n) {
      PaddedIs(input, 128 * i + 8 * j + n);
    }
    assert bs[0] == ByteAt(input, 128 * i + 8 * j);
  }

  lemma PaddedIs(input: seq<byte>, k: nat)
    ensures PaddedByte(input, k) == ByteAt(input, k)
  {
  }

  lemma EightBytes(bs: seq<byte>)
    requires |bs| == 8
    ensures FromLE(bs) == LittleEndian(bs[0], bs[1], bs[2], bs[3], bs[4], bs[5], bs[6], bs[7])
  {
    Peel(bs, 0);
    Peel(bs, 1);
    Peel(bs, 2);
    Peel(bs, 3);
    Peel(bs, 4);
    Peel(bs, 5);
    Peel(bs, 6);
    Peel(bs, 7);
    assert FromLE(bs[8..]) == 0;
    assert bs[0..] == bs;
    hide FromLE;
  }

  lemma Peel(bs: seq<byte>, i: nat)
    requires i < |bs|
    ensures FromLE(bs[i..]) == bs[i] + 256 * FromLE(bs[i + 1..])
  {
    assert bs[i..][1..] == bs[i + 1..];
  }

  lemma {:induction false} ChainedIsAbsorb(input: seq<byte>, n: nat)
    ensures Chained(input, n) == Absorb(input, n)
  {
    hide Compressed, DataBlock, Block, F, Xor64, IV;
    if n == 0 {
      ParameterBlock();
    } else {
      ChainedIsAbsorb(input, n - 1);
      WordsAgree(input, n - 1);
      CompressedIsF(Absorb(input, n - 1), Block(input, n - 1), 128 * n, false);
    }
  }

  lemma {:induction false} LEByte(x: nat, n: nat, k: nat)
    requires k < n
    ensures ToLE(x, n)[k] == x / Byte256(k) % 256
  {
    if k > 0 {
      LEByte(x / 256, n - 1, k - 1);
      NestedQuotient(x, Byte256(k - 1));
    }
  }

  lemma NestedQuotient(x: nat, p: nat)
    requires p > 0
    ensures x / 256 / p == x / (256 * p)
  {
    DivDiv(x, 256, p);
  }

  lemma {:induction false} LeadByte(h: Words8, n: nat, k: nat)
    requires n <= 8 && k < 8 * n
    ensures LeadBytes(h, n)[k] == StateByte(h, k)
    decreases n, |h|
  {
    hide ToLE, Byte256;
    if k < 8 * (n - 1) {
      LeadByte(h, n - 1, k);
    } else {
      LEByte(h[n - 1], 8, k - 8 * (n - 1));
    }
  }

  /** The specification of the client's loop is the digest of RFC 7693, for inputs of every length. */
  lemma DigestIsRfc(input: seq<byte>)
    ensures Digest256(input) == Blake2b256Of(input)
  {
    hide F, Compressed, LeadBytes, DataBlock, Block, StateByte, Chained, Absorb;
    BlocksPositive(|input|);
    var last := Blocks(|input|) - 1;
    ChainedIsAbsorb(input, last);
    WordsAgree(input, last);
    var h := F(Absorb(input, last), Block(input, last), |input|, true);
    CompressedIsF(Absorb(input, last), Block(input, last), |input|, true);
    DigestIs(input, last);
    forall k | 0 <= k < 32 ensures LeadBytes(h, 4)[k] == StateByte(h, k) { LeadByte(h, 4, k); }
  }
}
