/**
 Bitwise operators on unbounded non-negative integers, as JavaScript's BigInt has them, and the
 64-bit word operations they implement once masked.
 */
module Words {
  import opened Numerals

  const MOD64 := 0x1_0000_0000_0000_0000
  const MASK64 := 0xffff_ffff_ffff_ffff

  type Word = x: int | 0 <= x < MOD64

  // ---- BigInt operators, bit by bit ----

  function BitAnd(x: nat, y: nat): nat
    decreases x + y
  {
    if x == 0 || y == 0 then 0 else (if x % 2 == 1 && y % 2 == 1 then 1 else 0) + 2 * BitAnd(x / 2, y / 2)
  }

  function BitOr(x: nat, y: nat): nat
    decreases x + y
  {
    if x == 0 && y == 0 then 0 else (if x % 2 == 1 || y % 2 == 1 then 1 else 0) + 2 * BitOr(x / 2, y / 2)
  }

  function BitXor(x: nat, y: nat): nat
    decreases x + y
  {
    if x == 0 && y == 0 then 0 else (if x % 2 != y % 2 then 1 else 0) + 2 * BitXor(x / 2, y / 2)
  }

  function Shl(x: nat, k: nat): nat {
    x * Pow2(k)
  }

  function Shr(x: nat, k: nat): nat {
    QuotientNonNegative(x, Pow2(k));
    x / Pow2(k)
  }

  lemma QuotientNonNegative(x: nat, p: nat)
    requires p > 0
    ensures x / p >= 0
  {
  }

  // ---- division facts ----

  lemma ProductRegroup(a: int, b: int, c: int)
    ensures (a * b) * c == a * (b * c)
  {
  }

  lemma SumTimes(a: int, b: int, c: int)
    ensures (a + b) * c == a * c + b * c
  {
  }

  lemma SplitBelow(x: nat, p: nat, r: nat)
    requires x < p * r && p > 0
    ensures 0 <= x / p < r
    ensures 0 <= x / p + (x % p) * r < p * r
  {
    DivModSum(x, p);
    if x / p >= r { MulMono(r, x / p, p, p); }
    MulMono(x % p, p - 1, r, r);
    SumTimes(p - 1, 1, r);
  }

  /** (x / p + x * r) mod (p * r): the low part of x moves up, its high part falls off. */
  lemma RotateArith(x: nat, p: nat, r: nat)
    requires x < p * r && p > 0
    ensures (x / p + x * r) % (p * r) == x / p + (x % p) * r
  {
    SplitBelow(x, p, r);
    DivModSum(x, p);
    var q, low := x / p, x % p;
    SumTimes(q * p, low, r);
    ProductRegroup(q, p, r);
    DivModUnique(q, q + low * r, p * r);
  }

  lemma SumLow(a: nat, b: nat, p: nat, q: nat)
    requires p > 0
    ensures (a + b * (p * q)) / p == a / p + b * q
  {
    DivModSum(a, p);
    SumTimes(a / p, b * q, p);
    ProductRegroup(b, q, p);
    assert q * p == p * q;
    QuotientNonNegative(a, p);
    DivModUnique(a / p + b * q, a % p, p);
  }

  lemma SumHigh(a: nat, b: nat, p: nat, q: nat)
    requires a < p && q > 0
    ensures (a + b * p) / (p * q) == b / q
  {
    DivModSum(b, q);
    var low := (b % q) * p + a;
    SumTimes((b / q) * q, b % q, p);
    ProductRegroup(b / q, q, p);
    assert q * p == p * q;
    QuotientNonNegative(b, q);
    MulMono(b % q, q - 1, p, p);
    SumTimes(q - 1, 1, p);
    DivModUnique(b / q, low, p * q);
  }

  lemma DivDiv(x: nat, a: nat, b: nat)
    requires a > 0 && b > 0
    ensures 0 <= x / a && x / a / b == x / (a * b)
  {
    DivModSum(x, a);
    SumHigh(x % a, x / a, a, b);
  }

  // ---- powers of two ----

  lemma {:induction false} Pow2Sum(a: nat, b: nat)
    ensures Pow2(a + b) == Pow2(a) * Pow2(b)
  {
    hide *;
    if a == 0 {
      Pow2Zero();
    } else {
      Pow2Sum(a - 1, b);
      Pow2Step(a);
      Pow2Step(a + b);
      ProductRegroup(2, Pow2(a - 1), Pow2(b));
    }
  }

  lemma Pow2Four()
    ensures Pow2(4) == 16
  {
  }

  lemma Pow2Values()
    ensures Pow2(8) == 256 && Pow2(16) == 0x1_0000 && Pow2(64) == MOD64
  {
    hide Pow2;
    Pow2Four();
    Pow2Sum(4, 4);
    Pow2Sum(8, 8);
    Pow2Sum(16, 16);
    Pow2Sum(32, 32);
  }

  // ---- masks and disjoint bits ----

  /** Masking with k one bits is reduction modulo 2^k. */
  lemma {:induction false} MaskIsMod(x: nat, k: nat)
    ensures BitAnd(x, Pow2(k) - 1) == x % Pow2(k)
    decreases k
  {
    hide *;
    if k > 0 {
      Pow2Step(k);
      AndStep(x, Pow2(k - 1));
      MaskIsMod(x / 2, k - 1);
      HalfMod(x, Pow2(k - 1));
    } else {
      Pow2Zero();
      AndNone(x);
      ModTrivial(x, 1);
    }
  }

  lemma Pow2Step(k: nat)
    requires k > 0
    ensures Pow2(k) == 2 * Pow2(k - 1)
  {
  }

  lemma AndNone(x: nat)
    ensures BitAnd(x, 0) == 0
  {
  }

  lemma AndStep(x: nat, p: nat)
    requires p > 0
    ensures BitAnd(x, 2 * p - 1) == x % 2 + 2 * BitAnd(x / 2, p - 1)
  {
    assert (2 * p - 1) % 2 == 1 && (2 * p - 1) / 2 == p - 1;
  }

  lemma ModTrivial(x: nat, p: nat)
    requires p > 0 && (x == 0 || p == 1)
    ensures x % p == 0
  {
  }

  lemma HalfMod(x: nat, p: nat)
    requires p > 0
    ensures x % (2 * p) == x % 2 + 2 * (x / 2 % p)
  {
    var h := x / 2;
    DivModSum(h, p);
    assert x == (h / p) * (2 * p) + (x % 2 + 2 * (h % p)) by {
      assert 2 * ((h / p) * p) == (h / p) * (2 * p);
    }
    DivModUnique(h / p, x % 2 + 2 * (h % p), 2 * p);
  }

  lemma HalfShift(b: nat, k: nat)
    requires k > 0
    ensures Shl(b, k) % 2 == 0 && Shl(b, k) / 2 == Shl(b, k - 1)
  {
    assert b * (2 * Pow2(k - 1)) == 2 * (b * Pow2(k - 1));
  }

  /** Or and xor of numbers without a common bit position are their sum. */
  lemma {:induction false} DisjointSum(a: nat, b: nat, k: nat)
    requires a < Pow2(k)
    ensures BitOr(a, Shl(b, k)) == a + Shl(b, k) && BitXor(a, Shl(b, k)) == a + Shl(b, k)
    decreases k
  {
    if k == 0 {
      OrZero(b);
    } else {
      HalfShift(b, k);
      DisjointSum(a / 2, b, k - 1);
    }
  }

  lemma {:induction false} OrZero(b: nat)
    ensures BitOr(0, b) == b && BitXor(0, b) == b
  {
    if b > 0 { OrZero(b / 2); }
  }

  /** Xor stays within k bits. */
  lemma {:induction false} XorBound(x: nat, y: nat, k: nat)
    requires x < Pow2(k) && y < Pow2(k)
    ensures BitXor(x, y) < Pow2(k)
    decreases k
  {
    if k > 0 { XorBound(x / 2, y / 2, k - 1); }
  }

  lemma {:induction false} XorAssoc(x: nat, y: nat, z: nat)
    ensures BitXor(BitXor(x, y), z) == BitXor(x, BitXor(y, z))
    decreases x + y + z
  {
    if x > 0 || y > 0 || z > 0 {
      hide BitXor;
      XorAssoc(x / 2, y / 2, z / 2);
      XorUnfold(x, y);
      XorUnfold(y, z);
      XorUnfold(BitXor(x, y), z);
      XorUnfold(x, BitXor(y, z));
    }
  }

  lemma {:induction false} XorComm(x: nat, y: nat)
    ensures BitXor(x, y) == BitXor(y, x)
    decreases x + y
  {
    if x > 0 || y > 0 { XorComm(x / 2, y / 2); }
  }

  lemma XorUnfold(x: nat, y: nat)
    ensures BitXor(x, y) % 2 == (if x % 2 != y % 2 then 1 else 0)
    ensures BitXor(x, y) / 2 == BitXor(x / 2, y / 2)
    ensures BitXor(x, y) == (if x % 2 != y % 2 then 1 else 0) + 2 * BitXor(x / 2, y / 2)
  {
  }

  // ---- 64-bit words ----

  function Add64(x: int, y: int): Word {
    (x + y) % MOD64
  }

  function Xor64(x: Word, y: Word): (r: Word) {
    Pow2Values();
    XorBound(x, y, 64);
    BitXor(x, y)
  }

  /** Rotation right by n: the low n bits move to the top. */
  function Rotr(x: Word, n: nat): (r: Word)
    requires n <= 64
  {
    RotrBound(x, n);
    x / Pow2(n) + (x % Pow2(n)) * Pow2(64 - n)
  }

  lemma RotrBound(x: Word, n: nat)
    requires n <= 64
    ensures x / Pow2(n) < Pow2(64 - n)
    ensures 0 <= x / Pow2(n) + (x % Pow2(n)) * Pow2(64 - n) < MOD64
  {
    hide Pow2;
    Pow2Values();
    Pow2Sum(n, 64 - n);
    SplitBelow(x, Pow2(n), Pow2(64 - n));
  }

  lemma MaskTo64(x: nat)
    ensures BitAnd(x, MASK64) == x % MOD64
  {
    Pow2Values();
    MaskIsMod(x, 64);
  }

  /** The shift-or-mask expression is the rotation. */
  lemma ShiftOrMaskRotates(x: Word, n: nat)
    requires n <= 64
    ensures BitAnd(BitOr(Shr(x, n), Shl(x, 64 - n)), MASK64) == Rotr(x, n)
  {
    hide Pow2, BitAnd, BitOr;
    RotrBound(x, n);
    DisjointSum(x / Pow2(n), x, 64 - n);
    MaskTo64(x / Pow2(n) + x * Pow2(64 - n));
    Pow2Values();
    Pow2Sum(n, 64 - n);
    RotateArith(x, Pow2(n), Pow2(64 - n));
  }

  // ---- what the word operations do to single bits ----

  predicate TestBit(x: nat, i: nat) {
    QuotientNonNegative(x, Pow2(i));
    x / Pow2(i) % 2 == 1
  }

  lemma HalveBit(x: nat, i: nat)
    requires i > 0
    ensures TestBit(x, i) == TestBit(x / 2, i - 1)
  {
    DivDiv(x, 2, Pow2(i - 1));
  }

  /** Bit i of an exclusive or is set exactly when it is set in one operand. */
  lemma {:induction false} XorBits(x: nat, y: nat, i: nat)
    ensures TestBit(BitXor(x, y), i) == (TestBit(x, i) != TestBit(y, i))
    decreases i
  {
    if i == 0 {
      LowestXor(x, y);
    } else {
      hide TestBit, BitXor;
      HalveBit(x, i);
      HalveBit(y, i);
      HalveBit(BitXor(x, y), i);
      XorBits(x / 2, y / 2, i - 1);
      XorHalf(x, y);
    }
  }

  lemma LowestXor(x: nat, y: nat)
    ensures TestBit(BitXor(x, y), 0) == (TestBit(x, 0) != TestBit(y, 0))
  {
  }

  lemma XorHalf(x: nat, y: nat)
    ensures BitXor(x, y) / 2 == BitXor(x / 2, y / 2)
  {
  }

  lemma BitOfSum(a: nat, b: nat, k: nat, i: nat)
    requires a < Pow2(k)
    ensures TestBit(a + Shl(b, k), i) == if i < k then TestBit(a, i) else TestBit(b, i - k)
    decreases i
  {
    hide *;
    if i < k { LowBitOfSum(a, b, k, i); } else { HighBitOfSum(a, b, k, i); }
  }

  lemma LowBitOfSum(a: nat, b: nat, k: nat, i: nat)
    requires i < k
    ensures TestBit(a + Shl(b, k), i) == TestBit(a, i)
  {
    hide *;
    var p, q := Pow2(i), Pow2(k - i);
    Pow2Sum(i, k - i);
    ShlIs(b, k);
    ShlIs(b, k - i);
    SumLow(a, b, p, q);
    HalfShift(b, k - i);
    QuotientNonNegative(a, p);
    EvenSum(a / p, Shl(b, k - i));
    TestBitIs(a + Shl(b, k), i);
    TestBitIs(a, i);
  }

  lemma HighBitOfSum(a: nat, b: nat, k: nat, i: nat)
    requires a < Pow2(k) && i >= k
    ensures TestBit(a + Shl(b, k), i) == TestBit(b, i - k)
  {
    hide *;
    Pow2Sum(k, i - k);
    ShlIs(b, k);
    SumHigh(a, b, Pow2(k), Pow2(i - k));
    TestBitIs(a + Shl(b, k), i);
    TestBitIs(b, i - k);
  }

  lemma ShlIs(b: nat, k: nat)
    ensures Shl(b, k) == b * Pow2(k)
  {
  }

  lemma TestBitIs(x: nat, i: nat)
    ensures TestBit(x, i) == (x / Pow2(i) % 2 == 1)
  {
  }

  lemma EvenSum(x: nat, y: nat)
    requires y % 2 == 0
    ensures (x + y) % 2 == x % 2
  {
  }

  /** Bit i of a rotation by n is bit (i + n) mod 64 of the word. */
  lemma RotrBits(x: Word, n: nat, i: nat)
    requires 0 < n < 64 && i < 64
    ensures TestBit(Rotr(x, n), i) == TestBit(x, (i + n) % 64)
  {
    hide Pow2, TestBit;
    var p := Pow2(n);
    RotrBound(x, n);
    DivModSum(x, p);
    BitOfSum(x / p, x % p, 64 - n, i);
    BitOfSum(x % p, x / p, n, if i + n < 64 then i + n else i + n - 64);
  }

  // ---- little-endian words ----

  function FromLE(bs: seq<byte>): nat {
    if bs == [] then 0 else bs[0] + 256 * FromLE(bs[1..])
  }

  function ToLE(x: nat, n: nat): (bs: seq<byte>)
    ensures |bs| == n
  {
    if n == 0 then [] else [x % 256] + ToLE(x / 256, n - 1)
  }

  lemma {:induction false} FromLESnoc(bs: seq<byte>, b: byte)
    ensures FromLE(bs) < Pow2(8 * |bs|)
    ensures FromLE(bs + [b]) == FromLE(bs) + Shl(b, 8 * |bs|)
  {
    hide Pow2;
    if bs == [] {
      assert [b][1..] == [] && [] + [b] == [b];
      Pow2Zero();
    } else {
      var tail := bs[1..];
      FromLESnoc(tail, b);
      assert (bs + [b])[1..] == tail + [b];
      ByteShift(bs[0], FromLE(tail), b, |tail|);
      FromLECons(bs);
      FromLECons(bs + [b]);
    }
  }

  lemma FromLECons(bs: seq<byte>)
    requires bs != []
    ensures FromLE(bs) == bs[0] + 256 * FromLE(bs[1..])
  {
  }

  /** One more low byte below a little-endian value of n bytes and the byte b above it. */
  lemma ByteShift(low: byte, v: nat, b: nat, n: nat)
    requires v < Pow2(8 * n)
    ensures low + 256 * v < Pow2(8 * (n + 1))
    ensures 256 * (v + Shl(b, 8 * n)) == 256 * v + Shl(b, 8 * (n + 1))
  {
    hide Pow2;
    Pow2Values();
    Pow2Sum(8, 8 * n);
    assert 8 + 8 * n == 8 * (n + 1);
    ProductRegroup(b, 256, Pow2(8 * n));
  }

  lemma Pow2Zero()
    ensures Pow2(0) == 1
  {
  }

  /** Writing a word out in bytes and reading it back gives the word. */
  lemma {:induction false} LERoundTrip(x: nat, n: nat)
    requires x < Pow2(8 * n)
    ensures FromLE(ToLE(x, n)) == x
  {
    if n > 0 {
      Pow2Values();
      Pow2Sum(8, 8 * (n - 1));
      LERoundTrip(x / 256, n - 1);
      assert ToLE(x, n)[1..] == ToLE(x / 256, n - 1);
    }
  }

  /** Byte i of a little-endian word. */
  lemma {:induction false} ToLEAt(x: nat, n: nat, i: nat)
    requires i < n
    ensures ToLE(x, n)[i] == Shr(x, 8 * i) % 256
  {
    if i > 0 {
      ToLEAt(x / 256, n - 1, i - 1);
      Pow2Values();
      Pow2Sum(8, 8 * (i - 1));
      DivDiv(x, 256, Pow2(8 * (i - 1)));
      assert 8 + 8 * (i - 1) == 8 * i;
    }
  }
}
