/** Values the Casper contracts share: 64-bit unsigned integers and numbered identifiers. */
module CasperValues {
  import opened Numerals
  import Words

  const U64_MAX := 0xffff_ffff_ffff_ffff

  type U64 = x: int | 0 <= x <= U64_MAX

  /** An identifier made of a prefix and a counter value. */
  function NumberedId(prefix: string, n: nat): string {
    prefix + Decimal(n)
  }

  lemma NumberedIdInjective(prefix: string, m: nat, n: nat)
    requires NumberedId(prefix, m) == NumberedId(prefix, n)
    ensures m == n
  {
    hide Decimal;
    var k := |prefix|;
    assert Decimal(m) == NumberedId(prefix, m)[k..] && Decimal(n) == NumberedId(prefix, n)[k..];
    DecimalInjective(m, n);
  }

  lemma {:induction false} DigitsShort(x: nat, k: nat)
    requires x < Pow2(k)
    ensures |Digits(x, 10)| <= k
  {
    if x > 0 {
      QuotientShrinks(x, 10);
      assert x / 10 < Pow2(k - 1);
      DigitsShort(x / 10, k - 1);
    }
  }

  /** The identifier of a 64-bit counter value is at most 64 characters longer than its prefix. */
  lemma NumberedIdShort(prefix: string, n: U64)
    ensures |prefix| < |NumberedId(prefix, n)| <= |prefix| + 64
  {
    hide Digits, Pow2;
    Words.Pow2Values();
    DigitsShort(n, 64);
    DecimalChars(n);
  }
}
