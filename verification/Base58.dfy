/**
 The base58 encoder of the Solana stub adapter, its specification decoder, and the proof
 that they are inverse to each other in both directions.
 */
module Base58 {
  import opened Numerals
  import opened Wrappers

  /** The n consecutive characters from `first` on. */
  function Run(first: char, n: nat): (run: string)
    requires first as int + n < 0xD800
    ensures |run| == n
  {
    seq(n, i requires 0 <= i < n => (first as int + i) as char)
  }

  /** The Bitcoin alphabet as its runs of consecutive characters (no 0, O, I or l). */
  const ALPHABET: string :=
    Run('1', 9) + Run('A', 8) + Run('J', 5) + Run('P', 11) + Run('a', 11) + Run('m', 14)

  lemma AlphabetRuns()
    ensures Run('1', 9) == "123456789" && Run('A', 8) == "ABCDEFGH" && Run('J', 5) == "JKLMN"
    ensures Run('P', 11) == "PQRSTUVWXYZ" && Run('a', 11) == "abcdefghijk" && Run('m', 14) == "mnopqrstuvwxyz"
    ensures |ALPHABET| == 58
  {
  }

  // ---- the specification: change of base, leading zeros kept one for one ----

  function LeadingZeros(ds: seq<nat>): (z: nat)
    ensures z <= |ds|
    ensures forall i :: 0 <= i < z ==> ds[i] == 0
    ensures z < |ds| ==> ds[z] != 0
  {
    if ds == [] || ds[0] != 0 then 0 else 1 + LeadingZeros(ds[1..])
  }

  function Zeros(z: nat): seq<nat> {
    seq(z, _ => 0)
  }

  function Rebase(ds: seq<nat>, base: nat, target: nat): (r: seq<nat>)
    requires base >= 2 && target >= 2
    ensures AreDigits(r, target)
  {
    Zeros(LeadingZeros(ds)) + Digits(Val(ds, base), target)
  }

  lemma {:induction false} LeadingZerosUnique(ds: seq<nat>, z: nat)
    requires z <= |ds|
    requires forall i :: 0 <= i < z ==> ds[i] == 0
    requires z < |ds| ==> ds[z] != 0
    ensures LeadingZeros(ds) == z
  {
    if z > 0 {
      LeadingZerosUnique(ds[1..], z - 1);
    }
  }

  /** Changing base and changing back restores every digit list, leading zeros included. */
  lemma RebaseInverse(ds: seq<nat>, base: nat, target: nat)
    requires base >= 2 && target >= 2 && AreDigits(ds, base)
    ensures Rebase(Rebase(ds, base, target), target, base) == ds
  {
    var z := LeadingZeros(ds);
    var tail := ds[z..];
    assert ds == Zeros(z) + tail;
    ValOfZeros(z, tail, base);
    DigitsOfVal(tail, base);
    var v := Val(tail, base);
    var image := Digits(v, target);
    ValOfZeros(z, image, target);
    ValOfDigits(v, target);
    LeadingZerosUnique(Zeros(z) + image, z);
  }

  // ---- the alphabet ----

  function CharOf(d: nat): char
    requires d < 58
  {
    ALPHABET[d]
  }

  /** The digit a character stands for: the six runs of consecutive letters in the alphabet. */
  function DigitOf(c: char): Option<nat> {
    if '1' <= c <= '9' then Some((c - '1') as nat)
    else if 'A' <= c <= 'H' then Some((c - 'A') as nat + 9)
    else if 'J' <= c <= 'N' then Some((c - 'J') as nat + 17)
    else if 'P' <= c <= 'Z' then Some((c - 'P') as nat + 22)
    else if 'a' <= c <= 'k' then Some((c - 'a') as nat + 33)
    else if 'm' <= c <= 'z' then Some((c - 'm') as nat + 44)
    else None
  }

  lemma DigitOfChar(d: nat)
    requires d < 58
    ensures DigitOf(CharOf(d)) == Some(d)
  {
  }

  lemma CharOfDigit(c: char)
    requires DigitOf(c).Some?
    ensures DigitOf(c).value < 58 && CharOf(DigitOf(c).value) == c
  {
    var d := DigitOf(c).value;
    DigitOfChar(d);
  }

  function Chars(ds: seq<nat>): string
    requires AreDigits(ds, 58)
  {
    seq(|ds|, i requires 0 <= i < |ds| => CharOf(ds[i]))
  }

  predicate InAlphabet(s: string) {
    forall i :: 0 <= i < |s| ==> DigitOf(s[i]).Some?
  }

  function DigitsOf(s: string): (ds: seq<nat>)
    requires InAlphabet(s)
  {
    seq(|s|, i requires 0 <= i < |s| => DigitOf(s[i]).value)
  }

  // ---- encoding and decoding ----

  /** What base58 means: the leading zeros as '1' characters, then the minimal base-58 digits. */
  function Encode(b: seq<byte>): string {
    Chars(Rebase(b, 256, 58))
  }

  /** The specification decoder: None for a string with a character outside the alphabet. */
  function Decode(s: string): Option<seq<nat>> {
    if InAlphabet(s) then Some(Rebase(DigitsOf(s), 58, 256)) else None
  }

  /** Decoding an encoding gives back the exact bytes, whatever their length and leading zeros. */
  lemma DecodeEncode(b: seq<byte>)
    ensures Decode(Encode(b)) == Some(b)
  {
    var ds := Rebase(b, 256, 58);
    forall i | 0 <= i < |ds| ensures DigitOf(Encode(b)[i]) == Some(ds[i]) {
      DigitOfChar(ds[i]);
    }
    assert DigitsOf(Encode(b)) == ds;
    RebaseInverse(b, 256, 58);
  }

  /** Every string over the alphabet is the encoding of what it decodes to: encoding is a bijection. */
  lemma EncodeDecode(s: string)
    requires InAlphabet(s)
    ensures Decode(s).Some? && Encode(Decode(s).value) == s
  {
    var ds := DigitsOf(s);
    forall i | 0 <= i < |s| ensures ds[i] < 58 && CharOf(ds[i]) == s[i] {
      CharOfDigit(s[i]);
    }
    RebaseInverse(ds, 58, 256);
    assert Chars(ds) == s;
  }

  const BITCOIN_ALPHABET := "123456789" + "ABCDEFGHJKLMNPQRSTUVWXYZ" + "abcdefghijkmnopqrstuvwxyz"

  lemma UpperCase()
    ensures "ABCDEFGH" + "JKLMN" + "PQRSTUVWXYZ" == "ABCDEFGHJKLMNPQRSTUVWXYZ"
  {
  }

  lemma LowerCase()
    ensures "abcdefghijk" + "mnopqrstuvwxyz" == "abcdefghijkmnopqrstuvwxyz"
  {
  }

  lemma Associate(a: string, b: string, c: string, d: string, e: string, f: string)
    ensures a + b + c + d + e + f == a + (b + c + d) + (e + f)
  {
  }

  lemma AlphabetIs()
    ensures ALPHABET == BITCOIN_ALPHABET && |BITCOIN_ALPHABET| == 58
  {
    AlphabetRuns();
    UpperCase();
    LowerCase();
    Associate(Run('1', 9), Run('A', 8), Run('J', 5), Run('P', 11), Run('a', 11), Run('m', 14));
    hide Run;
  }

  /** A string spells digits: character by character, in the Bitcoin alphabet. */
  ghost predicate Spells(s: string, ds: seq<nat>) {
    |ds| == |s| && forall i :: 0 <= i < |s| ==> ds[i] < 58 && s[i] == BITCOIN_ALPHABET[ds[i]]
  }

  lemma SpellingIsChars(s: string, ds: seq<nat>)
    ensures Spells(s, ds) <==> AreDigits(ds, 58) && s == Chars(ds)
  {
    AlphabetIs();
    hide ALPHABET;
    if AreDigits(ds, 58) && s == Chars(ds) {
      forall i | 0 <= i < |s| ensures s[i] == BITCOIN_ALPHABET[ds[i]] {
        assert s[i] == CharOf(ds[i]);
      }
    }
    if Spells(s, ds) {
      forall i | 0 <= i < |s| ensures s[i] == CharOf(ds[i]) {
      }
    }
  }

  lemma RebaseIsUnique(ds: seq<nat>, base: nat, r: seq<nat>, target: nat)
    requires base >= 2 && target >= 2 && AreDigits(r, target)
    requires LeadingZeros(r) == LeadingZeros(ds) && Worth(r, target) == Worth(ds, base)
    ensures r == Rebase(ds, base, target)
  {
    var z := LeadingZeros(r);
    var tail := r[z..];
    assert r == Zeros(z) + tail;
    ValOfZeros(z, tail, target);
    DigitsOfVal(tail, target);
    ValIsWorth(r, target);
    ValIsWorth(ds, base);
  }

  lemma RebaseKeeps(ds: seq<nat>, base: nat, target: nat)
    requires base >= 2 && target >= 2
    ensures var r := Rebase(ds, base, target);
            LeadingZeros(r) == LeadingZeros(ds) && Worth(r, target) == Worth(ds, base)
  {
    var z, image := LeadingZeros(ds), Digits(Val(ds, base), target);
    ValOfZeros(z, image, target);
    ValOfDigits(Val(ds, base), target);
    LeadingZerosUnique(Zeros(z) + image, z);
    ValIsWorth(Rebase(ds, base, target), target);
    ValIsWorth(ds, base);
  }

  /**
   What the encoding is: the one string that begins with as many '1's as the bytes with zeros, and whose
   digits in the Bitcoin alphabet add up, by powers of 58, to what the bytes do by powers of 256.
   */
  lemma EncodeIff(b: seq<byte>, s: string)
    ensures s == Encode(b) <==>
              exists ds :: Spells(s, ds) && LeadingZeros(ds) == LeadingZeros(b) && Worth(ds, 58) == Worth(b, 256)
  {
    hide ALPHABET, Spells, Chars, Rebase;
    var r := Rebase(b, 256, 58);
    RebaseKeeps(b, 256, 58);
    SpellingIsChars(Chars(r), r);
    forall ds | Spells(s, ds) && LeadingZeros(ds) == LeadingZeros(b) && Worth(ds, 58) == Worth(b, 256)
      ensures s == Encode(b)
    {
      SpellingIsChars(s, ds);
      RebaseIsUnique(b, 256, ds, 58);
    }
  }

  lemma EncodeInjective(a: seq<byte>, b: seq<byte>)
    requires Encode(a) == Encode(b)
    ensures a == b
  {
    DecodeEncode(a);
    DecodeEncode(b);
  }

  // ---- the source's algorithm ----

  function Reverse<T>(s: seq<T>): (r: seq<T>)
    ensures |r| == |s|
    ensures forall i :: 0 <= i < |s| ==> r[i] == s[|s| - 1 - i]
  {
    if s == [] then [] else Reverse(s[1..]) + [s[0]]
  }

  method ReverseInPlace(a: array<char>)
    modifies a
    ensures a[..] == Reverse(old(a[..]))
  {
    var i, j := 0, a.Length - 1;
    while i < j
      invariant 0 <= i <= a.Length && i + j == a.Length - 1
      invariant forall k :: 0 <= k < i || j < k < a.Length ==> a[k] == old(a[a.Length - 1 - k])
      invariant forall k :: i <= k <= j ==> a[k] == old(a[k])
    {
      a[i], a[j] := a[j], a[i];
      i, j := i + 1, j - 1;
    }
  }

  lemma {:induction false} ReverseAppend<T>(s: seq<T>, t: seq<T>)
    ensures Reverse(s + t) == Reverse(t) + Reverse(s)
  {
    assert |Reverse(s + t)| == |Reverse(t) + Reverse(s)|;
  }

  /** One '1' per leading zero byte. */
  function Ones(z: nat): string {
    seq(z, _ => CharOf(0))
  }

  lemma OnesNext(z: nat)
    ensures Ones(0) == [] && Ones(z + 1) == Ones(z) + [CharOf(0)]
  {
  }

  lemma CharsOfZeros(z: nat, ds: seq<nat>)
    requires AreDigits(ds, 58)
    ensures Chars(Zeros(z) + ds) == Ones(z) + Chars(ds)
  {
  }

  lemma CharsSnoc(ds: seq<nat>, d: nat)
    requires AreDigits(ds, 58) && d < 58
    ensures Chars(ds + [d]) == Chars(ds) + [CharOf(d)]
  {
  }

  /** The base-58 digits of x, least significant first: the division loop. */
  method DivisionDigits(x0: nat) returns (out: seq<char>)
    ensures Reverse(out) == Chars(Digits(x0, 58))
  {
    var x := x0;
    out := [];
    while x > 0
      invariant Chars(Digits(x0, 58)) == Chars(Digits(x, 58)) + Reverse(out)
    {
      QuotientShrinks(x, 58);
      CharsSnoc(Digits(x / 58, 58), x % 58);
      ReverseAppend(out, [CharOf(x % 58)]);
      assert Chars(Digits(x, 58)) + Reverse(out) == Chars(Digits(x / 58, 58)) + Reverse(out + [CharOf(x % 58)]);
      out := out + [CharOf(x % 58)];
      x := x / 58;
    }
  }

  lemma EncodedIsReversed(b: seq<byte>, body: seq<char>)
    requires Reverse(body) == Chars(Digits(Val(b, 256), 58))
    ensures Reverse(body + Ones(LeadingZeros(b))) == Encode(b)
  {
    hide Val, Digits;
    var ones := Ones(LeadingZeros(b));
    ReverseAppend(body, ones);
    assert Reverse(ones) == ones;
    CharsOfZeros(LeadingZeros(b), Digits(Val(b, 256), 58));
  }

  /** Repeated division by 58, then one '1' per leading zero byte, then an in-place reversal. */
  method EncodeBytes(b: seq<byte>) returns (s: string)
    ensures s == Encode(b)
  {
    hide Val, Digits, Encode, Ones, Reverse, Chars, CharOf;
    var out := DivisionDigits(Val(b, 256));
    ghost var body := out;
    var i := 0;
    OnesNext(0);
    while i < |b| && b[i] == 0
      invariant 0 <= i <= LeadingZeros(b)
      invariant out == body + Ones(i)
    {
      OnesNext(i);
      out := out + [CharOf(0)];
      i := i + 1;
    }
    EncodedIsReversed(b, body);
    var chars := new char[|out|](k requires 0 <= k < |out| => out[k]);
    assert chars[..] == out;
    ReverseInPlace(chars);
    s := chars[..];
  }
}
