/** The hybrid signature's wire format: version byte, then two parts with 2-byte big-endian lengths. */
module HybridSignature {
  import opened Digests
  import opened Numerals
  import opened Wrappers

  const MAX_PART := 0xFFFF

  datatype Parts = Parts(classic: Bytes, pq: Bytes)

  function Be16(n: nat): (b: Bytes)
    requires n <= MAX_PART
    ensures |b| == 2
  {
    [n / 256, n % 256]
  }

  function ReadBe16(b: Bytes): nat
    requires |b| >= 2
  {
    var hi: nat, lo: nat := b[0], b[1];
    hi * 256 + lo
  }

  /** None when a part is too long for its length field. */
  function Encode(p: Parts): Option<Bytes> {
    if |p.classic| > MAX_PART || |p.pq| > MAX_PART then None
    else Some([1] + Be16(|p.classic|) + p.classic + Be16(|p.pq|) + p.pq)
  }

  /** A part with its length field at the front of b: the part and what follows it. */
  function TakePart(b: Bytes): Option<(Bytes, Bytes)> {
    if |b| < 2 || |b| - 2 < ReadBe16(b) then None
    else Some((b[2..2 + ReadBe16(b)], b[2 + ReadBe16(b)..]))
  }

  /** What decoding leaves in a receiver that held `was`, and whether it succeeded. */
  function DecodeInto(was: Parts, data: Bytes): (Parts, bool) {
    if |data| < 5 then (was, false)
    else
      var first := TakePart(data[1..]);
      if first.None? then (was, false)
      else
        var second := TakePart(first.value.1);
        if second.None? then (was.(classic := first.value.0), false)
        else (Parts(first.value.0, second.value.0), true)
  }

  function Decode(data: Bytes): Option<Parts> {
    var (p, ok) := DecodeInto(Parts([], []), data);
    if ok then Some(p) else None
  }

  lemma Be16RoundTrip(n: nat)
    requires n <= MAX_PART
    ensures ReadBe16(Be16(n)) == n
  {
  }

  lemma TakePartOf(part: Bytes, rest: Bytes)
    requires |part| <= MAX_PART
    ensures TakePart(Be16(|part|) + part + rest) == Some((part, rest))
  {
    var b := Be16(|part|) + part + rest;
    Be16RoundTrip(|part|);
    assert ReadBe16(b) == |part|;
    assert b[2..2 + |part|] == part && b[2 + |part|..] == rest;
  }

  /** Decoding an encoding, followed by anything, gives back both parts. */
  lemma DecodeEncode(p: Parts, trailing: Bytes)
    requires Encode(p).Some?
    ensures Decode(Encode(p).value + trailing) == Some(p)
  {
    var data := Encode(p).value + trailing;
    assert data[1..] == Be16(|p.classic|) + p.classic + (Be16(|p.pq|) + p.pq + trailing);
    TakePartOf(p.classic, Be16(|p.pq|) + p.pq + trailing);
    TakePartOf(p.pq, trailing);
  }

  lemma TakePartInverse(b: Bytes)
    requires TakePart(b).Some?
    ensures var (part, rest) := TakePart(b).value;
            |part| <= MAX_PART && b == Be16(|part|) + part + rest
  {
    var n := ReadBe16(b);
    assert Be16(n) == [b[0], b[1]] == b[..2];
    assert b == b[..2] + b[2..2 + n] + b[2 + n..];
  }

  /**
   Exactly the byte strings that start with some version byte and two well-formed parts decode; the
   version byte is not looked at and bytes after the second part are ignored.
   */
  lemma DecodesIff(data: Bytes)
    ensures Decode(data).Some? <==>
              exists p, v: byte, trailing :: Encode(p).Some? && data == [v] + Encode(p).value[1..] + trailing
  {
    if Decode(data).Some? {
      var trailing := DecodedShape(data);
      var p, v := Decode(data).value, data[0];
      assert Encode(p).Some? && data == [v] + Encode(p).value[1..] + trailing;
    }
    hide Decode, Encode;
    forall p, v: byte, trailing | Encode(p).Some? && data == [v] + Encode(p).value[1..] + trailing
      ensures Decode(data).Some?
    {
      VersionIgnored(p, v, trailing);
    }
  }

  lemma VersionIgnored(p: Parts, v: byte, trailing: Bytes)
    requires Encode(p).Some?
    ensures Decode([v] + Encode(p).value[1..] + trailing) == Some(p)
  {
    hide Decode, Encode;
    EncodeTail(p);
    DecodeEncode(p, trailing);
    assert (Encode(p).value + trailing)[1..] == ([v] + Encode(p).value[1..] + trailing)[1..];
    FirstByteUnread(Encode(p).value + trailing, [v] + Encode(p).value[1..] + trailing);
  }

  lemma FirstByteUnread(a: Bytes, b: Bytes)
    requires |a| == |b| > 0 && a[1..] == b[1..]
    ensures Decode(a) == Decode(b)
  {
    hide TakePart;
  }

  lemma EncodeTail(p: Parts)
    ensures Encode(p).Some? <==> |p.classic| <= MAX_PART && |p.pq| <= MAX_PART
    ensures Encode(p).Some? ==>
              Encode(p).value == [1] + (Be16(|p.classic|) + p.classic + (Be16(|p.pq|) + p.pq))
  {
    hide Be16;
  }

  lemma DecodeParts(data: Bytes)
    requires Decode(data).Some?
    ensures |data| > 0 && TakePart(data[1..]).Some? && TakePart(TakePart(data[1..]).value.1).Some?
    ensures var first := TakePart(data[1..]).value;
            Decode(data).value == Parts(first.0, TakePart(first.1).value.0)
  {
    hide TakePart;
  }

  lemma Regroup(a: Bytes, b: Bytes, c: Bytes, d: Bytes, e: Bytes)
    ensures a + b + (c + d + e) == ([1] + (a + b + (c + d)))[1..] + e
  {
  }

  /** What decodes is a version byte, the two encoded parts, and some trailing bytes. */
  lemma DecodedShape(data: Bytes) returns (trailing: Bytes)
    requires Decode(data).Some?
    ensures Encode(Decode(data).value).Some?
    ensures |data| > 0 && data == [data[0]] + Encode(Decode(data).value).value[1..] + trailing
  {
    hide Decode, Encode, TakePart, Be16;
    var p := Decode(data).value;
    DecodeParts(data);
    var first := TakePart(data[1..]).value;
    TakePartInverse(data[1..]);
    TakePartInverse(first.1);
    EncodeTail(p);
    trailing := TakePart(first.1).value.1;
    assert data == [data[0]] + data[1..];
    Regroup(Be16(|p.classic|), p.classic, Be16(|p.pq|), p.pq, trailing);
  }

  /** So re-encoding restores the input exactly when its version byte is 1 and nothing trails. */
  lemma ReencodeIff(data: Bytes)
    requires Decode(data).Some?
    ensures Encode(Decode(data).value).Some?
    ensures Encode(Decode(data).value).value == data <==>
              data[0] == 1 && |data| == 5 + |Decode(data).value.classic| + |Decode(data).value.pq|
  {
    var trailing := DecodedShape(data);
    var p := Decode(data).value;
    assert |Encode(p).value| == 5 + |p.classic| + |p.pq| && Encode(p).value[0] == 1;
    if data[0] == 1 && trailing == [] {
      assert Encode(p).value == [1] + Encode(p).value[1..];
    }
  }

  /** The first part's length field says it fits. */
  predicate FirstPartFits(data: Bytes) {
    |data| >= 5 && 3 + 256 * data[1] as int + data[2] as int <= |data|
  }

  /**
   What a failed decoding leaves behind: the receiver as it was, except that its first part is already
   replaced when that one fits and the second does not.
   */
  lemma FailedDecoding(was: Parts, data: Bytes)
    ensures var (left, ok) := DecodeInto(was, data);
            && (ok <==> Decode(data).Some?) && (ok ==> left == Decode(data).value)
            && (!ok ==> left == if FirstPartFits(data)
                                then was.(classic := data[3..3 + 256 * data[1] as int + data[2] as int]) else was)
  {
    if |data| >= 5 {
      var b := data[1..];
      assert b[0] == data[1] && b[1] == data[2];
      var n := ReadBe16(b);
      if n + 3 <= |data| { assert b[2..2 + n] == data[3..3 + n]; }
    }
  }

  /** The signature object; UnmarshalBinary fills it in and may stop after the first part. */
  class Signature {
    var classicSig: Bytes
    var pqSig: Bytes

    ghost function View(): Parts
      reads this
    {
      Parts(classicSig, pqSig)
    }

    constructor (classic: Bytes, pq: Bytes)
      ensures View() == Parts(classic, pq)
    {
      classicSig := classic;
      pqSig := pq;
    }

    method MarshalBinary() returns (r: Option<Bytes>)
      ensures r == Encode(View())
    {
      if |classicSig| > MAX_PART || |pqSig| > MAX_PART {
        return None;
      }
      var buf: Bytes := [1];
      buf := buf + [|classicSig| / 256] + [|classicSig| % 256];
      buf := buf + classicSig;
      buf := buf + [|pqSig| / 256] + [|pqSig| % 256];
      buf := buf + pqSig;
      assert buf == Encode(View()).value;
      r := Some(buf);
    }

    method UnmarshalBinary(input: Bytes) returns (ok: bool)
      modifies this
      ensures (View(), ok) == DecodeInto(old(View()), input)
    {
      if |input| < 5 {
        return false;
      }
      var data := input[1..];
      var classicLen := ReadBe16(data);
      ghost var start := data;
      data := data[2..];
      if |data| < classicLen {
        return false;
      }
      classicSig := data[..classicLen];
      data := data[classicLen..];
      assert TakePart(start) == Some((classicSig, data)) by {
        assert start[2..2 + classicLen] == classicSig && start[2 + classicLen..] == data;
      }
      if |data| < 2 {
        return false;
      }
      var pqLen := ReadBe16(data);
      ghost var middle := data;
      data := data[2..];
      if |data| < pqLen {
        return false;
      }
      pqSig := data[..pqLen];
      assert middle[2..2 + pqLen] == pqSig;
      ok := true;
    }
  }
}
