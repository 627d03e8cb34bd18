/**
 UTF-8 as the reply stream sees it.  `Encode` is the encoding of section 3 of
 RFC 3629.  `DecodeRune` is the decoder the stream callback calls: a lead-byte
 table that gives the length of the sequence and the range of its second byte.
 The lemmas connect the two in both directions.
 */
module Utf8 {
  import opened Basics

  const RUNE_ERROR := 0xFFFD

  /** What the decoder returns: the code point and the number of bytes it covers. */
  datatype Rune = Rune(cp: int, size: nat)

  // ---------- Section 3 of RFC 3629 ----------

  /** A Unicode scalar value: a code point that is not a surrogate. */
  predicate IsScalar(cp: int) {
    0 <= cp < 0xD800 || 0xE000 <= cp < 0x110000
  }

  function Encode(cp: int): (s: seq<Byte>)
    requires IsScalar(cp)
    ensures 1 <= |s| <= 4
  {
    if cp < 0x80 then [cp]
    else if cp < 0x800 then [0xC0 + cp / 64, 0x80 + cp % 64]
    else if cp < 0x10000 then [0xE0 + cp / 64 / 64, 0x80 + cp / 64 % 64, 0x80 + cp % 64]
    else [0xF0 + cp / 64 / 64 / 64, 0x80 + cp / 64 / 64 % 64, 0x80 + cp / 64 % 64, 0x80 + cp % 64]
  }

  function EncodeAll(cps: seq<int>): seq<Byte>
    requires forall cp | cp in cps :: IsScalar(cp)
  {
    if cps == [] then [] else Encode(cps[0]) + EncodeAll(cps[1..])
  }

  // ---------- The decoder ----------

  /** Length of the sequence a lead byte announces; 0 for a byte that cannot lead. */
  function SequenceLength(b: Byte): nat {
    if b < 0x80 then 1
    else if b < 0xC2 then 0
    else if b < 0xE0 then 2
    else if b < 0xF0 then 3
    else if b < 0xF5 then 4
    else 0
  }

  /** The second byte depends on the lead byte: no overlong form, surrogate or value above U+10FFFF. */
  predicate SecondAccepted(b0: Byte, b1: Byte) {
    var lo := if b0 == 0xE0 then 0xA0 else if b0 == 0xF0 then 0x90 else 0x80;
    var hi := if b0 == 0xED then 0x9F else if b0 == 0xF4 then 0x8F else 0xBF;
    lo <= b1 <= hi
  }

  predicate IsTail(b: Byte) {
    0x80 <= b <= 0xBF
  }

  /** Appends the six payload bits of a tail byte to the bits read so far. */
  function Join(high: int, tail: int): int {
    high * 64 + tail % 64
  }

  function DecodeRune(p: seq<Byte>): Rune {
    if p == [] then Rune(RUNE_ERROR, 0)
    else
      var n := SequenceLength(p[0]);
      if n == 0 then Rune(RUNE_ERROR, 1)
      else if n == 1 then Rune(p[0], 1)
      else if |p| < n || !SecondAccepted(p[0], p[1]) then Rune(RUNE_ERROR, 1)
      else if n == 2 then Rune(Join(p[0] % 32, p[1]), 2)
      else if !IsTail(p[2]) then Rune(RUNE_ERROR, 1)
      else if n == 3 then Rune(Join(Join(p[0] % 16, p[1]), p[2]), 3)
      else if !IsTail(p[3]) then Rune(RUNE_ERROR, 1)
      else Rune(Join(Join(Join(p[0] % 8, p[1]), p[2]), p[3]), 4)
  }

  /** The decoder reads back every encoded scalar value, whatever follows it. */
  lemma DecodeReadsEncode(cp: int, rest: seq<Byte>)
    requires IsScalar(cp)
    ensures DecodeRune(Encode(cp) + rest) == Rune(cp, |Encode(cp)|)
  {
    var e := Encode(cp);
    DecodeReadsExact(cp);
    assert forall k | 0 <= k < |e| :: (e + rest)[k] == e[k];
  }

  lemma DecodeReadsExact(cp: int)
    requires IsScalar(cp)
    ensures DecodeRune(Encode(cp)) == Rune(cp, |Encode(cp)|)
    ensures SequenceLength(Encode(cp)[0]) == |Encode(cp)|
  {
    var e := Encode(cp);
    if 0x80 <= cp < 0x800 {
      assert e[0] % 32 == cp / 64;
      Tail(cp);
    } else if 0x800 <= cp < 0x10000 {
      assert e[0] % 16 == cp / 64 / 64;
      Tail(cp / 64);
      Tail(cp);
    } else if 0x10000 <= cp {
      assert e[0] % 8 == cp / 64 / 64 / 64;
      Tail(cp / 64 / 64);
      Tail(cp / 64);
      Tail(cp);
    }
  }

  /** What the decoder accepts is an encoding: the table admits nothing else. */
  lemma DecodeIsEncode(p: seq<Byte>)
    requires DecodeRune(p).cp != RUNE_ERROR
    ensures 1 <= DecodeRune(p).size <= |p| && IsScalar(DecodeRune(p).cp)
    ensures Encode(DecodeRune(p).cp) == p[..DecodeRune(p).size]
  {
    var n := SequenceLength(p[0]);
    if n == 2 {
      TwoByteForm(p[0], p[1]);
    } else if n == 3 {
      ThreeByteForm(p[0], p[1], p[2]);
    } else if n == 4 {
      FourByteForm(p[0], p[1], p[2], p[3]);
    }
  }

  lemma TwoByteForm(b0: Byte, b1: Byte)
    requires SequenceLength(b0) == 2 && SecondAccepted(b0, b1)
    ensures var cp := Join(b0 % 32, b1); IsScalar(cp) && Encode(cp) == [b0, b1]
  {
    TailBack(b0 % 32, b1);
    assert b0 == 0xC0 + b0 % 32;
  }

  lemma ThreeByteForm(b0: Byte, b1: Byte, b2: Byte)
    requires SequenceLength(b0) == 3 && SecondAccepted(b0, b1) && IsTail(b2)
    ensures var cp := Join(Join(b0 % 16, b1), b2); IsScalar(cp) && Encode(cp) == [b0, b1, b2]
  {
    var h := Join(b0 % 16, b1);
    TailBack(b0 % 16, b1);
    TailBack(h, b2);
    assert b0 == 0xE0 + b0 % 16;
  }

  lemma FourByteForm(b0: Byte, b1: Byte, b2: Byte, b3: Byte)
    requires SequenceLength(b0) == 4 && SecondAccepted(b0, b1) && IsTail(b2) && IsTail(b3)
    ensures var cp := Join(Join(Join(b0 % 8, b1), b2), b3); IsScalar(cp) && Encode(cp) == [b0, b1, b2, b3]
  {
    var h := Join(b0 % 8, b1);
    TailBack(b0 % 8, b1);
    TailBack(h, b2);
    TailBack(Join(h, b2), b3);
    assert b0 == 0xF0 + b0 % 8;
  }

  lemma Tail(cp: nat)
    ensures Join(cp / 64, 0x80 + cp % 64) == cp
  {
  }

  lemma TailBack(high: nat, tail: Byte)
    requires IsTail(tail)
    ensures Join(high, tail) / 64 == high && 0x80 + Join(high, tail) % 64 == tail
  {
  }

  /** The decoder refuses with the error rune: of size 0 for no bytes, of size 1 otherwise, unless the bytes are U+FFFD itself. */
  lemma DecodeRefuses(p: seq<Byte>)
    requires DecodeRune(p).cp == RUNE_ERROR
    ensures DecodeRune(p).size == if p == [] then 0 else if [0xEF, 0xBF, 0xBD] <= p then 3 else 1
  {
    if p != [] {
      var n := SequenceLength(p[0]);
      if n == 2 && |p| >= 2 && SecondAccepted(p[0], p[1]) {
        TwoByteForm(p[0], p[1]);
      } else if n == 3 && |p| >= 3 && SecondAccepted(p[0], p[1]) && IsTail(p[2]) {
        ThreeByteForm(p[0], p[1], p[2]);
        assert p[..3] == [p[0], p[1], p[2]];
      } else if n == 4 && |p| >= 4 && SecondAccepted(p[0], p[1]) && IsTail(p[2]) && IsTail(p[3]) {
        FourByteForm(p[0], p[1], p[2], p[3]);
      }
    }
  }

  /** A rune that decodes still decodes, to the same rune, when more bytes arrive. */
  lemma DecodeIsStable(p: seq<Byte>, more: seq<Byte>)
    requires DecodeRune(p).cp != RUNE_ERROR
    ensures DecodeRune(p + more) == DecodeRune(p)
  {
    assert forall k | 0 <= k < |p| :: (p + more)[k] == p[k];
  }

  /** Four bytes settle the answer of the decoder. */
  lemma DecodeIsLocal(p: seq<Byte>, more: seq<Byte>)
    requires |p| >= 4
    ensures DecodeRune(p + more) == DecodeRune(p)
  {
    assert forall k | 0 <= k < |p| :: (p + more)[k] == p[k];
  }
}
