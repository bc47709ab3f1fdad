/**
 The CRC16-CCITT of SRDO profiles and raw EEPROM regions: the bit loop is division by x^16 + x^12 + x^5 + 1 over
 GF(2), and what that says about the profiles it protects.
 */
module Crc {
  import opened Bits
  import opened Gf2

  // ------------------------------------------------------------------------------------------------------------
  // The register
  // ------------------------------------------------------------------------------------------------------------

  /** One turn of the bit loop: `crc << 1`, with 0x1021 when a bit falls out. */
  function Shift(crc: Half): Half {
    if crc >= 0x8000 then XorHalf(2 * crc - 0x1_0000, 0x1021) else 2 * crc
  }

  function Shifts(crc: Half, n: nat): Half {
    if n == 0 then crc else Shift(Shifts(crc, n - 1))
  }

  function ByteStep(crc: Half, byte: Byte): Half {
    Shifts(XorHalf(crc, byte * 0x100), 8)
  }

  function Fold(crc: Half, data: seq<Byte>): Half {
    if data == [] then crc else ByteStep(Fold(crc, data[..|data| - 1]), data[|data| - 1])
  }

  lemma FoldNone(crc: Half)
    ensures Fold(crc, []) == crc
  {}

  /** `crc16CcittByte`. */
  method AppendByte(crc0: Half, byte: Byte) returns (crc: Half)
    ensures crc == Fold(crc0, [byte])
  {
    crc := XorHalf(crc0, byte * 0x100);
    var bit := 0;
    while bit < 8
      invariant bit <= 8 && crc == Shifts(XorHalf(crc0, byte * 0x100), bit)
    {
      crc := if crc >= 0x8000 then XorHalf(2 * crc - 0x1_0000, 0x1021) else 2 * crc;
      bit := bit + 1;
    }
    assert [byte][..0] == [];
  }

  /** `crc16Ccitt`. */
  method Checksum(data: seq<Byte>) returns (crc: Half)
    ensures crc == Fold(0, data)
  {
    crc := 0;
    var i := 0;
    while i < |data|
      invariant i <= |data| && crc == Fold(0, data[..i])
    {
      crc := AppendByte(crc, data[i]);
      FoldConcat(0, data[..i], [data[i]]);
      assert data[..i + 1] == data[..i] + [data[i]];
      i := i + 1;
    }
    assert data[..i] == data;
  }

  /** The checksum of a concatenation continues from the checksum of its first part. */
  lemma {:induction false} FoldConcat(crc: Half, a: seq<Byte>, b: seq<Byte>)
    ensures Fold(crc, a + b) == Fold(Fold(crc, a), b)
  {
    if b == [] {
      assert a + b == a;
    } else {
      var m := |b| - 1;
      FoldConcat(crc, a, b[..m]);
      assert (a + b)[..|a + b| - 1] == a + b[..m];
    }
  }

  // ------------------------------------------------------------------------------------------------------------
  // The polynomial
  // ------------------------------------------------------------------------------------------------------------

  /** The message polynomial: the first byte holds the highest coefficients. */
  function Message(data: seq<Byte>): nat {
    if data == [] then 0 else 0x100 * Message(data[..|data| - 1]) + data[|data| - 1]
  }

  /** What `Shift` drops and adds is the generator. */
  lemma Overflow(x: Half)
    ensures Xor(XorHalf(x, 0x1021), 0x1_0000 + x) == CCITT
  {
    hide Xor;
    Pow2Word();
    assert Pow2(16) == 0x1_0000;
    hide Pow2;
    assert Xor(x, 0x1_0000 + x) == 0x1_0000 by {
      XorDigits(0, x, 1, x, 16);
      XorZero(1);
      XorSelf(x);
    }
    assert Xor(0x1021, 0x1_0000) == CCITT by {
      XorDigits(0, 0x1021, 1, 0, 16);
      XorZero(1);
      XorZero(0x1021);
    }
    XorCommutes(x, 0x1021);
    XorAssociates(0x1021, x, 0x1_0000 + x);
  }

  lemma ShiftCongruent(crc: Half)
    ensures Congruent(Shift(crc), 2 * crc)
  {
    hide Xor;
    if crc >= 0x8000 {
      Overflow(2 * crc - 0x1_0000);
      assert Times(1, CCITT) == CCITT by { XorZero(CCITT); }
    } else {
      XorSelf(2 * crc);
      ZeroMultiple();
    }
  }

  lemma {:induction false} ShiftsCongruent(crc: Half, n: nat)
    ensures Congruent(Shifts(crc, n), Pow2(n) * crc)
  {
    hide Congruent, Xor, Shift;
    if n == 0 {
      SelfCongruent(crc);
      assert Pow2(0) * crc == crc;
    } else {
      var c, p := Shifts(crc, n - 1), Pow2(n - 1);
      ShiftsCongruent(crc, n - 1);
      DoubledCongruent(c, p, crc);
    }
  }

  lemma SelfCongruent(x: nat)
    ensures Congruent(x, x)
  {
    XorSelf(x);
    ZeroMultiple();
  }

  lemma DoubledCongruent(c: Half, p: nat, crc: Half)
    requires p * crc >= 0 && 2 * p * crc >= 0 && Congruent(c, p * crc)
    ensures Congruent(Shift(c), 2 * p * crc)
  {
    hide Congruent, Xor, Shift;
    assert Pow2(1) == 2;
    CongruentShifted(c, p * crc, 1);
    ShiftCongruent(c);
    TwiceProduct(p, crc);
    CongruentChain(Shift(c), 2 * c, 2 * (p * crc));
  }

  /** Appending a byte multiplies the message by x^8 and adds the byte. */
  lemma ByteStepCongruent(crc: Half, message: nat, byte: Byte)
    requires Congruent(crc, 0x1_0000 * message)
    ensures Congruent(ByteStep(crc, byte), 0x1_0000 * (0x100 * message + byte))
  {
    hide Xor, Congruent, Shifts;
    var z := 0x100 * byte;
    Pow2Word();
    ShiftsCongruent(XorHalf(crc, z), 8);
    CongruentAdd(crc, 0x1_0000 * message, z);
    XorDigits(message, 0, 0, z, 16);
    XorCommutes(message, 0);
    XorCommutes(0, z);
    XorZero(message);
    XorZero(z);
    CongruentShifted(Xor(crc, z), 0x1_0000 * message + z, 8);
    CongruentChain(ByteStep(crc, byte), 0x100 * Xor(crc, z), 0x1_0000 * (0x100 * message + byte));
  }

  /** The checksum is the remainder of message * x^16 modulo the generator, and the only one. */
  lemma {:induction false} ChecksumIsRemainder(data: seq<Byte>)
    ensures Congruent(Fold(0, data), 0x1_0000 * Message(data))
    ensures forall r: Half :: Congruent(r, 0x1_0000 * Message(data)) ==> r == Fold(0, data)
  {
    if data == [] {
      XorZero(0);
      ZeroMultiple();
    } else {
      var m := |data| - 1;
      ChecksumIsRemainder(data[..m]);
      ByteStepCongruent(Fold(0, data[..m]), Message(data[..m]), data[m]);
    }
    forall r: Half | Congruent(r, 0x1_0000 * Message(data)) ensures r == Fold(0, data) {
      CongruentSwap(Fold(0, data), 0x1_0000 * Message(data));
      CongruentChain(r, 0x1_0000 * Message(data), Fold(0, data));
      RemainderUnique(r, Fold(0, data));
    }
  }

  /** Two messages share a checksum exactly when the generator divides their difference. */
  lemma CollisionIff(a: seq<Byte>, b: seq<Byte>)
    ensures Fold(0, a) == Fold(0, b) <==> Multiple(Xor(Message(a), Message(b)))
  {
    hide Fold, Xor, Message;
    var x, y := 0x1_0000 * Message(a), 0x1_0000 * Message(b);
    Pow2Word();
    ChecksumIsRemainder(a);
    ChecksumIsRemainder(b);
    CongruentShifted(Message(a), Message(b), 16);
    assert Congruent(x, y) <==> Multiple(Xor(Message(a), Message(b)));
    if Fold(0, a) == Fold(0, b) {
      CongruentSwap(Fold(0, a), x);
      CongruentChain(x, Fold(0, a), y);
    }
    if Congruent(x, y) {
      CongruentChain(Fold(0, a), x, y);
    }
  }

  /** A burst of at most sixteen bits, wherever it starts, always changes the checksum. */
  lemma BurstDetected(a: seq<Byte>, b: seq<Byte>, burst: nat, position: nat)
    requires 0 < burst < 0x1_0000 && Xor(Message(a), Message(b)) == Pow2(position) * burst
    ensures Fold(0, a) != Fold(0, b)
  {
    CollisionIff(a, b);
    ShiftedMultiple(burst, position);
    if Multiple(burst) { ShortMultiple(burst); }
  }

  lemma {:induction false} MessageConcat(a: seq<Byte>, b: seq<Byte>)
    ensures Message(a + b) == Pow2(8 * |b|) * Message(a) + Message(b)
    ensures Message(b) < Pow2(8 * |b|)
  {
    if b == [] {
      assert a + b == a;
    } else {
      var m := |b| - 1;
      assert (a + b)[..|a + b| - 1] == a + b[..m] && (a + b)[|a + b| - 1] == b[m];
      assert Message(a + b) == 0x100 * Message(a + b[..m]) + b[m];
      assert Message(b) == 0x100 * Message(b[..m]) + b[m];
      MessageConcat(a, b[..m]);
      hide Message, Pow2;
      Pow2Word();
      Pow2Sum(8, 8 * m);
      Scaled(Pow2(8 * m), Message(a));
      assert 8 * |b| == 8 + 8 * m;
    }
  }

  lemma Scaled(p: nat, x: nat)
    ensures 0x100 * (p * x) == (0x100 * p) * x
  {}

  lemma {:induction false} MessageInjective(a: seq<Byte>, b: seq<Byte>)
    requires |a| == |b| && Message(a) == Message(b)
    ensures a == b
  {
    if a != [] {
      var m := |a| - 1;
      MessageInjective(a[..m], b[..m]);
      assert a == a[..m] + [a[m]] && b == b[..m] + [b[m]];
    }
  }

  /** The difference of two messages that agree outside a window is the difference of the window, shifted. */
  lemma WindowDifference(head: seq<Byte>, x: seq<Byte>, y: seq<Byte>, tail: seq<Byte>)
    requires |x| == |y|
    ensures Xor(Message(head + x + tail), Message(head + y + tail))
         == Pow2(8 * |tail|) * Xor(Message(x), Message(y))
  {
    hide Xor, Message, Pow2;
    MessageConcat(head + x, tail);
    MessageConcat(head + y, tail);
    MessageConcat(head, x);
    MessageConcat(head, y);
    XorDigits(Message(head + x), Message(tail), Message(head + y), Message(tail), 8 * |tail|);
    XorDigits(Message(head), Message(x), Message(head), Message(y), 8 * |x|);
    XorSelf(Message(tail));
    XorSelf(Message(head));
  }

  /** Cut two byte strings around the window in which they differ. */
  lemma Cut(a: seq<Byte>, b: seq<Byte>, i: nat)
    returns (head: seq<Byte>, x: seq<Byte>, y: seq<Byte>, tail: seq<Byte>)
    requires |a| == |b| && a != b
    requires forall k: nat | k < |a| && a[k] != b[k] :: i <= k < i + 2
    ensures |x| == |y| <= 2 && x != y && a == head + x + tail && b == head + y + tail
  {
    var end := if i + 2 <= |a| then i + 2 else |a|;
    var start := if i <= end then i else end;
    head, x, y, tail := a[..start], a[start..end], b[start..end], a[end..];
    assert b[..start] == head && b[end..] == tail;
    assert a == a[..start] + a[start..end] + a[end..];
    assert b == b[..start] + b[start..end] + b[end..];
  }

  /** Byte strings that differ only inside two adjacent bytes never share a checksum. */
  lemma TwoBytesDetected(a: seq<Byte>, b: seq<Byte>, i: nat)
    requires |a| == |b| && a != b
    requires forall k: nat | k < |a| && a[k] != b[k] :: i <= k < i + 2
    ensures Fold(0, a) != Fold(0, b)
  {
    hide Fold, Message, Xor, Pow2;
    var head, x, y, tail := Cut(a, b, i);
    WindowDifference(head, x, y, tail);
    WindowBounds(x, y);
    BurstDetected(a, b, Xor(Message(x), Message(y)), 8 * |tail|);
  }

  lemma MessageShort(x: seq<Byte>)
    requires |x| <= 2
    ensures Message(x) < 0x1_0000
  {
    if |x| == 2 { assert Message(x[..1]) == 0x100 * Message(x[..1][..0]) + x[0]; }
  }

  lemma WindowBounds(x: seq<Byte>, y: seq<Byte>)
    requires |x| == |y| <= 2 && x != y
    ensures 0 < Xor(Message(x), Message(y)) < 0x1_0000
  {
    MessageShort(x);
    MessageShort(y);
    Pow2Word();
    hide Pow2, Xor, Message;
    XorBelow(Message(x), Message(y), 16);
    if Xor(Message(x), Message(y)) == 0 {
      XorSelf(Message(y));
      XorCancels(Message(x), Message(y), Message(y));
      MessageInjective(x, y);
    }
  }

  /** Three adjacent bytes are enough for a collision: the generator itself, in any place. */
  lemma ThreeBytesCollide(head: seq<Byte>, tail: seq<Byte>)
    ensures Fold(0, head + [0x01, 0x10, 0x21] + tail) == Fold(0, head + [0, 0, 0] + tail)
  {
    var x: seq<Byte>, y: seq<Byte> := [0x01, 0x10, 0x21], [0, 0, 0];
    assert x[..2] == [0x01, 0x10] && x[..2][..1] == [0x01] && x[..1][..0] == [];
    assert y[..2] == [0, 0] && y[..2][..1] == [0] && y[..1][..0] == [];
    assert Message([0x01]) == 1 && Message([0x01, 0x10]) == 0x110 && Message(x) == CCITT;
    assert Message([0]) == 0 && Message([0, 0]) == 0 && Message(y) == 0;
    WindowDifference(head, x, y, tail);
    XorZero(CCITT);
    assert Times(1, CCITT) == CCITT;
    ShiftedMultiple(CCITT, 8 * |tail|);
    CollisionIff(head + x + tail, head + y + tail);
  }
}
