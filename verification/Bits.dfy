/**
 Exclusive or on naturals, so that words of any width can be mixed with wrap-around arithmetic.
 */
module Bits {

  type Byte = n: nat | n < 0x100
  type Half = n: nat | n < 0x1_0000
  type Word = n: nat | n < 0x1_0000_0000

  function Xor(a: nat, b: nat): nat
    decreases a + b
  {
    if a == 0 then b
    else if b == 0 then a
    else (a + b) % 2 + 2 * Xor(a / 2, b / 2)
  }

  function Pow2(n: nat): (p: nat)
    ensures p >= 1
  {
    if n == 0 then 1 else 2 * Pow2(n - 1)
  }

  lemma {:induction false} Pow2Sum(m: nat, n: nat)
    ensures Pow2(m + n) == Pow2(m) * Pow2(n)
  {
    if m != 0 {
      Pow2Sum(m - 1, n);
      assert 2 * (Pow2(m - 1) * Pow2(n)) == (2 * Pow2(m - 1)) * Pow2(n);
    }
  }

  lemma Pow2Word()
    ensures Pow2(8) == 0x100 && Pow2(16) == 0x1_0000 && Pow2(32) == 0x1_0000_0000
  {
    assert Pow2(4) == 16;
    Pow2Sum(4, 4);
    Pow2Sum(8, 8);
    Pow2Sum(16, 16);
  }

  lemma {:induction false} XorBelow(a: nat, b: nat, n: nat)
    requires a < Pow2(n) && b < Pow2(n)
    ensures Xor(a, b) < Pow2(n)
  {
    if a != 0 && b != 0 { XorBelow(a / 2, b / 2, n - 1); }
  }

  lemma {:induction false} XorCommutes(a: nat, b: nat)
    ensures Xor(a, b) == Xor(b, a)
    decreases a + b
  {
    if a != 0 && b != 0 { XorCommutes(a / 2, b / 2); }
  }

  lemma {:induction false} XorSelf(a: nat)
    ensures Xor(a, a) == 0
  {
    if a != 0 { XorSelf(a / 2); }
  }

  /** The lowest bit and the remaining bits, separately. */
  lemma XorHalves(a: nat, b: nat)
    ensures Xor(a, b) % 2 == (a + b) % 2 && Xor(a, b) / 2 == Xor(a / 2, b / 2)
  {
    if a == 0 || b == 0 { assert Xor(0, b / 2) == b / 2; }
  }

  lemma FromHalves(a: nat, b: nat)
    requires a % 2 == b % 2 && a / 2 == b / 2
    ensures a == b
  {}

  lemma ParityOfSum(s: nat, t: nat, c: nat)
    requires s % 2 == t % 2
    ensures (s + c) % 2 == (t + c) % 2
  {}

  lemma ParityTwice(s: nat, a: nat, b: nat)
    requires s % 2 == (a + b) % 2
    ensures (s + b) % 2 == a % 2
  {}

  /** Xor-ing twice with the same value changes nothing. */
  lemma {:induction false} XorTwice(a: nat, b: nat)
    ensures Xor(Xor(a, b), b) == a
    decreases a + b
  {
    if a == 0 {
      XorSelf(b);
    } else if b != 0 {
      hide Xor;
      XorTwice(a / 2, b / 2);
      XorHalves(a, b);
      XorHalves(Xor(a, b), b);
      ParityTwice(Xor(a, b), a, b);
      FromHalves(Xor(Xor(a, b), b), a);
    }
  }

  lemma XorCancels(a: nat, b: nat, c: nat)
    requires Xor(a, c) == Xor(b, c)
    ensures a == b
  {
    XorTwice(a, c);
    XorTwice(b, c);
  }

  lemma XorCancelsLeft(a: nat, b: nat, c: nat)
    requires Xor(c, a) == Xor(c, b)
    ensures a == b
  {
    XorCommutes(c, a);
    XorCommutes(c, b);
    XorCancels(a, b, c);
  }

  lemma {:induction false} XorAssociates(a: nat, b: nat, c: nat)
    ensures Xor(Xor(a, b), c) == Xor(a, Xor(b, c))
    decreases a + b + c
  {
    if a != 0 && b != 0 && c != 0 {
      hide Xor;
      XorAssociates(a / 2, b / 2, c / 2);
      XorParity(a, b, c);
      XorHalves(a, b);
      XorHalves(b, c);
      XorHalves(Xor(a, b), c);
      XorHalves(a, Xor(b, c));
      FromHalves(Xor(Xor(a, b), c), Xor(a, Xor(b, c)));
    }
  }

  lemma XorParity(a: nat, b: nat, c: nat)
    ensures Xor(Xor(a, b), c) % 2 == Xor(a, Xor(b, c)) % 2
  {
    var left, right := Xor(a, b), Xor(b, c);
    XorHalves(a, b);
    XorHalves(b, c);
    XorHalves(left, c);
    XorHalves(a, right);
    hide Xor;
    SumParities(a, b, c, left, right);
  }

  lemma SumParities(a: nat, b: nat, c: nat, left: nat, right: nat)
    requires left % 2 == (a + b) % 2 && right % 2 == (b + c) % 2
    ensures (left + c) % 2 == (a + right) % 2
  {
    ParityOfSum(left, a + b, c);
    ParityOfSum(right, b + c, a);
  }

  /** Numbers in base `2^n` are combined digit by digit. */
  lemma {:induction false} XorDigits(x: nat, a: nat, y: nat, b: nat, n: nat)
    requires a < Pow2(n) && b < Pow2(n)
    ensures Xor(Pow2(n) * x + a, Pow2(n) * y + b) == Pow2(n) * Xor(x, y) + Xor(a, b)
  {
    hide Xor;
    if n > 0 {
      var p := Pow2(n - 1);
      assert Pow2(n) == 2 * p;
      hide Pow2;
      XorDigits(x, a / 2, y, b / 2, n - 1);
      XorDoubled(p * x, a, p * y, b, p * Xor(x, y));
      TwiceProduct(p, x);
      TwiceProduct(p, y);
      TwiceProduct(p, Xor(x, y));
    } else {
      assert Xor(0, 0) == 0 by { XorSelf(0); }
    }
  }

  lemma TwiceProduct(p: nat, x: nat)
    ensures 2 * p * x == 2 * (p * x) && p * x >= 0
  {}

  lemma XorDoubled(x: nat, a: nat, y: nat, b: nat, z: nat)
    requires Xor(x + a / 2, y + b / 2) == z + Xor(a / 2, b / 2)
    ensures Xor(2 * x + a, 2 * y + b) == 2 * z + Xor(a, b)
  {
    hide Xor;
    XorHalves(a, b);
    XorHalves(2 * x + a, 2 * y + b);
    assert (2 * x + a) / 2 == x + a / 2 && (2 * y + b) / 2 == y + b / 2;
    assert (2 * x + a + (2 * y + b)) % 2 == (a + b) % 2;
    FromHalves(Xor(2 * x + a, 2 * y + b), 2 * z + Xor(a, b));
  }

  /** `a ^ b` on bytes. */
  function XorByte(a: Byte, b: Byte): Byte {
    Pow2Word();
    XorBelow(a, b, 8);
    Xor(a, b)
  }

  /** `a ^ b` on 16-bit words. */
  function XorHalf(a: Half, b: Half): Half {
    Pow2Word();
    XorBelow(a, b, 16);
    Xor(a, b)
  }

  /** `a ^ b` on 32-bit words. */
  function XorWord(a: Word, b: Word): Word {
    Pow2Word();
    XorBelow(a, b, 32);
    Xor(a, b)
  }

  /** `a | b`. */
  function Or(a: nat, b: nat): nat
    decreases a + b
  {
    if a == 0 then b
    else if b == 0 then a
    else (if a % 2 == 1 || b % 2 == 1 then 1 else 0) + 2 * Or(a / 2, b / 2)
  }

  lemma {:induction false} OrSelf(a: nat)
    ensures Or(a, a) == a
  {
    if a != 0 { OrSelf(a / 2); }
  }

  /** The request sequence after this one in the handshakes with the node; zero is never used. */
  function NextSequence(sequence: Word): (next: Word)
    ensures next != sequence && next != 0
  {
    var s := (sequence + 1) % 0x1_0000_0000;
    if s == 0 then 1 else s
  }

  // ------------------------------------------------------------------------------------------------------------
  // Little-endian numbers
  // ------------------------------------------------------------------------------------------------------------

  /** The `n` low bytes of a number, lowest first. */
  function Le(value: nat, n: nat): (bytes: seq<Byte>)
    ensures |bytes| == n
  {
    if n == 0 then [] else [value % 0x100] + Le(value / 0x100, n - 1)
  }

  lemma LeStep(value: nat, n: nat)
    requires n > 0
    ensures Le(value, n) == [value % 0x100] + Le(value / 0x100, n - 1)
  {}

  lemma LeNone(value: nat)
    ensures Le(value, 0) == []
  {}

  function FromLe(bytes: seq<Byte>): nat {
    if bytes == [] then 0 else bytes[0] + 0x100 * FromLe(bytes[1..])
  }

  lemma {:induction false} FromLeOfLe(value: nat, n: nat)
    requires value < Pow2(8 * n)
    ensures FromLe(Le(value, n)) == value
  {
    if n > 0 {
      Pow2Word();
      Pow2Sum(8, 8 * (n - 1));
      assert value / 0x100 < Pow2(8 * (n - 1));
      FromLeOfLe(value / 0x100, n - 1);
      assert Le(value, n)[1..] == Le(value / 0x100, n - 1);
    }
  }

  lemma Pow2Byte(n: nat)
    ensures Pow2(8 * (n + 1)) == 0x100 * Pow2(8 * n)
  {
    Pow2Word();
    Pow2Sum(8, 8 * n);
  }

  lemma FromLeStep(bytes: seq<Byte>)
    requires bytes != []
    ensures FromLe(bytes) == bytes[0] + 0x100 * FromLe(bytes[1..])
  {}

  lemma {:induction false} LeOfFromLe(bytes: seq<Byte>)
    ensures Le(FromLe(bytes), |bytes|) == bytes && FromLe(bytes) < Pow2(8 * |bytes|)
  {
    if bytes != [] {
      var rest, n := FromLe(bytes[1..]), |bytes| - 1;
      LeOfFromLe(bytes[1..]);
      FromLeStep(bytes);
      Pow2Byte(n);
      LowByte(bytes[0], rest);
      LeStep(FromLe(bytes), n + 1);
      hide FromLe, Le, Pow2;
      assert bytes == [bytes[0]] + bytes[1..] && 8 * |bytes| == 8 + 8 * n;
    }
  }

  lemma LowByte(b: Byte, rest: nat)
    ensures (b + 0x100 * rest) % 0x100 == b && (b + 0x100 * rest) / 0x100 == rest
  {}
}
