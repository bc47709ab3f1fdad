/**
 The deterministic payloads and the FNV-1a checksum of the SDO block and SDO client tests, on 32-bit words.
 */
module Payloads {
  import opened Bits

  const FNV_OFFSET: Word := 2166136261
  const PATTERN_SEED: Word := 0xB02A_5A5A

  // ------------------------------------------------------------------------------------------------------------
  // Payloads
  // ------------------------------------------------------------------------------------------------------------

  /** The low byte of `seed >> (8 * k)`. */
  function SeedByte(seed: Word, k: nat): Byte
    requires k < 4
  {
    if k == 0 then seed % 0x100
    else if k == 1 then seed / 0x100 % 0x100
    else if k == 2 then seed / 0x1_0000 % 0x100
    else seed / 0x100_0000
  }

  /** `patternByte`. */
  function PatternByte(seed: Word, offset: nat): Byte {
    XorByte(SeedByte(seed, offset % 4), offset % 0x100)
  }

  function Pattern(size: nat, seed: Word): (payload: seq<Byte>)
    ensures |payload| == size
  {
    seq(size, i requires 0 <= i < size => PatternByte(seed, i))
  }

  /** `makePayload`. */
  method MakePayload(size: nat, seed: Word) returns (payload: array<Byte>)
    ensures fresh(payload) && payload[..] == Pattern(size, seed)
  {
    payload := new Byte[size];
    var i := 0;
    while i < size
      invariant 0 <= i <= size
      invariant forall k | 0 <= k < i :: payload[k] == PatternByte(seed, k)
    {
      payload[i] := PatternByte(seed, i);
      i := i + 1;
    }
  }

  lemma SeedBytes(s: Word)
    ensures s == SeedByte(s, 0) + 0x100 * (SeedByte(s, 1) + 0x100 * (SeedByte(s, 2) + 0x100 * SeedByte(s, 3)))
  {
    var a := s / 0x100;
    var b := a / 0x100;
    assert s / 0x1_0000 == b;
    assert s / 0x100_0000 == b / 0x100;
  }

  /** From four bytes on, a payload determines its seed. */
  lemma PatternInjective(size: nat, s: Word, t: Word)
    requires size >= 4 && Pattern(size, s) == Pattern(size, t)
    ensures s == t
  {
    PatternSeedByte(size, s, t, 0);
    PatternSeedByte(size, s, t, 1);
    PatternSeedByte(size, s, t, 2);
    PatternSeedByte(size, s, t, 3);
    SeedBytes(s);
    SeedBytes(t);
  }

  lemma PatternSeedByte(size: nat, s: Word, t: Word, k: nat)
    requires k < 4 <= size && Pattern(size, s) == Pattern(size, t)
    ensures SeedByte(s, k) == SeedByte(t, k)
  {
    hide SeedByte, Xor;
    assert Pattern(size, s)[k] == Pattern(size, t)[k];
    XorCancels(SeedByte(s, k), SeedByte(t, k), k);
  }

  /** Below four bytes it does not: the top byte of the seed never shows. */
  lemma ShortPatternsCollide(size: nat)
    requires size < 4
    ensures Pattern(size, 0) == Pattern(size, 0x100_0000)
  {
    hide XorByte;
    assert SeedByte(0, 0) == SeedByte(0x100_0000, 0) && SeedByte(0, 1) == SeedByte(0x100_0000, 1);
    assert SeedByte(0, 2) == SeedByte(0x100_0000, 2);
    forall i: nat | i < size ensures PatternByte(0, i) == PatternByte(0x100_0000, i) {
      assert i == 0 || i == 1 || i == 2;
    }
  }

  /** The seed of one iteration of `runStressCase`. */
  function StressSeed(iteration: nat): Word
    requires iteration < 100
  {
    XorWord(PATTERN_SEED, 0x1100_0000 + iteration * 0x0101_0101)
  }

  /** No two iterations transfer the same payload. */
  lemma StressPayloadsDiffer(size: nat, i: nat, j: nat)
    requires size >= 4 && i < 100 && j < 100 && i != j
    ensures Pattern(size, StressSeed(i)) != Pattern(size, StressSeed(j))
  {
    if Pattern(size, StressSeed(i)) == Pattern(size, StressSeed(j)) {
      PatternInjective(size, StressSeed(i), StressSeed(j));
      XorCancelsLeft(0x1100_0000 + i * 0x0101_0101, 0x1100_0000 + j * 0x0101_0101, PATTERN_SEED);
    }
  }

  // ------------------------------------------------------------------------------------------------------------
  // Checksum
  // ------------------------------------------------------------------------------------------------------------

  /** `value *= 16777619`, which wraps around. */
  function TimesPrime(value: Word): Word {
    value * 16777619 % 0x1_0000_0000
  }

  /** Multiplication by the inverse: 16777619 * 899433627 == 1 + 3513497 * 2^32. */
  function TimesInverse(value: Word): Word {
    value * 899433627 % 0x1_0000_0000
  }

  function Step(value: Word, byte: Byte): Word {
    TimesPrime(XorWord(value, byte))
  }

  function Unstep(value: Word, byte: Byte): Word {
    XorWord(TimesInverse(value), byte)
  }

  function Fold(value: Word, data: seq<Byte>): Word {
    if data == [] then value else Step(Fold(value, data[..|data| - 1]), data[|data| - 1])
  }

  /** `checksum`. */
  method Checksum(data: seq<Byte>) returns (value: Word)
    ensures value == Fold(FNV_OFFSET, data)
  {
    value := FNV_OFFSET;
    var i := 0;
    while i < |data|
      invariant 0 <= i <= |data|
      invariant value == Fold(FNV_OFFSET, data[..i])
    {
      value := XorWord(value, data[i]);
      value := TimesPrime(value);
      assert data[..i + 1][..i] == data[..i];
      i := i + 1;
    }
    assert data[..i] == data;
  }

  lemma Congruent(value: nat, z: int, product: int)
    requires value < 0x1_0000_0000 && product == value + 0x1_0000_0000 * z
    ensures product % 0x1_0000_0000 == value
  {}

  lemma TimesInverts(value: Word)
    ensures TimesInverse(TimesPrime(value)) == value
    ensures TimesPrime(TimesInverse(value)) == value
  {
    var k := value * 16777619 / 0x1_0000_0000;
    Congruent(value, value * 3513497 - k * 899433627, TimesPrime(value) * 899433627);
    var l := value * 899433627 / 0x1_0000_0000;
    Congruent(value, value * 3513497 - l * 16777619, TimesInverse(value) * 16777619);
  }

  /** For every byte the step is a bijection on the 32-bit states, because the multiplier is odd. */
  lemma StepBijective(value: Word, byte: Byte)
    ensures Unstep(Step(value, byte), byte) == value
    ensures Step(Unstep(value, byte), byte) == value
  {
    TimesInverts(XorWord(value, byte));
    XorTwice(value, byte);
    TimesInverts(value);
    XorTwice(TimesInverse(value), byte);
  }

  /** For every state the step distinguishes all bytes. */
  lemma StepSeparatesBytes(value: Word, a: Byte, b: Byte)
    requires Step(value, a) == Step(value, b)
    ensures a == b
  {
    TimesInverts(XorWord(value, a));
    TimesInverts(XorWord(value, b));
    XorCancelsLeft(a, b, value);
  }

  lemma {:induction false} FoldConcat(value: Word, a: seq<Byte>, b: seq<Byte>)
    ensures Fold(value, a + b) == Fold(Fold(value, a), b)
  {
    if b == [] {
      assert a + b == a;
    } else {
      var m := |b| - 1;
      FoldConcat(value, a, b[..m]);
      assert (a + b)[..|a + b| - 1] == a + b[..m];
    }
  }

  /** Different states stay different over any common tail. */
  lemma {:induction false} FoldSeparatesStates(v: Word, w: Word, tail: seq<Byte>)
    requires v != w
    ensures Fold(v, tail) != Fold(w, tail)
  {
    if tail != [] {
      var m := |tail| - 1;
      FoldSeparatesStates(v, w, tail[..m]);
      StepBijective(Fold(v, tail[..m]), tail[m]);
      StepBijective(Fold(w, tail[..m]), tail[m]);
    }
  }

  /** The fold passes through the step of any single byte. */
  lemma FoldAround(head: seq<Byte>, byte: Byte, tail: seq<Byte>)
    ensures Fold(FNV_OFFSET, head + ([byte] + tail)) == Fold(Step(Fold(FNV_OFFSET, head), byte), tail)
  {
    hide Step;
    var v := Fold(FNV_OFFSET, head);
    FoldConcat(FNV_OFFSET, head, [byte] + tail);
    FoldConcat(v, [byte], tail);
    assert [byte][..0] == [];
  }

  /** Payloads that differ in exactly one byte never share a checksum. */
  lemma OneByteChangesChecksum(a: seq<Byte>, b: seq<Byte>, i: nat)
    requires |a| == |b| && i < |a| && a[i] != b[i]
    requires forall k | 0 <= k < |a| && k != i :: a[k] == b[k]
    ensures Fold(FNV_OFFSET, a) != Fold(FNV_OFFSET, b)
  {
    hide Fold, Step;
    var head, tail := a[..i], a[i + 1..];
    assert a == head + ([a[i]] + tail) && b == head + ([b[i]] + tail);
    var v := Fold(FNV_OFFSET, head);
    FoldAround(head, a[i], tail);
    FoldAround(head, b[i], tail);
    if Step(v, a[i]) == Step(v, b[i]) { StepSeparatesBytes(v, a[i], b[i]); }
    FoldSeparatesStates(Step(v, a[i]), Step(v, b[i]), tail);
  }

  /** `validatePayload`: the three comparisons together decide equality. */
  method ValidatePayload(expected: seq<Byte>, actual: seq<Byte>) returns (ok: bool)
    ensures ok <==> expected == actual
  {
    if |actual| != |expected| { return false; }
    var expectedChecksum := Checksum(expected);
    var actualChecksum := Checksum(actual);
    if actualChecksum != expectedChecksum { return false; }
    ok := actual == expected;
  }
}
