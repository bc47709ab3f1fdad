/**
 `calculateSrdoChecksum`: the checksum of an SRDO profile is the CRC of a serialisation that determines every field
 it covers. The transmission type is read from the node but not covered.
 */
module SrdoProfile {
  import opened Bits
  import opened Crc

  /** `SrdoCommProfile` and `SrdoMapProfile`; the map holds two entries whatever its count says. */
  datatype Profile = Profile(
    direction: Byte, sctMs: Half, srvtMs: Byte, transmissionType: Byte, normalId: Word, invertedId: Word,
    count: Byte, entry0: Word, entry1: Word)

  function Entry(p: Profile, i: nat): Word
    requires i < 2
  {
    if i == 0 then p.entry0 else p.entry1
  }

  /** The mapping entries that take part. */
  function Mapped(p: Profile): nat {
    if p.count < 2 then p.count else 2
  }

  function CommBytes(p: Profile): (bytes: seq<Byte>)
    ensures |bytes| == 12
  {
    [p.direction] + Le(p.sctMs, 2) + [p.srvtMs] + Le(p.normalId, 4) + Le(p.invertedId, 4)
  }

  function EntryBytes(p: Profile, n: nat): (bytes: seq<Byte>)
    requires n <= 2
    ensures |bytes| == 5 * n
  {
    if n == 0 then [] else EntryBytes(p, n - 1) + [n] + Le(Entry(p, n - 1), 4)
  }

  function Serialise(p: Profile): (bytes: seq<Byte>)
    ensures |bytes| == 13 + 5 * Mapped(p)
  {
    CommBytes(p) + [p.count] + EntryBytes(p, Mapped(p))
  }

  /** `crcAppendU16Le`. */
  method AppendU16Le(crc0: Half, value: Half) returns (crc: Half)
    ensures crc == Fold(crc0, Le(value, 2))
  {
    crc := AppendByte(crc0, value % 0x100);
    crc := AppendByte(crc, value / 0x100 % 0x100);
    assert Le(value, 2) == [value % 0x100] + [value / 0x100 % 0x100];
    FoldConcat(crc0, [value % 0x100], [value / 0x100 % 0x100]);
  }

  /** `crcAppendU32Le`: `rest` is `value >> shift`. */
  method AppendU32Le(crc0: Half, value: Word) returns (crc: Half)
    ensures crc == Fold(crc0, Le(value, 4))
  {
    hide Fold, Le;
    FoldNone(crc0);
    crc := crc0;
    var rest, i := value, 0;
    ghost var done: seq<Byte> := [];
    while i < 4
      invariant i <= 4 && crc == Fold(crc0, done) && done + Le(rest, 4 - i) == Le(value, 4)
    {
      LeStep(rest, 4 - i);
      FoldConcat(crc0, done, [rest % 0x100]);
      crc := AppendByte(crc, rest % 0x100);
      done := done + [rest % 0x100];
      rest := rest / 0x100;
      i := i + 1;
    }
    LeNone(rest);
    assert done == Le(value, 4);
  }

  /** The fields of the communication record. */
  method AppendComm(p: Profile) returns (crc: Half)
    ensures crc == Fold(0, CommBytes(p))
  {
    hide Fold, Le;
    crc := AppendByte(0, p.direction);
    crc := AppendU16Le(crc, p.sctMs);
    FoldConcat(0, [p.direction], Le(p.sctMs, 2));
    crc := AppendByte(crc, p.srvtMs);
    FoldConcat(0, [p.direction] + Le(p.sctMs, 2), [p.srvtMs]);
    crc := AppendU32Le(crc, p.normalId);
    FoldConcat(0, [p.direction] + Le(p.sctMs, 2) + [p.srvtMs], Le(p.normalId, 4));
    crc := AppendU32Le(crc, p.invertedId);
    FoldConcat(0, [p.direction] + Le(p.sctMs, 2) + [p.srvtMs] + Le(p.normalId, 4), Le(p.invertedId, 4));
  }

  /** `calculateSrdoChecksum`. */
  method Checksum(p: Profile) returns (crc: Half)
    ensures crc == Fold(0, Serialise(p))
  {
    hide Fold, Le;
    crc := AppendComm(p);
    crc := AppendByte(crc, p.count);
    ghost var head := CommBytes(p) + [p.count];
    FoldConcat(0, CommBytes(p), [p.count]);
    var i := 0;
    assert head + EntryBytes(p, 0) == head;
    while i < p.count && i < 2
      invariant i <= Mapped(p) && crc == Fold(0, head + EntryBytes(p, i))
    {
      crc := AppendByte(crc, i + 1);
      FoldConcat(0, head + EntryBytes(p, i), [i + 1]);
      crc := AppendU32Le(crc, Entry(p, i));
      FoldConcat(0, head + EntryBytes(p, i) + [i + 1], Le(Entry(p, i), 4));
      assert head + EntryBytes(p, i + 1) == head + EntryBytes(p, i) + [i + 1] + Le(Entry(p, i), 4);
      i := i + 1;
    }
  }

  /** The covered fields agree. */
  predicate SameCovered(p: Profile, q: Profile) {
    && p.direction == q.direction && p.sctMs == q.sctMs && p.srvtMs == q.srvtMs
    && p.normalId == q.normalId && p.invertedId == q.invertedId && p.count == q.count
    && (p.count >= 1 ==> p.entry0 == q.entry0) && (p.count >= 2 ==> p.entry1 == q.entry1)
  }

  lemma LeInjective(v: nat, w: nat, n: nat)
    requires v < Pow2(8 * n) && w < Pow2(8 * n) && Le(v, n) == Le(w, n)
    ensures v == w
  {
    FromLeOfLe(v, n);
    FromLeOfLe(w, n);
  }

  lemma CommBytesInjective(p: Profile, q: Profile)
    requires CommBytes(p) == CommBytes(q)
    ensures p.direction == q.direction && p.sctMs == q.sctMs && p.srvtMs == q.srvtMs
    ensures p.normalId == q.normalId && p.invertedId == q.invertedId
  {
    hide Le;
    var a, b := CommBytes(p), CommBytes(q);
    assert a[0] == p.direction && a[1..3] == Le(p.sctMs, 2) && a[3] == p.srvtMs;
    assert b[0] == q.direction && b[1..3] == Le(q.sctMs, 2) && b[3] == q.srvtMs;
    assert a[4..8] == Le(p.normalId, 4) && a[8..12] == Le(p.invertedId, 4);
    assert b[4..8] == Le(q.normalId, 4) && b[8..12] == Le(q.invertedId, 4);
    Pow2Word();
    LeInjective(p.sctMs, q.sctMs, 2);
    LeInjective(p.normalId, q.normalId, 4);
    LeInjective(p.invertedId, q.invertedId, 4);
  }

  lemma EntryBytesInjective(p: Profile, q: Profile, n: nat)
    requires n <= 2 && EntryBytes(p, n) == EntryBytes(q, n)
    ensures forall i: nat | i < n :: Entry(p, i) == Entry(q, i)
  {
    if n > 0 {
      hide Le;
      var a, b := EntryBytes(p, n), EntryBytes(q, n);
      assert a[..5 * (n - 1)] == EntryBytes(p, n - 1) && b[..5 * (n - 1)] == EntryBytes(q, n - 1);
      assert a[5 * n - 4..] == Le(Entry(p, n - 1), 4) && b[5 * n - 4..] == Le(Entry(q, n - 1), 4);
      Pow2Word();
      LeInjective(Entry(p, n - 1), Entry(q, n - 1), 4);
      EntryBytesInjective(p, q, n - 1);
    }
  }

  /** The serialisation holds the covered fields and nothing else. */
  lemma SerialiseInjective(p: Profile, q: Profile)
    ensures Serialise(p) == Serialise(q) <==> SameCovered(p, q)
  {
    hide Le, CommBytes;
    var a, b := Serialise(p), Serialise(q);
    assert a[..12] == CommBytes(p) && a[12] == p.count && a[13..] == EntryBytes(p, Mapped(p));
    assert b[..12] == CommBytes(q) && b[12] == q.count && b[13..] == EntryBytes(q, Mapped(q));
    if a == b {
      CommBytesInjective(p, q);
      EntryBytesInjective(p, q, Mapped(p));
      assert Mapped(p) >= 1 ==> Entry(p, 0) == Entry(q, 0);
      assert Mapped(p) >= 2 ==> Entry(p, 1) == Entry(q, 1);
    }
    if SameCovered(p, q) {
      SameCommBytes(p, q);
      assert EntryBytes(p, 0) == EntryBytes(q, 0);
    }
  }

  lemma SameCommBytes(p: Profile, q: Profile)
    requires SameCovered(p, q)
    ensures CommBytes(p) == CommBytes(q)
  {}

  /**
   Profiles with the same mapping count whose serialisations differ, but only inside two adjacent bytes, never share
   a checksum.
   */
  lemma WindowChangesChecksum(p: Profile, q: Profile, i: nat)
    requires p.count == q.count && !SameCovered(p, q)
    requires var a, b := Serialise(p), Serialise(q);
      |a| == |b| && forall k: nat | k < |a| && a[k] != b[k] :: i <= k < i + 2
    ensures Fold(0, Serialise(p)) != Fold(0, Serialise(q))
  {
    SerialiseInjective(p, q);
    TwoBytesDetected(Serialise(p), Serialise(q), i);
  }

  /** Any change of the direction, of the SCT or of the SRVT alone is noticed. */
  lemma TimingChangesChecksum(p: Profile, direction: Byte, sctMs: Half, srvtMs: Byte)
    requires var q := p.(direction := direction, sctMs := sctMs, srvtMs := srvtMs);
      || (direction != p.direction && sctMs == p.sctMs && srvtMs == p.srvtMs)
      || (direction == p.direction && sctMs != p.sctMs && srvtMs == p.srvtMs)
      || (direction == p.direction && sctMs == p.sctMs && srvtMs != p.srvtMs)
    ensures var q := p.(direction := direction, sctMs := sctMs, srvtMs := srvtMs);
      Fold(0, Serialise(p)) != Fold(0, Serialise(q))
  {
    hide Fold, Le;
    var q := p.(direction := direction, sctMs := sctMs, srvtMs := srvtMs);
    var i := if direction != p.direction then 0 else if sctMs != p.sctMs then 1 else 3;
    SameEntries(p, q, Mapped(p));
    var a, b := Serialise(p), Serialise(q);
    assert a[1..3] == Le(p.sctMs, 2) && b[1..3] == Le(q.sctMs, 2);
    assert a[4..] == b[4..];
    if sctMs == p.sctMs {
      assert a[1] == a[1..3][0] && b[1] == b[1..3][0];
      assert a[2] == a[1..3][1] && b[2] == b[1..3][1];
    }
    WindowChangesChecksum(p, q, i);
  }

  lemma {:induction false} SameEntries(p: Profile, q: Profile, n: nat)
    requires n <= 2 && p.entry0 == q.entry0 && p.entry1 == q.entry1
    ensures EntryBytes(p, n) == EntryBytes(q, n)
  {
    if n > 0 { SameEntries(p, q, n - 1); }
  }

  /** A change of three bytes of the normal COB-ID can go unnoticed. */
  lemma WideChangeUnnoticed(p: Profile)
    requires p.normalId == 0
    ensures var q := p.(normalId := 0x2110_0100);
      !SameCovered(p, q) && Fold(0, Serialise(p)) == Fold(0, Serialise(q))
  {
    var q := p.(normalId := 0x2110_0100);
    hide Fold;
    var zeros: seq<Byte>, code: seq<Byte> := [0, 0, 0], [0x01, 0x10, 0x21];
    assert Le(p.normalId, 4) == [0] + zeros;
    assert Le(q.normalId, 4) == [0] + code;
    hide Le;
    var head := [p.direction] + Le(p.sctMs, 2) + [p.srvtMs] + [0];
    SameEntries(p, q, Mapped(p));
    var tail := Le(p.invertedId, 4) + [p.count] + EntryBytes(p, Mapped(p));
    assert Serialise(p) == head + zeros + tail;
    assert Serialise(q) == head + code + tail;
    ThreeBytesCollide(head, tail);
  }
}
