/**
 The MCU publishes each received EMCY atomically together with a counter; the host reads the seven fields of 0x2301
 in separate SDO transfers and accepts them if the counter did not move. Publications may fall between any two
 transfers.
 */
module Snapshot {
  import opened Bits

  const RETRIES := 3
  const CYCLE: nat := 0x1_0000_0000

  /** The published fields of `EmcyConsumerSnapshot`. */
  datatype Record = Record(
    sourceNode: Byte, cobId: Half, errorCode: Half, errorRegister: Byte, errorBit: Byte, infoCode: Word)

  datatype Reading = Reading(rxCount: Word, record: Record)

  /** The 32-bit counter after `n` publications. */
  ghost predicate Counts(count: Word, n: nat) {
    count == n % CYCLE
  }

  lemma SameCount(count: Word, n: nat, m: nat)
    requires Counts(count, n) && Counts(count, m) && n <= m < n + CYCLE
    ensures n == m
  {}

  lemma CountUnique(a: Word, b: Word, n: nat)
    requires Counts(a, n) && Counts(b, n)
    ensures a == b
  {}

  /** 0x2301 and everything ever published there. */
  class Diagnostic {
    var count: Word
    var record: Record
    ghost var history: seq<Record>

    ghost predicate Valid()
      reads this
    {
      && Counts(count, |history|)
      && (history != [] ==> record == history[|history| - 1])
    }

    /** What the passing of time keeps. */
    twostate predicate Grown()
      reads this
    {
      old(history) <= history && (history == old(history) ==> record == old(record))
    }

    /** Any number of publications. */
    method Publish()
      requires Valid()
      modifies this
      ensures Valid() && Grown()
    {
      var turns: nat := *;
      while turns > 0
        invariant Valid() && Grown()
      {
        turns := turns - 1;
        record := *;
        count := (count + 1) % CYCLE;
        history := history + [record];
      }
    }

    /** One upload; it may fail. */
    method Transfer() returns (ok: bool)
      requires Valid()
      modifies this
      ensures Valid() && Grown()
    {
      Publish();
      ok := *;
    }

    /** The six fields, each in its own upload. */
    method ReadFields() returns (ok: bool, fields: Record)
      requires Valid()
      modifies this
      ensures Valid() && Grown()
      ensures ok && history == old(history) ==> fields == record
    {
      hide Counts;
      var node, cob, code, register, bit, info := 0, 0, 0, 0, 0, 0;
      ok := Transfer();
      if ok { node := record.sourceNode; ok := Transfer(); }
      if ok { cob := record.cobId; ok := Transfer(); }
      if ok { code := record.errorCode; ok := Transfer(); }
      if ok { register := record.errorRegister; ok := Transfer(); }
      if ok { bit := record.errorBit; ok := Transfer(); }
      if ok { info := record.infoCode; }
      fields := Record(node, cob, code, register, bit, info);
    }

    /**
     One attempt of `readStableSnapshot`. If fewer than 2^32 publications fell into an attempt that is accepted, none
     did, and the reading is the record on display. An undisturbed attempt is accepted.
     */
    method ReadOnce() returns (ok: bool, stable: bool, reading: Reading)
      requires Valid()
      modifies this
      ensures Valid() && Grown()
      ensures ok && stable && |history| < |old(history)| + CYCLE ==> reading == Reading(count, record)
      ensures ok && history == old(history) ==> stable
    {
      hide Counts;
      stable, reading := false, *;
      ok := Transfer();
      if !ok { return; }
      var before := count;
      ghost var first := |history|;
      var fields;
      ok, fields := ReadFields();
      if !ok { return; }
      ok := Transfer();
      if !ok { return; }
      var after := count;
      stable := before == after;
      reading := Reading(after, fields);
      if stable && |history| < first + CYCLE { SameCount(after, first, |history|); }
      if |history| == first { CountUnique(before, after, first); }
    }

    /** `readStableSnapshot`. */
    method ReadStable() returns (ok: bool, reading: Reading)
      requires Valid()
      modifies this
      ensures Valid() && Grown()
      ensures ok && |history| < |old(history)| + CYCLE ==> reading == Reading(count, record)
    {
      ok, reading := false, *;
      var attempt := 0;
      while attempt < RETRIES
        invariant Valid() && Grown() && !ok
      {
        var stable;
        ok, stable, reading := ReadOnce();
        if !ok || stable { return; }
        ok := false;
        attempt := attempt + 1;
      }
    }

    /** `waitForNextRxCount`. */
    method WaitForNext(baseline: Word) returns (ok: bool, observed: Word)
      requires Valid()
      modifies this
      ensures Valid() && Grown()
      ensures ok ==> observed == (baseline + 1) % CYCLE == count
    {
      ok, observed := false, 0;
      var polls: nat := *;
      while polls > 0
        invariant Valid() && Grown() && !ok
      {
        polls := polls - 1;
        var read := Transfer();
        if !read { return; }
        if count == (baseline + 1) % CYCLE { return true, count; }
        if count != baseline { return; }
      }
    }

    /**
     `emitAndValidateVector` and `clearAndValidateRecovery` after the EMCY has been sent: acceptance means that
     exactly one record was published since the baseline, and that it is the expected one.
     */
    method ExpectOne(baseline: Word, expected: Record, ghost start: nat) returns (ok: bool, reading: Reading)
      requires Valid() && start <= |history| && Counts(baseline, start)
      modifies this
      ensures Valid() && Grown()
      ensures ok && |history| < start + CYCLE ==>
        && |history| == start + 1 && history[start] == expected
        && reading == Reading(count, expected)
    {
      reading := *;
      var observed;
      ok, observed := WaitForNext(baseline);
      if !ok { return; }
      ok, reading := ReadStable();
      ok := ok && reading.rxCount == observed && reading.record == expected;
      if ok && |history| < start + CYCLE { Residue(start, |history|); }
    }
  }

  /** A counter that moved by one, modulo 2^32. */
  lemma Residue(start: nat, total: nat)
    requires start <= total < start + CYCLE && total % CYCLE == (start % CYCLE + 1) % CYCLE
    ensures total == start + 1
  {
    var d: nat := total - start;
    assert (start + d) % CYCLE == (start + 1) % CYCLE;
  }

  /**
   What the guard decides: it passes exactly if the publications in between are a multiple of 2^32. The first multiple
   beyond zero is where fields of different records can be taken for one.
   */
  lemma GuardIff(before: Word, after: Word, first: nat, last: nat)
    requires first <= last && Counts(before, first) && Counts(after, last)
    ensures before == after <==> exists wraps: nat :: last == first + wraps * CYCLE
  {
    if before == after {
      var wraps: nat := last / CYCLE - first / CYCLE;
      assert last == first + wraps * CYCLE;
    }
    if wraps: nat :| last == first + wraps * CYCLE { Wrapped(first, wraps); }
  }

  lemma {:induction false} Wrapped(first: nat, wraps: nat)
    ensures (first + wraps * CYCLE) % CYCLE == first % CYCLE
  {
    if wraps > 0 {
      Wrapped(first, wraps - 1);
      assert first + wraps * CYCLE == first + (wraps - 1) * CYCLE + CYCLE;
    }
  }
}
