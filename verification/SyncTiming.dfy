/**
 What the SYNC and TPDO1 callbacks of the synchronous PDO test record, and the timing verdict over it: one TPDO1 in
 each of the five SYNC intervals. Times are readings of one monotonic clock.
 */
module SyncTiming {

  const SAMPLES: nat := 5
  const OBSERVED: nat := 7
  const PERIOD_MS: nat := 200
  const LENGTH: nat := 8

  ghost predicate Ordered(times: seq<nat>) {
    forall i, j | 0 <= i <= j < |times| :: times[i] <= times[j]
  }

  lemma OrderedOneMore(times: seq<nat>, now: nat)
    requires Ordered(times) && forall t | t in times :: t <= now
    ensures Ordered(times + [now])
  {
    forall i | 0 <= i < |times| ensures times[i] <= now { assert times[i] in times; }
  }

  /** `SyncPdoObservation`: two arrays of the first arrivals, and counts of all of them. */
  class Observation {
    const syncTimes: array<nat>
    const tpdoTimes: array<nat>
    var syncCount: nat
    var tpdoCount: nat
    var failed: bool
    /** The local 0x1006 still makes the master produce SYNC. */
    var producing: bool
    ghost var syncs: seq<nat>
    ghost var tpdos: seq<nat>

    constructor ()
      ensures Valid() && syncs == tpdos == [] && !failed && fresh(syncTimes) && fresh(tpdoTimes)
    {
      syncTimes := new nat[OBSERVED];
      tpdoTimes := new nat[OBSERVED];
      syncCount, tpdoCount, failed, producing, syncs, tpdos := 0, 0, false, true, [], [];
    }

    /** The arrays hold the first seven arrivals; the fifth SYNC has stopped the producer, or that failed. */
    ghost predicate Valid()
      reads this, syncTimes, tpdoTimes
    {
      && syncTimes != tpdoTimes && syncTimes.Length == tpdoTimes.Length == OBSERVED
      && syncCount == |syncs| && tpdoCount == |tpdos| && Ordered(syncs) && Ordered(tpdos)
      && (forall i: nat | i < |syncs| && i < OBSERVED :: syncTimes[i] == syncs[i])
      && (forall i: nat | i < |tpdos| && i < OBSERVED :: tpdoTimes[i] == tpdos[i])
      && (|syncs| >= SAMPLES ==> !producing || failed)
    }

    /** The SYNC callback. */
    method OnSync(now: nat)
      requires Valid() && forall t | t in syncs :: t <= now
      modifies this, syncTimes
      ensures Valid() && syncs == old(syncs) + [now] && tpdos == old(tpdos) && (old(failed) ==> failed)
    {
      if syncCount < OBSERVED { syncTimes[syncCount] := now; }
      syncCount := syncCount + 1;
      OrderedOneMore(syncs, now);
      syncs := syncs + [now];
      if syncCount == SAMPLES {
        var error: bool := *;
        if error { failed := true; } else { producing := false; }
      }
    }

    /** The TPDO1 callback; only frames of eight bytes count. */
    method OnTpdo(now: nat, error: bool, length: nat)
      requires Valid() && forall t | t in tpdos :: t <= now
      modifies this, tpdoTimes
      ensures Valid() && syncs == old(syncs)
      ensures tpdos == if error || length != LENGTH then old(tpdos) else old(tpdos) + [now]
      ensures failed == (old(failed) || error || length != LENGTH)
    {
      if error || length != LENGTH {
        failed := true;
      } else {
        if tpdoCount < OBSERVED { tpdoTimes[tpdoCount] := now; }
        tpdoCount := tpdoCount + 1;
        OrderedOneMore(tpdos, now);
        tpdos := tpdos + [now];
      }
    }

    /** `validateSynchronousTiming`: the pairwise comparison decides exactly whether each interval has one TPDO1. */
    method ValidateTiming() returns (ok: bool)
      requires Valid()
      ensures ok <==> OneEach(syncs, tpdos)
    {
      if syncCount != SAMPLES || tpdoCount != SAMPLES { return false; }
      var i := 0;
      while i < SAMPLES
        invariant i <= SAMPLES && forall k: nat | k < i :: Within(syncs, k, tpdos[k])
      {
        var deadline := if i + 1 < SAMPLES then syncTimes[i + 1] else syncTimes[i] + PERIOD_MS;
        if tpdoTimes[i] < syncTimes[i] || tpdoTimes[i] >= deadline {
          if OneEach(syncs, tpdos) { InOrder(syncs, tpdos, i); }
          return false;
        }
        i := i + 1;
      }
      Separate(syncs, tpdos);
      ok := true;
    }
  }

  /** The interval of SYNC `i`: up to the next SYNC, or one period for the last. */
  predicate Within(syncs: seq<nat>, i: nat, t: nat)
    requires i < |syncs|
  {
    syncs[i] <= t < (if i + 1 < |syncs| then syncs[i + 1] else syncs[i] + PERIOD_MS)
  }

  /** `j` is the only TPDO1 in interval `i`. */
  ghost predicate Only(syncs: seq<nat>, tpdos: seq<nat>, i: nat, j: nat)
    requires i < |syncs|
  {
    j < |tpdos| && forall k: nat | k < |tpdos| :: Within(syncs, i, tpdos[k]) <==> k == j
  }

  ghost predicate HasOne(syncs: seq<nat>, tpdos: seq<nat>, i: nat)
    requires i < |syncs|
  {
    exists j: nat :: Only(syncs, tpdos, i, j)
  }

  /** Five SYNC, five TPDO1, and exactly one TPDO1 in each of the five intervals. */
  ghost predicate OneEach(syncs: seq<nat>, tpdos: seq<nat>) {
    && |syncs| == SAMPLES && |tpdos| == SAMPLES
    && forall i: nat | i < SAMPLES :: HasOne(syncs, tpdos, i)
  }

  /** If every TPDO1 lies in its own interval, it is the only one there. */
  lemma Separate(syncs: seq<nat>, tpdos: seq<nat>)
    requires |syncs| == |tpdos| == SAMPLES && Ordered(syncs)
    requires forall k: nat | k < SAMPLES :: Within(syncs, k, tpdos[k])
    ensures OneEach(syncs, tpdos)
  {
    forall i: nat | i < SAMPLES ensures HasOne(syncs, tpdos, i) {
      forall k: nat | k < SAMPLES ensures Within(syncs, i, tpdos[k]) <==> k == i {
        if k < i { assert tpdos[k] < syncs[k + 1] <= syncs[i]; }
        if k > i { assert syncs[i + 1] <= syncs[k] <= tpdos[k]; }
      }
      assert Only(syncs, tpdos, i, i);
    }
  }

  /** If every interval has exactly one TPDO1, it is the one with the number of the interval. */
  lemma InOrder(syncs: seq<nat>, tpdos: seq<nat>, i: nat)
    requires OneEach(syncs, tpdos) && Ordered(syncs) && Ordered(tpdos) && i < SAMPLES
    ensures Within(syncs, i, tpdos[i])
  {
    assert HasOne(syncs, tpdos, 0) && HasOne(syncs, tpdos, 1) && HasOne(syncs, tpdos, 2);
    assert HasOne(syncs, tpdos, 3) && HasOne(syncs, tpdos, 4);
    var f0: nat :| Only(syncs, tpdos, 0, f0);
    var f1: nat :| Only(syncs, tpdos, 1, f1);
    var f2: nat :| Only(syncs, tpdos, 2, f2);
    var f3: nat :| Only(syncs, tpdos, 3, f3);
    var f4: nat :| Only(syncs, tpdos, 4, f4);
    assert Within(syncs, 0, tpdos[f0]) && Within(syncs, 1, tpdos[f1]) && Within(syncs, 2, tpdos[f2]);
    assert Within(syncs, 3, tpdos[f3]) && Within(syncs, 4, tpdos[f4]);
    assert f0 < f1 by { assert tpdos[f0] < syncs[1] <= tpdos[f1]; }
    assert f1 < f2 by { assert tpdos[f1] < syncs[2] <= tpdos[f2]; }
    assert f2 < f3 by { assert tpdos[f2] < syncs[3] <= tpdos[f3]; }
    assert f3 < f4 by { assert tpdos[f3] < syncs[4] <= tpdos[f4]; }
  }
}
