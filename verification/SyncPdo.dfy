/**
 `syncPdoProcess`: TPDO1 is switched to synchronous transmission, exercised and switched back, against a node that
 may leave any transfer undecided. The flags of the source are the fields of `Run`; its steps are the methods.
 */
module SyncPdo {
  import opened RemoteNode

  const SYNC_COB := Obj(0x1005, 0)
  const SYNC_OVERFLOW := Obj(0x1019, 0)
  const TPDO_COUNT := Obj(0x1800, 0)
  const TPDO_COB := Obj(0x1800, 1)
  const TPDO_TYPE := Obj(0x1800, 2)
  const TPDO_INHIBIT := Obj(0x1800, 3)
  const TPDO_EVENT := Obj(0x1800, 5)
  const TPDO_START := Obj(0x1800, 6)

  const SYNC_PRODUCER: nat := 0x4000_0000
  const TPDO_INVALID: nat := 0x8000_0000
  const SYNCHRONOUS_TYPE: nat := 1
  const EVENT_TYPE_MINIMUM: nat := 254
  const SYNC_PERIOD_US: nat := 200000

  /** Bit 30 of 0x1005 selects the SYNC producer role. */
  predicate Producer(cobId: nat) { cobId / SYNC_PRODUCER % 2 == 1 }

  function WithoutProducer(cobId: nat): nat {
    if Producer(cobId) then cobId - SYNC_PRODUCER else cobId
  }

  /** Bit 31 of a PDO COB-ID disables the PDO. */
  predicate Invalid(cobId: nat) { cobId / TPDO_INVALID % 2 == 1 }

  function Disabled(cobId: nat): nat {
    if Invalid(cobId) then cobId else cobId + TPDO_INVALID
  }

  /** `TpdoCommSnapshot`. */
  datatype Snapshot = Snapshot(
    highest: nat, cobId: nat, transmissionType: nat, inhibitTime: nat, eventTimer: nat, syncStart: nat)

  // ------------------------------------------------------------------------------------------------------------
  // What a run promises
  // ------------------------------------------------------------------------------------------------------------

  ghost predicate Same(a: Od, b: Od, k: Obj) {
    (k in a <==> k in b) && (k in a ==> a[k] == b[k])
  }

  /** The fields the process saves, other than the transmission type. */
  ghost predicate SameButType(a: Od, b: Od) {
    && Same(a, b, TPDO_COUNT) && Same(a, b, TPDO_COB) && Same(a, b, TPDO_INHIBIT)
    && Same(a, b, TPDO_EVENT) && Same(a, b, TPDO_START) && Same(a, b, SYNC_COB)
  }

  /** All six TPDO1 communication parameters and the SYNC COB-ID are as they were. */
  ghost predicate Restored(entry: Od, od: Od) {
    SameButType(entry, od) && Same(entry, od, TPDO_TYPE)
  }

  /** TPDO1 is enabled with its own COB-ID and differs from the entry state only in being synchronous. */
  ghost predicate Synchronous(entry: Od, od: Od) {
    SameButType(entry, od) && TPDO_TYPE in od && od[TPDO_TYPE] == Num(SYNCHRONOUS_TYPE)
  }

  /** The last thing that happened is that the node accepted an invalid COB-ID, so TPDO1 is disabled. */
  ghost predicate JustDisabled(t: Trace) {
    && t.Then? && t.last.Download? && t.last.obj == TPDO_COB && t.last.outcome == Success
    && t.last.value.Num? && Invalid(t.last.value.n)
  }

  /** The last thing that happened is that TPDO1 was read back as enabled and synchronous. */
  ghost predicate JustReadBack(t: Trace) {
    && t.Then? && t.past.Then? && t.last == Upload(TPDO_TYPE, Success, Num(SYNCHRONOUS_TYPE))
    && t.past.last.Upload? && t.past.last.obj == TPDO_COB && t.past.last.outcome == Success
  }

  /** The slave has been sent a START since the first `n` events. */
  ghost predicate Started(n: nat, t: Trace) {
    match t
    case Nothing => false
    case Then(past, e) => Depth(t) > n && (e.SlaveStart() || Started(n, past))
  }

  /** Every event after the first `n` succeeded and none belongs to a recovery. */
  ghost predicate Flawless(n: nat, t: Trace) {
    match t
    case Nothing => true
    case Then(past, e) =>
      Depth(t) <= n ||
      (&& Flawless(n, past)
       && !e.PrepareBoot? && !e.Boot?
       && (e.Sdo() ==> e.outcome == Success)
       && (e.Command? ==> e.accepted)
       && (e.Confirm? ==> e.observed))
  }

  /** The one START that may find the temporary configuration: the first, right after its read-back, in a good run. */
  ghost predicate TestStart(n: nat, before: Trace, od: Od, entry: Od) {
    Synchronous(entry, od) && !Started(n, before) && JustReadBack(before) && Flawless(n, before)
  }

  /**
   The discipline of one step: SDO only while the channel is known, the transmission type only on a disabled TPDO1, and
   no slave START unless nothing is in flight and TPDO1 is exactly as found, but for the one of the test.
   */
  ghost predicate StepOk(n: nat, before: Trace, e: Event, entry: Od) {
    && (e.Sdo() ==> Phase(before) == Known)
    && (e.Download? && e.obj == TPDO_TYPE ==> JustDisabled(before))
    && (e.SlaveStart() ==> e.settled && (Restored(entry, e.od) || TestStart(n, before, e.od, entry)))
  }

  /** Every event after the first `n` obeyed the discipline. */
  ghost predicate Disciplined(n: nat, t: Trace, entry: Od) {
    match t
    case Nothing => true
    case Then(past, e) => Depth(t) <= n || (Disciplined(n, past, entry) && StepOk(n, past, e, entry))
  }

  /** The recovery closed every earlier transaction before it read anything. */
  ghost predicate Reopened(before: Trace, t: Trace) {
    && t.Then? && t.past.Then? && t.last == Confirm(EnterPreop, true)
    && t.past.last.Command? && BootSaid(before, t.past.past, true)
  }

  /** Pre-operational was refused, or not confirmed, after the Boot. */
  ghost predicate PreopFailed(before: Trace, t: Trace) {
    && t.Then?
    && (|| (t.last.Command? && t.last.cmd == EnterPreop && !t.last.accepted && BootSaid(before, t.past, true))
        || (&& t.last == Confirm(EnterPreop, false) && t.past.Then?
            && t.past.last.Command? && BootSaid(before, t.past.past, true)))
  }

  /** What has been read since the recovery came to `reopened` is not what the process had saved. */
  ghost predicate ReadBackFailed(before: Trace, reopened: Trace, t: Trace, entry: Od) {
    Reopened(before, reopened) && OnlyUploads(reopened, t) && Deviates(t, entry)
  }

  /** The history ends with a recovery that was tried since `before` and visibly failed. */
  ghost predicate RecoveryFailed(before: Trace, t: Trace, entry: Od) {
    ResetFailed(before, t) || PreopFailed(before, t) || exists reopened :: ReadBackFailed(before, reopened, t, entry)
  }

  ghost predicate GaveUp(n: nat, t: Trace, entry: Od) {
    exists before :: n <= Depth(before) && RecoveryFailed(before, t, entry)
  }

  /** The node has been started in the synchronous configuration. */
  ghost predicate Exercised(n: nat, t: Trace, entry: Od) {
    match t
    case Nothing => false
    case Then(past, e) =>
      Depth(t) > n && ((e.SlaveStart() && e.accepted && Synchronous(entry, e.od)) || Exercised(n, past, entry))
  }

  /** The comparisons of `validateSyncTopology`. */
  predicate Compatible(remoteCob: nat, remoteOverflow: nat, localCob: nat, localOverflow: nat) {
    && !Producer(remoteCob) && Producer(localCob)
    && WithoutProducer(remoteCob) == WithoutProducer(localCob)
    && remoteOverflow == localOverflow && localOverflow == 0
  }

  /** The master alone produces SYNC, on the COB-ID the node consumes, without a counter. */
  ghost predicate SoleProducer(entry: Od, localCob: nat, localOverflow: nat) {
    && SYNC_COB in entry && entry[SYNC_COB].Num? && SYNC_OVERFLOW in entry && entry[SYNC_OVERFLOW].Num?
    && Compatible(entry[SYNC_COB].n, entry[SYNC_OVERFLOW].n, localCob, localOverflow)
  }

  /** TPDO1 is enabled, event-driven and has an event timer to check afterwards. */
  ghost predicate EventDriven(entry: Od) {
    && TPDO_COB in entry && entry[TPDO_COB].Num? && !Invalid(entry[TPDO_COB].n)
    && TPDO_TYPE in entry && entry[TPDO_TYPE].Num? && entry[TPDO_TYPE].n >= EVENT_TYPE_MINIMUM
    && TPDO_EVENT in entry && entry[TPDO_EVENT].Num? && entry[TPDO_EVENT].n != 0
  }

  ghost predicate Suitable(entry: Od, localCob: nat, localOverflow: nat) {
    SoleProducer(entry, localCob, localOverflow) && EventDriven(entry)
  }

  ghost predicate Holds(od: Od, s: Snapshot) {
    && TPDO_COUNT in od && od[TPDO_COUNT] == Num(s.highest)
    && TPDO_COB in od && od[TPDO_COB] == Num(s.cobId)
    && TPDO_TYPE in od && od[TPDO_TYPE] == Num(s.transmissionType)
    && TPDO_INHIBIT in od && od[TPDO_INHIBIT] == Num(s.inhibitTime)
    && TPDO_EVENT in od && od[TPDO_EVENT] == Num(s.eventTimer)
    && TPDO_START in od && od[TPDO_START] == Num(s.syncStart)
  }

  /** `b` is `a` with at most the two fields the process writes changed. */
  ghost predicate OnlyTpdo(a: Od, b: Od) {
    b.Keys == a.Keys && forall k | k in a && k != TPDO_COB && k != TPDO_TYPE :: b[k] == a[k]
  }

  // ------------------------------------------------------------------------------------------------------------
  // The master's own SYNC objects, which the SYNC callback also writes
  // ------------------------------------------------------------------------------------------------------------

  class LocalSync {
    const cobId: nat
    const overflow: nat
    var period: nat
    var observing: bool
    /** A local access failed, or an observation window did not show what the test demands. */
    ghost var flawed: bool

    constructor (cobId: nat, overflow: nat, period: nat)
      ensures this.cobId == cobId && this.overflow == overflow && this.period == period && !flawed && !observing
    {
      this.cobId, this.overflow, this.period := cobId, overflow, period;
      observing, flawed := false, false;
    }

    /** The reads of 0x1005, 0x1006 and 0x1019; the period counts as saved once 0x1006 has been read. */
    method ReadAll() returns (ok: bool, saved: bool)
      modifies this`flawed
      ensures flawed == (old(flawed) || !ok)
      ensures ok ==> saved
    {
      ok, saved := *, *;
      saved := saved || ok;
      flawed := flawed || !ok;
    }

    /** `writeLocalSyncPeriod`: the SYNC callback may already have stopped the producer again. */
    method WritePeriod(us: nat) returns (ok: bool)
      modifies this`flawed, this`period
      ensures flawed == (old(flawed) || !ok)
      ensures ok ==> period == us || (observing && period == 0)
      ensures !ok && !observing ==> period == old(period)
    {
      ok := *;
      flawed := flawed || !ok;
      if ok { period := us; }
      var stopped: bool := *;
      if observing && stopped { period := 0; }
    }

    /** One observation window; the fifth SYNC inside it stops the producer. */
    method Observe() returns (ok: bool)
      modifies this`flawed, this`period
      ensures flawed == (old(flawed) || !ok)
      ensures !observing ==> period == old(period)
    {
      ok := *;
      flawed := flawed || !ok;
      var stopped: bool := *;
      if observing && stopped { period := 0; }
    }
  }

  // ------------------------------------------------------------------------------------------------------------
  // Transfers
  // ------------------------------------------------------------------------------------------------------------

  /** What a helper that starts on a usable channel keeps; `lost` is its share of `completion_wait_timed_out`. */
  ghost predicate Kept(slave: Slave, n: nat, entry: Od, before: Trace, ok: bool, lost: bool)
    reads slave
  {
    && n <= Depth(before) <= Depth(slave.trace)
    && Disciplined(n, slave.trace, entry)
    && (Flawless(n, slave.trace) ==> Flawless(n, before))
    && (Exercised(n, before, entry) ==> Exercised(n, slave.trace, entry))
    && (Started(n, slave.trace) ==> Started(n, before))
    && (lost ==> !ok && !slave.rebooting && Phase(slave.trace) == Unknown && !Flawless(n, slave.trace))
    && (!lost ==> slave.Usable())
  }

  ghost predicate After(slave: Slave, n: nat, entry: Od, before: Trace, ok: bool, lost: bool)
    reads slave
  {
    Kept(slave, n, entry, before, ok, lost) && (Flawless(n, slave.trace) <==> ok && Flawless(n, before))
  }

  /** One remote upload with the WAIT_TIMEOUT classification every caller applies. */
  method ReadField(slave: Slave, obj: Obj, ghost n: nat, ghost entry: Od)
    returns (ok: bool, value: nat, lost: bool)
    requires slave.Usable() && n <= Depth(slave.trace) && Disciplined(n, slave.trace, entry)
    modifies slave
    ensures After(slave, n, entry, old(slave.trace), ok, lost)
    ensures slave.od == old(slave.od) && slave.inflight == slave.lingering == {}
    ensures ok ==> obj in slave.od && slave.od[obj] == Num(value)
    ensures slave.trace.Then? && slave.trace.past == old(slave.trace) && slave.trace.last.Upload?
    ensures if ok then slave.trace.last == Upload(obj, Success, Num(value)) else slave.trace.last.outcome != Success
  {
    var o: Outcome;
    o, value := slave.ReadNum(obj);
    ok, lost := o == Success, o == WaitTimeout;
  }

  /** One remote download with the same classification. */
  method WriteField(slave: Slave, obj: Obj, value: nat, ghost n: nat, ghost entry: Od)
    returns (ok: bool, lost: bool)
    requires slave.Usable() && n <= Depth(slave.trace) && Disciplined(n, slave.trace, entry)
    requires obj == TPDO_COB || (obj == TPDO_TYPE && JustDisabled(slave.trace))
    modifies slave
    ensures ok && obj == TPDO_COB && Invalid(value) ==> JustDisabled(slave.trace)
    ensures After(slave, n, entry, old(slave.trace), ok, lost)
    ensures ok ==> obj in old(slave.od) && slave.od == old(slave.od)[obj := Num(value)]
    ensures !lost && OnlyTpdo(entry, old(slave.od)) ==> OnlyTpdo(entry, slave.od)
  {
    var o := slave.WriteTo(obj, Num(value));
    ok, lost := o == Success, o == WaitTimeout;
  }

  /** `issueNmtCommand` outside a recovery. */
  method Send(slave: Slave, cmd: NmtCommand, toSlave: bool, ghost n: nat, ghost entry: Od) returns (ok: bool)
    requires slave.Settled() && n <= Depth(slave.trace) && Disciplined(n, slave.trace, entry)
    requires cmd == Start
    requires toSlave ==> Restored(entry, slave.od) || TestStart(n, slave.trace, slave.od, entry)
    modifies slave
    ensures n <= Depth(slave.trace) && Disciplined(n, slave.trace, entry)
    ensures slave.Settled() && slave.od == old(slave.od) && Phase(slave.trace) == old(Phase(slave.trace))
    ensures Flawless(n, slave.trace) <==> ok && Flawless(n, old(slave.trace))
    ensures Exercised(n, old(slave.trace), entry) ==> Exercised(n, slave.trace, entry)
    ensures ok && toSlave && Synchronous(entry, old(slave.od)) ==> Exercised(n, slave.trace, entry)
    ensures !toSlave && Started(n, slave.trace) ==> Started(n, old(slave.trace))
    ensures slave.trace.Then? && slave.trace.past == old(slave.trace)
    ensures slave.trace.last == Command(cmd, toSlave, ok, old(slave.od), true)
  {
    ok := slave.Issue(cmd, toSlave);
  }

  /** `issueNmtCommandAndWaitForState` into Pre-operational, outside a recovery. */
  method EnterPreoperational(slave: Slave, ghost n: nat, ghost entry: Od) returns (ok: bool)
    requires slave.Usable() && n <= Depth(slave.trace) && Disciplined(n, slave.trace, entry)
    modifies slave
    ensures After(slave, n, entry, old(slave.trace), ok, false)
    ensures slave.od == old(slave.od)
  {
    ok := slave.IssueAndConfirm(EnterPreop);
    assert slave.trace.last.Confirm? ==>
      && Disciplined(n, slave.trace.past, entry) && Depth(slave.trace.past) > n
      && Phase(slave.trace.past) == Known && (Flawless(n, slave.trace.past) <==> Flawless(n, old(slave.trace)))
      && (Exercised(n, old(slave.trace), entry) ==> Exercised(n, slave.trace.past, entry))
      && (Started(n, slave.trace.past) ==> Started(n, old(slave.trace)));
  }

  /** The six uploads of a snapshot. */
  ghost function SnapshotRead(t: Trace, s: Snapshot): Trace {
    Then(Then(Then(Then(Then(Then(t,
      Upload(TPDO_COUNT, Success, Num(s.highest))), Upload(TPDO_COB, Success, Num(s.cobId))),
      Upload(TPDO_TYPE, Success, Num(s.transmissionType))), Upload(TPDO_INHIBIT, Success, Num(s.inhibitTime))),
      Upload(TPDO_EVENT, Success, Num(s.eventTimer))), Upload(TPDO_START, Success, Num(s.syncStart)))
  }

  lemma UploadsOf(t: Trace, s: Snapshot)
    ensures OnlyUploads(t, SnapshotRead(t, s))
  {
    var a := SnapshotRead(t, s).past.past.past;
    assert OnlyUploads(t, t) && OnlyUploads(t, a.past.past) && OnlyUploads(t, a);
  }

  /** A snapshot that differs shows in the uploads. */
  lemma SnapshotDeviates(t: Trace, s: Snapshot, original: Snapshot, entry: Od)
    requires Holds(entry, original) && s != original
    ensures Deviates(SnapshotRead(t, s), entry)
  {
    var all := SnapshotRead(t, s);
    assert s.syncStart != original.syncStart ==> Deviates(all, entry);
    assert s.eventTimer != original.eventTimer ==> Deviates(all.past, entry);
    assert s.inhibitTime != original.inhibitTime ==> Deviates(all.past.past, entry);
    assert s.transmissionType != original.transmissionType ==> Deviates(all.past.past.past, entry);
    assert s.cobId != original.cobId ==> Deviates(all.past.past.past.past, entry);
    assert s.highest != original.highest ==> Deviates(all.past.past.past.past.past, entry);
    assert Deviates(all.past.past.past.past, entry) ==> Deviates(all.past.past.past, entry);
    assert Deviates(all.past.past.past, entry) ==> Deviates(all.past.past, entry);
  }

  /** `readTpdoSnapshot`. */
  method ReadSnapshot(slave: Slave, ghost n: nat, ghost entry: Od)
    returns (ok: bool, s: Snapshot, lost: bool)
    requires slave.Usable() && n <= Depth(slave.trace) && Disciplined(n, slave.trace, entry)
    modifies slave
    ensures After(slave, n, entry, old(slave.trace), ok, lost)
    ensures slave.od == old(slave.od) && slave.inflight == slave.lingering == {}
    ensures ok ==> Holds(slave.od, s) && slave.trace == SnapshotRead(old(slave.trace), s)
    ensures !ok ==> OnlyUploads(old(slave.trace), slave.trace) && Deviates(slave.trace, entry)
  {
    hide Disciplined, Flawless, Exercised, Started, Depth, Phase;
    var count, cob, kind, inhibit, event, start := 0, 0, 0, 0, 0, 0;
    ok, count, lost := ReadField(slave, TPDO_COUNT, n, entry);
    assert OnlyUploads(old(slave.trace), slave.trace.past) && OnlyUploads(old(slave.trace), slave.trace);
    if ok { ok, cob, lost := ReadField(slave, TPDO_COB, n, entry); }
    assert OnlyUploads(old(slave.trace), slave.trace);
    if ok { ok, kind, lost := ReadField(slave, TPDO_TYPE, n, entry); }
    assert OnlyUploads(old(slave.trace), slave.trace);
    if ok { ok, inhibit, lost := ReadField(slave, TPDO_INHIBIT, n, entry); }
    assert OnlyUploads(old(slave.trace), slave.trace);
    if ok { ok, event, lost := ReadField(slave, TPDO_EVENT, n, entry); }
    assert OnlyUploads(old(slave.trace), slave.trace);
    if ok { ok, start, lost := ReadField(slave, TPDO_START, n, entry); }
    s := Snapshot(count, cob, kind, inhibit, event, start);
  }

  /** The three writes of `configureSynchronousTpdo`: disable, set the type, enable. */
  method WriteType(slave: Slave, cobId: nat, kind: nat, ghost n: nat, ghost entry: Od)
    returns (ok: bool, lost: bool)
    requires slave.Usable() && n <= Depth(slave.trace) && Disciplined(n, slave.trace, entry)
    requires OnlyTpdo(entry, slave.od)
    modifies slave
    ensures After(slave, n, entry, old(slave.trace), ok, lost)
    ensures !lost ==> OnlyTpdo(entry, slave.od)
    ensures ok ==> TPDO_COB in slave.od && slave.od[TPDO_COB] == Num(cobId)
    ensures ok ==> TPDO_TYPE in slave.od && slave.od[TPDO_TYPE] == Num(kind)
  {
    ok, lost := WriteField(slave, TPDO_COB, Disabled(cobId), n, entry);
    if ok { ok, lost := WriteField(slave, TPDO_TYPE, kind, n, entry); }
    if ok { ok, lost := WriteField(slave, TPDO_COB, cobId, n, entry); }
  }

  /** `restoreTpdoConfiguration`: with the saved values, the writes undo everything the process changed. */
  method RestoreConfiguration(slave: Slave, original: Snapshot, ghost n: nat, ghost entry: Od)
    returns (ok: bool, lost: bool)
    requires slave.Usable() && n <= Depth(slave.trace) && Disciplined(n, slave.trace, entry)
    requires OnlyTpdo(entry, slave.od) && Holds(entry, original)
    modifies slave
    ensures After(slave, n, entry, old(slave.trace), ok, lost)
    ensures !lost ==> OnlyTpdo(entry, slave.od)
    ensures ok ==> slave.od == entry
  {
    ok, lost := WriteType(slave, original.cobId, original.transmissionType, n, entry);
  }

  /** `verifyRestoredTpdoState`: every saved field is read back and compared. */
  method VerifyRestored(slave: Slave, original: Snapshot, syncCob: nat, ghost n: nat, ghost entry: Od)
    returns (ok: bool, lost: bool)
    requires slave.Usable() && n <= Depth(slave.trace) && Disciplined(n, slave.trace, entry)
    requires Holds(entry, original) && SYNC_COB in entry && entry[SYNC_COB] == Num(syncCob)
    modifies slave
    ensures Kept(slave, n, entry, old(slave.trace), ok, lost)
    ensures slave.od == old(slave.od)
    ensures ok ==> Restored(entry, slave.od)
    ensures ok ==> (Flawless(n, old(slave.trace)) ==> Flawless(n, slave.trace))
    ensures Flawless(n, slave.trace) && Restored(entry, slave.od) ==> ok
    ensures OnlyUploads(old(slave.trace), slave.trace) && (!ok ==> Deviates(slave.trace, entry))
  {
    var restored: Snapshot;
    ok, restored, lost := ReadSnapshot(slave, n, entry);
    if ok {
      UploadsOf(old(slave.trace), restored);
      ok := restored == original;
      if !ok { SnapshotDeviates(old(slave.trace), restored, original, entry); }
      if ok {
        var actual: nat;
        ok, actual, lost := ReadField(slave, SYNC_COB, n, entry);
        ok := ok && actual == syncCob;
      }
    }
  }

  /** The steps of a recovery that transfer nothing keep the discipline, and a run with one is not flawless. */
  lemma RecoveryStep(n: nat, before: Trace, e: Event, entry: Od)
    requires n <= Depth(before) && Disciplined(n, before, entry) && !e.Sdo() && !e.SlaveStart() && !e.Pdo?
    ensures n <= Depth(Then(before, e)) && Disciplined(n, Then(before, e), entry)
    ensures e.PrepareBoot? || !Flawless(n, before) ==> !Flawless(n, Then(before, e))
  {}

  /** The first half of the recovery: Reset Communication, a fresh Boot and a confirmed Pre-operational state. */
  method ReopenWithReset(slave: Slave, ghost n: nat, ghost entry: Od) returns (ok: bool, wasReset: bool)
    requires n <= Depth(slave.trace) && Disciplined(n, slave.trace, entry)
    modifies slave
    ensures n <= Depth(slave.trace) && Disciplined(n, slave.trace, entry) && !Flawless(n, slave.trace)
    ensures if ok then wasReset && slave.Usable() && Reopened(old(slave.trace), slave.trace)
            else ResetFailed(old(slave.trace), slave.trace) || PreopFailed(old(slave.trace), slave.trace)
  {
    hide Disciplined, Flawless, Depth;
    ghost var before := slave.trace;
    wasReset := false;
    slave.PrepareBootWait();
    RecoveryStep(n, before, PrepareBoot, entry);
    ghost var prepared := slave.trace;
    ok := slave.Issue(ResetComm, true);
    RecoveryStep(n, prepared, slave.trace.last, entry);
    if !ok { return; }
    wasReset := true;
    ghost var reset := slave.trace;
    ok := slave.WaitForBoot();
    RecoveryStep(n, reset, slave.trace.last, entry);
    if !ok { return; }
    ghost var booted := slave.trace;
    assert BootSaid(before, booted, true) && Phase(booted) == Booted;
    ok := slave.IssueAndConfirm(EnterPreop);
    if slave.trace.last.Confirm? {
      RecoveryStep(n, booted, slave.trace.past.last, entry);
      assert Phase(slave.trace.past) == Booted;
      RecoveryStep(n, slave.trace.past, slave.trace.last, entry);
    } else {
      RecoveryStep(n, booted, slave.trace.last, entry);
    }
  }

  /**
   `recoverTpdoStateWithReset`: Reset Communication, a fresh Boot and a confirmed Pre-operational state close every
   earlier transaction; only then is the node read back. `timedOut` is the flag passed by reference in the source. If it
   fails, the history ends with a recovery that was tried and shows where it failed.
   */
  method RecoverWithReset(slave: Slave, original: Snapshot, syncCob: nat, timedOut0: bool, needsStart0: bool,
                          ghost n: nat, ghost entry: Od)
    returns (ok: bool, timedOut: bool, needsStart: bool)
    requires n <= Depth(slave.trace) && Disciplined(n, slave.trace, entry)
    requires Holds(entry, original) && SYNC_COB in entry && entry[SYNC_COB] == Num(syncCob)
    modifies slave
    ensures n <= Depth(slave.trace) && Disciplined(n, slave.trace, entry) && !Flawless(n, slave.trace)
    ensures ok ==> !timedOut && slave.Usable() && Restored(entry, slave.od)
    ensures if ok then exists r :: Reopened(old(slave.trace), r) && OnlyUploads(r, slave.trace)
            else RecoveryFailed(old(slave.trace), slave.trace, entry)
  {
    hide Disciplined, Flawless, Exercised, Started, Depth, Phase, Reopened, OnlyUploads, Deviates, Restored;
    timedOut := timedOut0;
    var wasReset;
    ok, wasReset := ReopenWithReset(slave, n, entry);
    needsStart := needsStart0 || wasReset;
    if !ok { return; }
    ghost var reopened := slave.trace;
    ok, timedOut := VerifyRestored(slave, original, syncCob, n, entry);
    assert !ok ==> ReadBackFailed(old(slave.trace), reopened, slave.trace, entry);
  }

  // ------------------------------------------------------------------------------------------------------------
  // The process
  // ------------------------------------------------------------------------------------------------------------

  /** The local variables of `syncPdoProcess`. */
  datatype Flags = Flags(
    result: nat,
    snapshotSaved: bool,
    tpdoModificationAttempted: bool,
    temporaryConfigurationCompleted: bool,
    restorationVerified: bool,
    completionWaitTimedOut: bool,
    callbacksRegistered: bool,
    localSyncPeriodSaved: bool,
    localSyncPeriodTouched: bool,
    slaveNeedsStart: bool,
    remoteSyncCobId: nat,
    originalLocalSyncPeriod: nat,
    original: Snapshot)
  {
    function Fail(): Flags { this.(result := 1) }
  }

  /** Where the run started. */
  datatype Origin = Origin(n: nat, entry: Od, period: nat)

  /** What the flags say about the node, whatever happened so far. */
  ghost predicate Facts(f: Flags, g: Origin, slave: Slave, local: LocalSync)
    reads slave, local
  {
    && g.n <= Depth(slave.trace) && Disciplined(g.n, slave.trace, g.entry)
    && (f.result == 0 || f.result == 1)
    && (f.result == 0 ==> Flawless(g.n, slave.trace) && !local.flawed)
    && (f.result == 1 ==>
          !Flawless(g.n, slave.trace) || local.flawed || !Suitable(g.entry, local.cobId, local.overflow))
    && (f.localSyncPeriodSaved ==> f.originalLocalSyncPeriod == g.period)
    && (!f.localSyncPeriodTouched ==> local.period == g.period && !local.observing)
    && (f.snapshotSaved ==>
          Holds(g.entry, f.original) && SYNC_COB in g.entry && g.entry[SYNC_COB] == Num(f.remoteSyncCobId))
    && (f.result == 0 && f.snapshotSaved ==>
          Suitable(g.entry, local.cobId, local.overflow) && f.localSyncPeriodSaved)
    && (f.result == 0 && f.callbacksRegistered ==> Exercised(g.n, slave.trace, g.entry))
    && (f.tpdoModificationAttempted ==> f.snapshotSaved)
    && (!f.tpdoModificationAttempted ==> slave.od == g.entry && slave.Settled())
  }

  /** Before any reset: the channel is usable unless the flag says otherwise. */
  ghost predicate Testing(f: Flags, g: Origin, slave: Slave, local: LocalSync)
    reads slave, local
  {
    && Facts(f, g, slave, local)
    && !slave.rebooting && !f.restorationVerified
    && (!f.callbacksRegistered ==> !Started(g.n, slave.trace))
    && (if f.completionWaitTimedOut then f.result == 1 && Phase(slave.trace) == Unknown else slave.Usable())
    && (f.tpdoModificationAttempted && !f.completionWaitTimedOut ==> OnlyTpdo(g.entry, slave.od))
  }

  /** Once the restoration paths have been tried. */
  ghost predicate Closed(f: Flags, g: Origin, slave: Slave, local: LocalSync)
    reads slave, local
  {
    && Facts(f, g, slave, local)
    && (f.restorationVerified ==> slave.Usable() && Restored(g.entry, slave.od))
    && (f.tpdoModificationAttempted && !f.restorationVerified ==>
          f.result == 1 && GaveUp(g.n, slave.trace, g.entry))
    && (f.result == 0 ==> slave.Usable() && slave.od == g.entry)
  }

  /** Step 1: `validateSyncTopology`. */
  method ValidateTopology(slave: Slave, local: LocalSync, f0: Flags, ghost g: Origin) returns (f: Flags)
    requires Testing(f0, g, slave, local) && f0.result == 0 && !f0.snapshotSaved && !f0.localSyncPeriodTouched
    requires !f0.tpdoModificationAttempted
    modifies slave, local`flawed
    ensures Testing(f, g, slave, local)
    ensures f == f0.(result := f.result, remoteSyncCobId := f.remoteSyncCobId,
                     completionWaitTimedOut := f.completionWaitTimedOut,
                     originalLocalSyncPeriod := f.originalLocalSyncPeriod,
                     localSyncPeriodSaved := f.localSyncPeriodSaved)
    ensures f.result == 0 ==> f.localSyncPeriodSaved && SoleProducer(g.entry, local.cobId, local.overflow)
    ensures f.result == 0 ==> g.entry[SYNC_COB] == Num(f.remoteSyncCobId)
  {
    hide Disciplined, Flawless, Exercised, Started, Depth, Phase;
    var ok, remote, overflow, lost := false, 0, 0, false;
    ok, remote, lost := ReadField(slave, SYNC_COB, g.n, g.entry);
    if ok { ok, overflow, lost := ReadField(slave, SYNC_OVERFLOW, g.n, g.entry); }
    f := f0.(remoteSyncCobId := remote, completionWaitTimedOut := lost);
    if !ok { return f.Fail(); }
    var saved;
    ok, saved := local.ReadAll();
    if saved { f := f.(originalLocalSyncPeriod := local.period, localSyncPeriodSaved := true); }
    if !(ok && Compatible(remote, overflow, local.cobId, local.overflow)) { f := f.Fail(); }
  }

  /** Steps 2 and 3: the master stays Operational, the node is confirmed in Pre-operational. */
  method EnterConfiguration(slave: Slave, local: LocalSync, f0: Flags, ghost g: Origin) returns (f: Flags)
    requires Testing(f0, g, slave, local) && f0.result == 0 && !f0.tpdoModificationAttempted
    modifies slave
    ensures Testing(f, g, slave, local)
    ensures f == f0.(result := f.result, slaveNeedsStart := f.slaveNeedsStart)
    ensures f.result == 0 ==> f.slaveNeedsStart
  {
    hide Disciplined, Flawless, Exercised, Started, Depth, Phase;
    f := f0;
    var accepted := Send(slave, Start, false, g.n, g.entry);
    if !accepted { return f.Fail(); }
    f := f.(slaveNeedsStart := true);
    var confirmed := EnterPreoperational(slave, g.n, g.entry);
    if !confirmed { f := f.Fail(); }
  }

  /** Steps 4 and 5: a complete snapshot that is fit for the test. */
  method SaveSnapshot(slave: Slave, local: LocalSync, f0: Flags, ghost g: Origin) returns (f: Flags)
    requires Testing(f0, g, slave, local) && f0.result == 0 && !f0.snapshotSaved
    requires f0.localSyncPeriodSaved && SoleProducer(g.entry, local.cobId, local.overflow)
    requires g.entry[SYNC_COB] == Num(f0.remoteSyncCobId)
    modifies slave
    ensures Testing(f, g, slave, local)
    ensures f == f0.(result := f.result, completionWaitTimedOut := f.completionWaitTimedOut,
                     snapshotSaved := f.snapshotSaved, original := f.original)
    ensures f.result == 0 ==> f.snapshotSaved
  {
    var ok, original, lost := ReadSnapshot(slave, g.n, g.entry);
    f := f0.(completionWaitTimedOut := lost, original := original, snapshotSaved := ok);
    if !ok || Invalid(original.cobId) || original.transmissionType < EVENT_TYPE_MINIMUM || original.eventTimer == 0 {
      f := f.Fail();
    }
  }

  /** Steps 6 and 7: stop SYNC, then make TPDO1 synchronous. */
  method Configure(slave: Slave, local: LocalSync, f0: Flags, ghost g: Origin) returns (f: Flags)
    requires Testing(f0, g, slave, local) && f0.result == 0 && f0.snapshotSaved
    requires !f0.tpdoModificationAttempted && !f0.localSyncPeriodTouched
    modifies slave, local`flawed, local`period
    ensures Testing(f, g, slave, local)
    ensures f == f0.(result := f.result, localSyncPeriodTouched := f.localSyncPeriodTouched,
                     tpdoModificationAttempted := f.tpdoModificationAttempted,
                     completionWaitTimedOut := f.completionWaitTimedOut,
                     temporaryConfigurationCompleted := f.temporaryConfigurationCompleted)
    ensures f.result == 0 ==>
      f.tpdoModificationAttempted && f.localSyncPeriodTouched && Synchronous(g.entry, slave.od)
  {
    f := f0;
    var ok := local.WritePeriod(0);
    if !ok { return f.Fail(); }
    f := f.(localSyncPeriodTouched := true, tpdoModificationAttempted := true);
    var lost;
    ok, lost := WriteType(slave, f.original.cobId, SYNCHRONOUS_TYPE, g.n, g.entry);
    f := f.(completionWaitTimedOut := lost, temporaryConfigurationCompleted := ok);
    if !ok { f := f.Fail(); }
  }

  /** Step 8: read both written fields back. */
  method ReadBack(slave: Slave, local: LocalSync, f0: Flags, ghost g: Origin) returns (f: Flags)
    requires Testing(f0, g, slave, local) && f0.result == 0
    requires f0.tpdoModificationAttempted && Synchronous(g.entry, slave.od)
    modifies slave
    ensures Testing(f, g, slave, local) && slave.od == old(slave.od)
    ensures f == f0.(result := f.result, completionWaitTimedOut := f.completionWaitTimedOut)
    ensures f.result == 0 ==> JustReadBack(slave.trace)
  {
    var ok, cob, kind, lost := false, 0, 0, false;
    ok, cob, lost := ReadField(slave, TPDO_COB, g.n, g.entry);
    if ok { ok, kind, lost := ReadField(slave, TPDO_TYPE, g.n, g.entry); }
    f := f0.(completionWaitTimedOut := lost);
    if !(ok && cob == f.original.cobId && kind == SYNCHRONOUS_TYPE) { f := f.Fail(); }
  }

  /** Steps 9 to 11: start the node, observe the quiet window and the five pairs. */
  method Exercise(slave: Slave, local: LocalSync, f0: Flags, ghost g: Origin) returns (f: Flags)
    requires Testing(f0, g, slave, local) && f0.result == 0 && f0.localSyncPeriodTouched && !f0.callbacksRegistered
    requires f0.tpdoModificationAttempted && Synchronous(g.entry, slave.od) && JustReadBack(slave.trace)
    modifies slave, local`flawed, local`period, local`observing
    ensures Testing(f, g, slave, local) && slave.od == old(slave.od)
    ensures f == f0.(result := f.result, callbacksRegistered := true, slaveNeedsStart := f.slaveNeedsStart)
  {
    local.observing := true;
    f := f0.(callbacksRegistered := true);
    var ok := Send(slave, Start, true, g.n, g.entry);
    if !ok { return f.Fail(); }
    f := f.(slaveNeedsStart := false);
    ok := local.Observe();
    if ok { ok := local.WritePeriod(SYNC_PERIOD_US); }
    if ok { ok := local.Observe(); }
    if ok { ok := local.Observe(); }
    if !ok { f := f.Fail(); }
  }

  /** Step 12: stop SYNC before any restoration. */
  method StopSync(slave: Slave, local: LocalSync, f0: Flags, ghost g: Origin) returns (f: Flags)
    requires Testing(f0, g, slave, local) && f0.localSyncPeriodTouched
    modifies local`flawed, local`period
    ensures Testing(f, g, slave, local)
    ensures f == f0.(result := f.result) && f0.result <= f.result
  {
    f := f0;
    var stopped := local.WritePeriod(0);
    if !stopped { f := f.Fail(); }
  }

  /** Step 13, first half: Pre-operational again before anything is written. */
  method ReenterConfiguration(slave: Slave, local: LocalSync, f0: Flags, ghost g: Origin) returns (f: Flags)
    requires Testing(f0, g, slave, local) && f0.tpdoModificationAttempted && !f0.completionWaitTimedOut
    modifies slave
    ensures Testing(f, g, slave, local)
    ensures f == f0.(result := f.result, slaveNeedsStart := f.slaveNeedsStart) && f0.result <= f.result
    ensures f.slaveNeedsStart || f.result == 1
  {
    f := f0.(slaveNeedsStart := true);
    if !f0.slaveNeedsStart {
      var confirmed := EnterPreoperational(slave, g.n, g.entry);
      if !confirmed { f := f0.Fail(); }
    }
  }

  /** Step 13, second half: write the saved values and read everything back. */
  method RestoreNormally(slave: Slave, local: LocalSync, f0: Flags, ghost g: Origin) returns (f: Flags)
    requires Testing(f0, g, slave, local) && f0.tpdoModificationAttempted && !f0.completionWaitTimedOut
    modifies slave
    ensures if f.restorationVerified then Closed(f, g, slave, local) else Testing(f, g, slave, local) && f.result == 1
    ensures f == f0.(result := f.result, completionWaitTimedOut := f.completionWaitTimedOut,
                     restorationVerified := f.restorationVerified)
    ensures f.restorationVerified ==> f.result == f0.result && !f.completionWaitTimedOut
  {
    hide GaveUp, Disciplined, Flawless, Exercised, Started, Depth, Phase;
    var ok, lost := RestoreConfiguration(slave, f0.original, g.n, g.entry);
    if ok {
      ok, lost := VerifyRestored(slave, f0.original, f0.remoteSyncCobId, g.n, g.entry);
    }
    f := f0.(completionWaitTimedOut := lost, restorationVerified := ok, result := if ok then f0.result else 1);
    assert Facts(f, g, slave, local);
  }

  /** Step 14: recovery whenever a modification could not be proved undone. */
  method Recover(slave: Slave, local: LocalSync, f0: Flags, ghost g: Origin) returns (f: Flags)
    requires Testing(f0, g, slave, local) && f0.tpdoModificationAttempted
    modifies slave
    ensures Closed(f, g, slave, local) && f.result == 1
    ensures f == f0.(result := 1, slaveNeedsStart := f.slaveNeedsStart,
                     completionWaitTimedOut := f.completionWaitTimedOut,
                     restorationVerified := f.restorationVerified)
    ensures f.restorationVerified ==> !f.completionWaitTimedOut
  {
    var ok, timedOut, needsStart := RecoverWithReset(
      slave, f0.original, f0.remoteSyncCobId, f0.completionWaitTimedOut, f0.slaveNeedsStart, g.n, g.entry);
    f := f0.(result := 1, completionWaitTimedOut := timedOut, slaveNeedsStart := needsStart,
             restorationVerified := ok);
  }

  /** An unmodified or verifiably restored TPDO1 is as it was, with nothing in flight. */
  lemma SafeToStart(f: Flags, g: Origin, slave: Slave, local: LocalSync)
    requires Closed(f, g, slave, local) && (!f.tpdoModificationAttempted || f.restorationVerified)
    ensures slave.Settled() && Restored(g.entry, slave.od)
  {}

  /** The START of step 16. */
  method SendStart(slave: Slave, local: LocalSync, f0: Flags, ghost g: Origin) returns (f: Flags)
    requires Closed(f0, g, slave, local) && (!f0.tpdoModificationAttempted || f0.restorationVerified)
    requires f0.slaveNeedsStart
    modifies slave
    ensures Closed(f, g, slave, local) && slave.od == old(slave.od)
    ensures f == f0.(result := f.result, slaveNeedsStart := f.slaveNeedsStart) && f0.result <= f.result
    ensures slave.trace == Then(old(slave.trace), Command(Start, true, !f.slaveNeedsStart, old(slave.od), true))
  {
    hide GaveUp, Disciplined, Flawless, Exercised, Started, Depth, Phase, Restored, Synchronous, Suitable, Holds;
    SafeToStart(f0, g, slave, local);
    var ok := Send(slave, Start, true, g.n, g.entry);
    f := f0.(slaveNeedsStart := !ok, result := if ok then f0.result else 1);
    assert Facts(f, g, slave, local);
  }

  /** Step 16: a node that needs it is started again, but only from a configuration known to be its own. */
  method StartAgain(slave: Slave, local: LocalSync, f0: Flags, ghost g: Origin) returns (f: Flags)
    requires Closed(f0, g, slave, local)
    modifies slave
    ensures Closed(f, g, slave, local) && slave.od == old(slave.od)
    ensures slave.trace ==
      if f0.slaveNeedsStart && (!f0.tpdoModificationAttempted || f0.restorationVerified)
      then Then(old(slave.trace), Command(Start, true, !f.slaveNeedsStart, old(slave.od), true))
      else old(slave.trace)
    ensures f == f0.(result := f.result, slaveNeedsStart := f.slaveNeedsStart) && f0.result <= f.result
  {
    hide GaveUp, Disciplined, Flawless, Exercised, Started, Depth, Phase, Restored, Synchronous, Suitable, Holds;
    f := f0;
    var startIsSafe := !f.tpdoModificationAttempted || f.restorationVerified;
    if f.slaveNeedsStart && startIsSafe {
      f := SendStart(slave, local, f, g);
    } else if f.slaveNeedsStart {
      f := f.Fail();
    }
  }

  /** Steps 15 and 17: with SYNC still off, the event timer must drive TPDO1 again. */
  method CheckEventTimer(slave: Slave, local: LocalSync, f0: Flags, ghost g: Origin) returns (f: Flags)
    requires Closed(f0, g, slave, local)
    modifies local`flawed, local`period
    ensures Closed(f, g, slave, local)
    ensures f == f0.(result := f.result) && f0.result <= f.result
  {
    hide GaveUp;
    f := f0;
    if f.temporaryConfigurationCompleted && f.restorationVerified && f.callbacksRegistered && !f.slaveNeedsStart {
      var ok := local.Observe();
      if !ok { f := f.Fail(); }
    }
  }

  /** Steps 18 and 19: drop the callbacks, then give the master its own SYNC period back. */
  method Release(slave: Slave, local: LocalSync, f0: Flags, ghost g: Origin) returns (f: Flags)
    requires Closed(f0, g, slave, local) && (local.observing ==> f0.callbacksRegistered)
    modifies local`flawed, local`period, local`observing
    ensures Closed(f, g, slave, local)
    ensures f == f0.(result := f.result) && f0.result <= f.result
    ensures f.result == 0 && f.localSyncPeriodSaved ==> local.period == g.period
  {
    hide GaveUp, Disciplined, Flawless, Exercised, Started, Depth, Phase;
    f := f0;
    if f.callbacksRegistered { local.observing := false; }
    if f.localSyncPeriodTouched && f.localSyncPeriodSaved {
      var ok := local.WritePeriod(f.originalLocalSyncPeriod);
      if !ok { f := f.Fail(); }
    }
  }

  /** Steps 1 to 12. */
  method Test(slave: Slave, local: LocalSync, f0: Flags, ghost g: Origin) returns (f: Flags)
    requires Testing(f0, g, slave, local) && f0.result == 0 && !f0.snapshotSaved && !f0.localSyncPeriodTouched
    requires !f0.tpdoModificationAttempted && !f0.callbacksRegistered
    modifies slave, local
    ensures Testing(f, g, slave, local) && (local.observing ==> f.callbacksRegistered)
    ensures f.result == 0 ==> f.snapshotSaved && f.tpdoModificationAttempted && f.callbacksRegistered
  {
    hide Disciplined, Flawless, Exercised, Started, Depth, Phase;
    f := ValidateTopology(slave, local, f0, g);
    if f.result == 0 { f := EnterConfiguration(slave, local, f, g); }
    if f.result == 0 { f := SaveSnapshot(slave, local, f, g); }
    if f.result == 0 { f := Configure(slave, local, f, g); }
    if f.result == 0 { f := ReadBack(slave, local, f, g); }
    if f.result == 0 { f := Exercise(slave, local, f, g); }
    if f.localSyncPeriodTouched { f := StopSync(slave, local, f, g); }
  }

  lemma NothingToRestore(f: Flags, g: Origin, slave: Slave, local: LocalSync)
    requires Testing(f, g, slave, local) && !f.tpdoModificationAttempted && f.result != 0
    ensures Closed(f, g, slave, local)
  {}

  lemma Results(f: Flags, g: Origin, slave: Slave, local: LocalSync)
    requires Testing(f, g, slave, local)
    ensures (f.result == 0 || f.result == 1) && !f.restorationVerified
    ensures f.completionWaitTimedOut ==> f.result == 1
  {}

  /** Steps 13 and 14. */
  method Restore(slave: Slave, local: LocalSync, f0: Flags, ghost g: Origin) returns (f: Flags)
    requires Testing(f0, g, slave, local)
    requires f0.result == 0 ==> f0.tpdoModificationAttempted
    modifies slave
    ensures Closed(f, g, slave, local)
    ensures f == f0.(result := f.result, slaveNeedsStart := f.slaveNeedsStart,
                     completionWaitTimedOut := f.completionWaitTimedOut,
                     restorationVerified := f.restorationVerified)
    ensures f0.result <= f.result && (f.completionWaitTimedOut ==> f.result == 1)
  {
    hide GaveUp, Testing, Facts, Closed, Disciplined, Flawless, Exercised, Started, Depth, Phase;
    Results(f0, g, slave, local);
    f := f0;
    if !f.tpdoModificationAttempted { NothingToRestore(f0, g, slave, local); }
    if f.tpdoModificationAttempted {
      if !f.completionWaitTimedOut {
        f := ReenterConfiguration(slave, local, f, g);
        Results(f, g, slave, local);
        if f.slaveNeedsStart { f := RestoreNormally(slave, local, f, g); }
      }
      if !f.restorationVerified { f := Recover(slave, local, f, g); }
    }
    if f.completionWaitTimedOut {
      assert f.Fail() == f;
      f := f.Fail();
    }
  }

  /** Steps 13 to 19. */
  method Cleanup(slave: Slave, local: LocalSync, f0: Flags, ghost g: Origin) returns (f: Flags)
    requires Testing(f0, g, slave, local) && (local.observing ==> f0.callbacksRegistered)
    requires f0.result == 0 ==> f0.snapshotSaved && f0.tpdoModificationAttempted && f0.callbacksRegistered
    modifies slave, local
    ensures Closed(f, g, slave, local)
    ensures f.result == 0 ==> local.period == g.period && f.snapshotSaved && f.callbacksRegistered
  {
    hide Disciplined, Flawless, Exercised, Started, Depth, Phase;
    f := Restore(slave, local, f0, g);
    f := StartAgain(slave, local, f, g);
    f := CheckEventTimer(slave, local, f, g);
    f := Release(slave, local, f, g);
  }

  /**
   The whole process against a node on which every earlier transaction is closed.
   The result is 0 exactly when the node was suitable and nothing failed; then the node has been exercised in the
   synchronous configuration, and node and master are as they were.
   Whatever the result, the transfer and START discipline held at every step, and a verified restoration is real. A
   node that was touched and is not verified has been through a recovery that visibly failed, and nothing came after it.
   */
  method SyncPdoProcess(slave: Slave, local: LocalSync) returns (result: nat, verified: bool, attempted: bool)
    requires slave.Usable() && !local.observing && !local.flawed
    modifies slave, local
    ensures Disciplined(Depth(old(slave.trace)), slave.trace, old(slave.od))
    ensures result == 0 <==>
      && Suitable(old(slave.od), local.cobId, local.overflow)
      && Flawless(Depth(old(slave.trace)), slave.trace)
      && !local.flawed
    ensures result == 0 ==> slave.Usable() && slave.od == old(slave.od) && local.period == old(local.period)
    ensures result == 0 ==> Exercised(Depth(old(slave.trace)), slave.trace, old(slave.od))
    ensures verified ==> slave.Usable() && Restored(old(slave.od), slave.od)
    ensures attempted && !verified ==> result == 1 && GaveUp(Depth(old(slave.trace)), slave.trace, old(slave.od))
    ensures !attempted ==> slave.Settled() && slave.od == old(slave.od)
  {
    ghost var g := Origin(Depth(slave.trace), slave.od, local.period);
    assert Disciplined(g.n, slave.trace, g.entry) && Flawless(g.n, slave.trace) by {
      if !slave.trace.Nothing? { assert Depth(slave.trace) <= g.n; }
    }
    var f := Flags(0, false, false, false, false, false, false, false, false, false, 0, 0, Snapshot(0, 0, 0, 0, 0, 0));
    f := Test(slave, local, f, g);
    f := Cleanup(slave, local, f, g);
    result, verified, attempted := f.result, f.restorationVerified, f.tpdoModificationAttempted;
  }

  // ------------------------------------------------------------------------------------------------------------
  // What the discipline means for the history
  // ------------------------------------------------------------------------------------------------------------

  /** The event at position `j` obeyed the discipline. */
  ghost predicate OkAt(n: nat, t: Trace, j: nat, entry: Od)
    requires j < Depth(t)
  {
    StepOk(n, Prefix(t, j), At(t, j), entry)
  }

  /** The recursive discipline is the statement about every position of the history. */
  lemma {:induction false} DisciplinedEverywhere(n: nat, t: Trace, entry: Od)
    ensures Disciplined(n, t, entry) <==> forall j: nat | n <= j < Depth(t) :: OkAt(n, t, j, entry)
  {
    if t.Then? && n < Depth(t) {
      DisciplinedEverywhere(n, t.past, entry);
      var m := Depth(t.past);
      assert OkAt(n, t, m, entry) <==> StepOk(n, t.past, t.last, entry) by { assert Prefix(t, m) == t.past; }
      forall j: nat | j < m ensures OkAt(n, t, j, entry) <==> OkAt(n, t.past, j, entry) {}
    }
  }

  /**
   Once a transfer of a run was lost, the run transfers nothing more until a Reset Communication, a Boot after it and
   a confirmed Pre-operational state after that.
   */
  lemma {:induction false} NoTransferAfterLoss(n: nat, t: Trace, entry: Od, i: nat, j: nat)
    requires Disciplined(n, t, entry)
    requires n <= i < j < Depth(t) && At(t, i).Lost() && At(t, j).Sdo()
    ensures exists r: nat, b: nat, p: nat :: i < r < b < p < j && Boundary(t, r, b, p)
  {
    DisciplinedEverywhere(n, t, entry);
    var before := Prefix(t, j);
    assert OkAt(n, t, j, entry);
    AtPrefix(t, j, i);
    var r, b, p := ReopenedAfterLoss(before, i);
    AtPrefix(t, j, r);
    AtPrefix(t, j, b);
    AtPrefix(t, j, p);
    assert Boundary(t, r, b, p);
  }

  /** The transmission type is written only directly after the node has accepted a disabled COB-ID. */
  lemma TypeWrittenWhileDisabled(n: nat, t: Trace, entry: Od, j: nat)
    requires Disciplined(n, t, entry) && n <= j < Depth(t) && At(t, j).Download? && At(t, j).obj == TPDO_TYPE
    ensures j > 0 && JustDisabled(Prefix(t, j)) && At(t, j - 1) == Prefix(t, j).last
  {
    DisciplinedEverywhere(n, t, entry);
    assert OkAt(n, t, j, entry);
    AtPrefix(t, j, j - 1);
  }

  /** The node is never started while a download may still land, and, but for the test, only as it was found. */
  lemma StartsOnlyKnownConfigurations(n: nat, t: Trace, entry: Od, j: nat)
    requires Disciplined(n, t, entry) && n <= j < Depth(t) && At(t, j).SlaveStart()
    ensures At(t, j).settled
    ensures Restored(entry, At(t, j).od) || TestStart(n, Prefix(t, j), At(t, j).od, entry)
  {
    DisciplinedEverywhere(n, t, entry);
    assert OkAt(n, t, j, entry);
  }

  lemma {:induction false} StartedAt(n: nat, t: Trace, i: nat)
    requires n <= i < Depth(t) && At(t, i).SlaveStart()
    ensures Started(n, t)
  {
    if i < Depth(t) - 1 { StartedAt(n, t.past, i); }
  }

  /** After the first START of a run, and after anything that failed, the node is started only as it was found. */
  lemma OnlyRestoredAfterwards(n: nat, t: Trace, entry: Od, i: nat, j: nat)
    requires Disciplined(n, t, entry) && n <= i < j < Depth(t) && At(t, j).SlaveStart()
    requires At(t, i).SlaveStart() || At(t, i).Boot? || (At(t, i).Sdo() && At(t, i).outcome != Success)
    ensures Restored(entry, At(t, j).od)
  {
    StartsOnlyKnownConfigurations(n, t, entry, j);
    AtPrefix(t, j, i);
    if At(t, i).SlaveStart() {
      StartedAt(n, Prefix(t, j), i);
    } else if Flawless(n, Prefix(t, j)) {
      FlawlessEverywhere(n, Prefix(t, j), i);
    }
  }

  /** A run without flaw contains no reset, so a recovery is never reported as success. */
  lemma {:induction false} FlawlessEverywhere(n: nat, t: Trace, j: nat)
    requires Flawless(n, t) && n <= j < Depth(t)
    ensures !At(t, j).Lost() && !At(t, j).Boot? && (At(t, j).Sdo() ==> At(t, j).outcome == Success)
  {
    if j < Depth(t) - 1 { FlawlessEverywhere(n, t.past, j); }
  }
}
