/**
 `timeProcess`: the TIME consumer bit of 0x1012 is switched, exercised and restored, through as many as two
 Communication Resets, against a node that may leave any transfer undecided.
 */
module TimeProcess {
  import opened RemoteNode
  import opened TimeArith

  const TIME_COB := Obj(0x1012, 0)
  const TIME_COUNT := Obj(0x2300, 1)
  const TIME_MILLISECONDS := Obj(0x2300, 2)
  const TIME_DAYS := Obj(0x2300, 3)

  const CONSUMER: nat := 0x8000_0000
  const PRODUCER: nat := 0x4000_0000
  const CAN_IDS: nat := 0x800
  const SNAPSHOT_ATTEMPTS := 3

  predicate Consumes(cobId: nat) { cobId / CONSUMER % 2 == 1 }

  predicate Produces(cobId: nat) { cobId / PRODUCER % 2 == 1 }

  /** Some bit of 11..29 is set. */
  predicate Unsupported(cobId: nat) { cobId % PRODUCER / CAN_IDS != 0 }

  function Enabled(cobId: nat): nat { if Consumes(cobId) then cobId else cobId + CONSUMER }

  function DisabledCob(cobId: nat): nat { if Consumes(cobId) then cobId - CONSUMER else cobId }

  // ------------------------------------------------------------------------------------------------------------
  // What a run promises
  // ------------------------------------------------------------------------------------------------------------

  /** 0x1012 is as it was. */
  ghost predicate Restored(entry: Od, od: Od) {
    (TIME_COB in entry <==> TIME_COB in od) && (TIME_COB in entry ==> od[TIME_COB] == entry[TIME_COB])
  }

  /** SDO is open unless a transfer was lost or a reset has not been answered by a Boot. */
  predicate Open(c: Channel) { c == Known || c == Booted }

  /** SDO only on an open channel; START only with nothing in flight and 0x1012 as it was. */
  ghost predicate StepOk(before: Trace, e: Event, entry: Od) {
    && (e.Sdo() ==> Open(Phase(before)))
    && (e.SlaveStart() ==> e.settled && Restored(entry, e.od))
  }

  ghost predicate Disciplined(n: nat, t: Trace, entry: Od) {
    match t
    case Nothing => true
    case Then(past, e) => Depth(t) <= n || (Disciplined(n, past, entry) && StepOk(past, e, entry))
  }

  /** Nothing after the first `n` events failed. */
  ghost predicate Flawless(n: nat, t: Trace) {
    match t
    case Nothing => true
    case Then(past, e) =>
      Depth(t) <= n ||
      (&& Flawless(n, past)
       && (e.Sdo() ==> e.outcome == Success)
       && (e.Command? ==> e.accepted)
       && (e.Boot? ==> e.observed))
  }

  /** A consumer-only role the target supports. */
  ghost predicate Fit(entry: Od) {
    && TIME_COB in entry && entry[TIME_COB].Num?
    && !Unsupported(entry[TIME_COB].n) && !Produces(entry[TIME_COB].n)
  }

  /** The value of 0x1012 with consumption on, for a fit node. */
  ghost function On(entry: Od): nat {
    if Fit(entry) then Enabled(entry[TIME_COB].n) else 0
  }

  /** A download of this value to 0x1012 succeeded. */
  ghost predicate Wrote(e: Event, value: nat) {
    e == Download(TIME_COB, Num(value), Success)
  }

  /** Consumption has been switched off. */
  ghost predicate SwitchedOff(n: nat, t: Trace, entry: Od) {
    match t
    case Nothing => false
    case Then(past, e) => Depth(t) > n && (Wrote(e, DisabledCob(On(entry))) || SwitchedOff(n, past, entry))
  }

  /** Consumption has been switched off and on again. */
  ghost predicate Toggled(n: nat, t: Trace, entry: Od) {
    match t
    case Nothing => false
    case Then(past, e) =>
      Depth(t) > n && ((Wrote(e, On(entry)) && SwitchedOff(n, past, entry)) || Toggled(n, past, entry))
  }

  /** The value that was last written to 0x1012 with success after the first `n` events. */
  ghost function Written(n: nat, t: Trace): Reading {
    match t
    case Nothing => Unwritten
    case Then(past, e) =>
      if Depth(t) <= n then Unwritten
      else if e.Download? && e.obj == TIME_COB && e.outcome == Success then Shows(e.value)
      else Written(n, past)
  }

  datatype Reading = Unwritten | Shows(value: Value)

  /** The history ends with an answer of 0x1012. */
  ghost predicate JustAnswered(t: Trace) {
    t.Then? && t.last.Upload? && t.last.obj == TIME_COB && t.last.outcome == Success
  }

  /** The history ends with an answered upload of a number. */
  ghost predicate Answers(t: Trace, obj: Obj) {
    t.Then? && t.last.Upload? && t.last.obj == obj && t.last.outcome == Success && t.last.answer.Num?
  }

  /** The history ends with one pass over the diagnostic. */
  ghost predicate EndsInPass(t: Trace) {
    && Answers(t, TIME_COUNT) && Answers(t.past, TIME_DAYS) && Answers(t.past.past, TIME_MILLISECONDS)
    && Answers(t.past.past.past, TIME_DAYS) && Answers(t.past.past.past.past, TIME_COUNT)
  }

  /** Neither count nor day moved during that pass. */
  ghost predicate Coherent(t: Trace)
    requires EndsInPass(t)
  {
    t.last.answer == t.past.past.past.past.last.answer && t.past.last.answer == t.past.past.past.last.answer
  }

  /** Since `before` 0x1012 has been written and has read back as `value`. */
  ghost predicate Rewritten(before: Trace, t: Trace, value: Value) {
    && t.Then? && t.past == Then(before, Download(TIME_COB, value, Success))
    && t.last == Upload(TIME_COB, Success, value)
  }

  /** Since `before` 0x1012 could not be written, or not be read, or does not read as `value`. */
  ghost predicate RewriteFailed(before: Trace, t: Trace, value: Value) {
    && t.Then?
    && (|| (t.past == before && t.last.Download? && t.last == Download(TIME_COB, value, t.last.outcome)
            && t.last.outcome != Success)
        || (t.past == Then(before, Download(TIME_COB, value, Success)) && Mismatch(t, value)))
  }

  /** The last upload of 0x1012 failed or shows something else. */
  ghost predicate Mismatch(t: Trace, value: Value) {
    t.Then? && t.last.Upload? && t.last.obj == TIME_COB && (t.last.outcome != Success || t.last.answer != value)
  }

  /**
   Since `before` a recovery has been tried and visibly failed: at its first reset, at the write and its read-back, at
   the second reset, or at the last read.
   */
  ghost predicate RecoveryFailed(before: Trace, t: Trace, value: Value) {
    || ResetFailed(before, t)
    || (exists reset :: BootSaid(before, reset, true) && RewriteFailed(reset, t, value))
    || (exists reset, rewritten ::
          BootSaid(before, reset, true) && Rewritten(reset, rewritten, value) && SecondHalfFailed(rewritten, t, value))
  }

  ghost predicate SecondHalfFailed(before: Trace, t: Trace, value: Value) {
    ResetFailed(before, t) || (Mismatch(t, value) && BootSaid(before, t.past, true))
  }

  ghost predicate GaveUp(n: nat, t: Trace, entry: Od) {
    TIME_COB in entry && exists before :: n <= Depth(before) && RecoveryFailed(before, t, entry[TIME_COB])
  }

  /** What has been exercised stays so. */
  ghost predicate Progress(n: nat, before: Trace, after: Trace, entry: Od) {
    && (SwitchedOff(n, before, entry) ==> SwitchedOff(n, after, entry))
    && (Toggled(n, before, entry) ==> Toggled(n, after, entry))
  }

  /** `b` is `a` with at most 0x1012 changed. */
  ghost predicate OnlyTime(a: Od, b: Od) {
    b.Keys == a.Keys && forall k | k in a && k != TIME_COB :: b[k] == a[k]
  }

  // ------------------------------------------------------------------------------------------------------------
  // Transfers
  // ------------------------------------------------------------------------------------------------------------

  /**
   What the bench observes besides the outcomes of SDO: CAN frames accepted for transmission, comparisons with the host
   clock, and what the node answered. `flawed` once any of them was not as the test demands; nothing else raises it.
   */
  class Bench {
    ghost var flawed: bool
    /** Passes over the diagnostic since the last coherent one, and how long the history was at the last pass. */
    ghost var torn: nat
    ghost var seen: nat

    constructor ()
      ensures New()
    {
      flawed, torn, seen := false, 0, 0;
    }

    ghost predicate New() reads this { !flawed && torn == 0 && seen == 0 }

    method Check() returns (ok: bool)
      modifies this`flawed
      ensures flawed == (old(flawed) || !ok)
    {
      ok := *;
      flawed := flawed || !ok;
    }

    /** The node has answered what 0x1012 is: it must be what was last written there. */
    ghost method Answered(slave: Slave, n: nat)
      requires JustAnswered(slave.trace)
      modifies this`flawed
      ensures flawed == (old(flawed) || (Written(n, slave.trace).Shows? &&
        slave.trace.last.answer != Written(n, slave.trace).value))
    {
      flawed := flawed ||
        (Written(n, slave.trace).Shows? && slave.trace.last.answer != Written(n, slave.trace).value);
    }

    /** A new pass over the diagnostic is complete: the third torn one in a row, or a time beyond the day, is a flaw. */
    ghost method Passed(slave: Slave)
      requires EndsInPass(slave.trace) && seen + 5 <= Depth(slave.trace)
      modifies this
      ensures seen == Depth(slave.trace) && torn == (if Coherent(slave.trace) then 0 else old(torn) + 1)
      ensures flawed == (old(flawed) || torn == SNAPSHOT_ATTEMPTS ||
        (Coherent(slave.trace) && slave.trace.past.past.last.answer.n >= DAY))
    {
      seen, torn := Depth(slave.trace), if Coherent(slave.trace) then 0 else torn + 1;
      flawed := flawed || torn == SNAPSHOT_ATTEMPTS ||
        (Coherent(slave.trace) && slave.trace.past.past.last.answer.n >= DAY);
    }

    /** No pass is left over. */
    ghost predicate Rested(slave: Slave) reads this, slave { torn == 0 && seen <= Depth(slave.trace) }
  }

  /** A step fails only with a failed event or a flawed observation, and no flaw is forgotten. */
  twostate predicate Honest(slave: Slave, bench: Bench, n: nat, ok: bool)
    reads slave, bench
  {
    && (old(bench.flawed) ==> bench.flawed)
    && (bench.flawed ==> old(bench.flawed) || !ok)
    && (!ok ==> bench.flawed || !Flawless(n, slave.trace))
    && (ok && old(bench.Rested(slave)) ==> bench.Rested(slave))
  }

  ghost predicate Ready(slave: Slave)
    reads slave
  {
    slave.Settled() && Open(Phase(slave.trace))
  }

  /** What a helper that starts on an open channel keeps; `lost` is its share of `completion_wait_timed_out`. */
  ghost predicate Kept(slave: Slave, n: nat, entry: Od, before: Trace, ok: bool, lost: bool)
    reads slave
  {
    && n <= Depth(before) <= Depth(slave.trace)
    && Disciplined(n, slave.trace, entry)
    && (Flawless(n, slave.trace) ==> Flawless(n, before))
    && (ok && Flawless(n, before) ==> Flawless(n, slave.trace))
    && Progress(n, before, slave.trace, entry)
    && (lost ==> !ok && !slave.rebooting && Phase(slave.trace) == Unknown)
    && (!lost ==> Ready(slave))
  }

  /** One upload of a diagnostic field. */
  method ReadField(slave: Slave, obj: Obj, ghost n: nat, ghost entry: Od) returns (ok: bool, v: nat, lost: bool)
    requires Ready(slave) && n <= Depth(slave.trace) && Disciplined(n, slave.trace, entry)
    modifies slave
    ensures Kept(slave, n, entry, old(slave.trace), ok, lost)
    ensures slave.od == old(slave.od) && slave.inflight == slave.lingering == {}
    ensures !ok ==> !Flawless(n, slave.trace)
    ensures Depth(slave.trace) == Depth(old(slave.trace)) + 1
    ensures ok ==> slave.trace == Then(old(slave.trace), Upload(obj, Success, Num(v)))
  {
    var o;
    o, v := slave.ReadVolatile(obj);
    ok, lost := o == Success, o == WaitTimeout;
  }

  /** `verifyTimeCobId`. */
  method VerifyTimeCobId(slave: Slave, bench: Bench, expected: nat, ghost n: nat, ghost entry: Od)
    returns (ok: bool, lost: bool)
    requires Ready(slave) && n <= Depth(slave.trace) && Disciplined(n, slave.trace, entry)
    requires Written(n, slave.trace) == Shows(Num(expected))
    modifies slave, bench
    ensures Kept(slave, n, entry, old(slave.trace), ok, lost) && Honest(slave, bench, n, ok)
    ensures slave.od == old(slave.od) && slave.inflight == slave.lingering == {}
    ensures ok ==> TIME_COB in slave.od && slave.od[TIME_COB] == Num(expected)
    ensures slave.trace.Then? && slave.trace.past == old(slave.trace) && bench.torn == old(bench.torn)
    ensures if ok then slave.trace.last == Upload(TIME_COB, Success, Num(expected))
            else Mismatch(slave.trace, Num(expected))
    ensures Written(n, slave.trace) == Shows(Num(expected))
  {
    var o, actual := slave.ReadNum(TIME_COB);
    ok, lost := o == Success && actual == expected, o == WaitTimeout;
    if o == Success { bench.Answered(slave, n); }
  }

  /** The download of `writeAndVerifyTimeCobId`. */
  method WriteTimeCobId(slave: Slave, value: nat, ghost n: nat, ghost entry: Od) returns (ok: bool, lost: bool)
    requires Ready(slave) && n <= Depth(slave.trace) && Disciplined(n, slave.trace, entry)
    modifies slave
    ensures Kept(slave, n, entry, old(slave.trace), ok, lost)
    ensures !lost && OnlyTime(entry, old(slave.od)) ==> OnlyTime(entry, slave.od)
    ensures ok && value == DisabledCob(On(entry)) ==> SwitchedOff(n, slave.trace, entry)
    ensures ok && value == On(entry) && SwitchedOff(n, old(slave.trace), entry) ==> Toggled(n, slave.trace, entry)
    ensures !ok ==> !Flawless(n, slave.trace)
    ensures slave.trace.Then? && slave.trace.past == old(slave.trace) && slave.trace.last.Download?
    ensures slave.trace.last == Download(TIME_COB, Num(value), slave.trace.last.outcome)
    ensures ok <==> slave.trace.last.outcome == Success
    ensures ok ==> Written(n, slave.trace) == Shows(Num(value))
  {
    var o := slave.WriteTo(TIME_COB, Num(value));
    ok, lost := o == Success, o == WaitTimeout;
  }

  /** `writeAndVerifyTimeCobId`. */
  method WriteAndVerify(slave: Slave, bench: Bench, value: nat, ghost n: nat, ghost entry: Od)
    returns (ok: bool, lost: bool)
    requires Ready(slave) && n <= Depth(slave.trace) && Disciplined(n, slave.trace, entry)
    modifies slave, bench
    ensures Kept(slave, n, entry, old(slave.trace), ok, lost) && Honest(slave, bench, n, ok)
    ensures !lost && OnlyTime(entry, old(slave.od)) ==> OnlyTime(entry, slave.od)
    ensures ok && value == DisabledCob(On(entry)) ==> SwitchedOff(n, slave.trace, entry)
    ensures ok && value == On(entry) && SwitchedOff(n, old(slave.trace), entry) ==> Toggled(n, slave.trace, entry)
    ensures ok ==> TIME_COB in slave.od && slave.od[TIME_COB] == Num(value)
    ensures ok ==> Written(n, slave.trace) == Shows(Num(value))
    ensures if ok then Rewritten(old(slave.trace), slave.trace, Num(value))
            else RewriteFailed(old(slave.trace), slave.trace, Num(value))
  {
    ok, lost := WriteTimeCobId(slave, value, n, entry);
    if ok { ok, lost := VerifyTimeCobId(slave, bench, value, n, entry); }
  }

  /** `resetSlaveCommunication`: a prepared Boot wait, the reset, and a Boot that answers it. */
  method ResetCommunication(slave: Slave, ghost n: nat, ghost entry: Od) returns (ok: bool)
    requires n <= Depth(slave.trace) && Disciplined(n, slave.trace, entry)
    modifies slave
    ensures n <= Depth(slave.trace) && Disciplined(n, slave.trace, entry)
    ensures Flawless(n, slave.trace) <==> ok && Flawless(n, old(slave.trace))
    ensures Progress(n, old(slave.trace), slave.trace, entry)
    ensures Depth(old(slave.trace)) <= Depth(slave.trace)
    ensures Written(n, slave.trace) == Written(n, old(slave.trace))
    ensures if ok then BootSaid(old(slave.trace), slave.trace, true) else ResetFailed(old(slave.trace), slave.trace)
    ensures ok ==> Ready(slave)
  {
    slave.PrepareBootWait();
    assert Disciplined(n, slave.trace, entry) && (Flawless(n, slave.trace) <==> Flawless(n, old(slave.trace)));
    assert Progress(n, old(slave.trace), slave.trace, entry);
    assert Written(n, slave.trace) == Written(n, old(slave.trace));
    ok := slave.Issue(ResetComm, true);
    assert Disciplined(n, slave.trace, entry) && Progress(n, old(slave.trace), slave.trace, entry);
    assert Flawless(n, slave.trace) <==> ok && Flawless(n, old(slave.trace));
    assert Written(n, slave.trace) == Written(n, old(slave.trace));
    if ok { ok := slave.WaitForBoot(); }
  }

  /** One pass over the five fields. */
  method ReadPass(slave: Slave, bench: Bench, ghost n: nat, ghost entry: Od)
    returns (ok: bool, coherent: bool, milliseconds: nat, lost: bool)
    requires Ready(slave) && n <= Depth(slave.trace) && Disciplined(n, slave.trace, entry)
    requires bench.seen <= Depth(slave.trace)
    modifies slave, bench
    ensures Kept(slave, n, entry, old(slave.trace), ok, lost)
    ensures slave.od == old(slave.od) && slave.inflight == slave.lingering == {}
    ensures Depth(slave.trace) <= Depth(old(slave.trace)) + 5
    ensures !ok ==> !Flawless(n, slave.trace) && bench.flawed == old(bench.flawed)
    ensures ok ==> bench.torn == (if coherent then 0 else old(bench.torn) + 1) && bench.seen <= Depth(slave.trace)
    ensures ok ==>
      bench.flawed == (old(bench.flawed) || bench.torn == SNAPSHOT_ATTEMPTS || (coherent && milliseconds >= DAY))
  {
    hide Disciplined, Flawless, SwitchedOff, Toggled, Depth, Phase;
    var before, daysBefore, daysAfter, after := 0, 0, 0, 0;
    coherent, milliseconds := false, 0;
    ok, before, lost := ReadField(slave, TIME_COUNT, n, entry);
    if ok { ok, daysBefore, lost := ReadField(slave, TIME_DAYS, n, entry); }
    if ok { ok, milliseconds, lost := ReadField(slave, TIME_MILLISECONDS, n, entry); }
    if ok { ok, daysAfter, lost := ReadField(slave, TIME_DAYS, n, entry); }
    if ok { ok, after, lost := ReadField(slave, TIME_COUNT, n, entry); }
    if ok {
      coherent := before == after && daysBefore == daysAfter;
      bench.Passed(slave);
    }
  }

  /**
   `readTimeDiagnostic` as far as the channel is concerned: at most three passes over five fields. What an accepted pass
   shows is the subject of `TimeDiagnostic`.
   */
  method ReadDiagnostic(slave: Slave, bench: Bench, ghost n: nat, ghost entry: Od) returns (ok: bool, lost: bool)
    requires Ready(slave) && n <= Depth(slave.trace) && Disciplined(n, slave.trace, entry) && bench.Rested(slave)
    modifies slave, bench
    ensures Kept(slave, n, entry, old(slave.trace), ok, lost) && Honest(slave, bench, n, ok)
    ensures slave.od == old(slave.od) && slave.inflight == slave.lingering == {}
    ensures Depth(slave.trace) <= Depth(old(slave.trace)) + 5 * SNAPSHOT_ATTEMPTS
  {
    hide Disciplined, Flawless, SwitchedOff, Toggled, Depth, Phase;
    var attempt := 0;
    while attempt < SNAPSHOT_ATTEMPTS
      invariant Kept(slave, n, entry, old(slave.trace), true, false)
      invariant slave.od == old(slave.od) && slave.inflight == slave.lingering == {}
      invariant bench.flawed == (old(bench.flawed) || attempt == SNAPSHOT_ATTEMPTS)
      invariant attempt <= SNAPSHOT_ATTEMPTS && bench.torn == attempt && bench.seen <= Depth(slave.trace)
      invariant Depth(slave.trace) <= Depth(old(slave.trace)) + 5 * attempt
    {
      var coherent, milliseconds;
      ok, coherent, milliseconds, lost := ReadPass(slave, bench, n, entry);
      if !ok { return; }
      if coherent {
        ok := milliseconds < DAY;
        return;
      }
      attempt := attempt + 1;
    }
    ok, lost := false, false;
  }

  /** `waitForRxCount`: the receive counter is polled until it moves or time runs out. */
  method WaitForCount(slave: Slave, bench: Bench, ghost n: nat, ghost entry: Od) returns (ok: bool, lost: bool)
    requires Ready(slave) && n <= Depth(slave.trace) && Disciplined(n, slave.trace, entry) && bench.Rested(slave)
    modifies slave, bench
    ensures Kept(slave, n, entry, old(slave.trace), ok, lost) && Honest(slave, bench, n, ok)
    ensures slave.od == old(slave.od) && slave.inflight == slave.lingering == {}
  {
    hide Disciplined, Flawless, SwitchedOff, Toggled, Depth, Phase;
    ok, lost := true, false;
    var polls: nat := *;
    while polls > 0
      invariant ok && Kept(slave, n, entry, old(slave.trace), true, lost) && slave.od == old(slave.od)
      invariant bench.flawed == old(bench.flawed) && bench.Rested(slave)
    {
      var count;
      ok, count, lost := ReadField(slave, TIME_COUNT, n, entry);
      if !ok { return; }
      polls := polls - 1;
    }
    ok := bench.Check();
  }

  /** `waitForAppliedTime`: the same with whole diagnostics. */
  method WaitForApplied(slave: Slave, bench: Bench, ghost n: nat, ghost entry: Od) returns (ok: bool, lost: bool)
    requires Ready(slave) && n <= Depth(slave.trace) && Disciplined(n, slave.trace, entry) && bench.Rested(slave)
    modifies slave, bench
    ensures Kept(slave, n, entry, old(slave.trace), ok, lost) && Honest(slave, bench, n, ok)
    ensures slave.od == old(slave.od) && slave.inflight == slave.lingering == {}
  {
    hide Disciplined, Flawless, SwitchedOff, Toggled, Depth, Phase;
    ok, lost := true, false;
    var polls: nat := *;
    while polls > 0
      invariant ok && Kept(slave, n, entry, old(slave.trace), true, lost) && slave.od == old(slave.od)
      invariant bench.flawed == old(bench.flawed) && bench.Rested(slave)
    {
      ok, lost := ReadDiagnostic(slave, bench, n, entry);
      if !ok { return; }
      polls := polls - 1;
    }
    ok := bench.Check();
  }

  /** `injectAndVerifyTime`: one frame, then polling until it is counted and applied. */
  method InjectAndVerify(slave: Slave, bench: Bench, ghost n: nat, ghost entry: Od) returns (ok: bool, lost: bool)
    requires Ready(slave) && n <= Depth(slave.trace) && Disciplined(n, slave.trace, entry) && bench.Rested(slave)
    modifies slave, bench
    ensures Kept(slave, n, entry, old(slave.trace), ok, lost) && Honest(slave, bench, n, ok)
    ensures slave.od == old(slave.od) && slave.inflight == slave.lingering == {}
  {
    hide Disciplined, Flawless, SwitchedOff, Toggled, Depth, Phase;
    var count;
    ok, count, lost := ReadField(slave, TIME_COUNT, n, entry);
    if ok { ok := bench.Check(); }
    if ok { ok, lost := WaitForCount(slave, bench, n, entry); }
    if ok { ok, lost := WaitForApplied(slave, bench, n, entry); }
  }

  /** `verifyInvalidDlc` and the disabled-consumer check: a frame between two diagnostics must have no effect. */
  method VerifyIgnored(slave: Slave, bench: Bench, ghost n: nat, ghost entry: Od) returns (ok: bool, lost: bool)
    requires Ready(slave) && n <= Depth(slave.trace) && Disciplined(n, slave.trace, entry) && bench.Rested(slave)
    modifies slave, bench
    ensures Kept(slave, n, entry, old(slave.trace), ok, lost) && Honest(slave, bench, n, ok)
    ensures slave.od == old(slave.od) && slave.inflight == slave.lingering == {}
  {
    hide Disciplined, Flawless, SwitchedOff, Toggled, Depth, Phase;
    ok, lost := ReadDiagnostic(slave, bench, n, entry);
    if ok { ok := bench.Check(); }
    if ok { ok, lost := ReadDiagnostic(slave, bench, n, entry); }
    if ok { ok := bench.Check(); }
  }

  // ------------------------------------------------------------------------------------------------------------
  // The process
  // ------------------------------------------------------------------------------------------------------------

  /** The local variables of `timeProcess` from the moment 0x1012 has been saved. */
  datatype Flags = Flags(
    result: nat,
    cobIdModificationAttempted: bool,
    restorationVerified: bool,
    completionWaitTimedOut: bool,
    slaveNeedsStart: bool,
    resetRecoveryRequired: bool,
    consumerEnableResetPerformed: bool,
    originalCobId: nat)
  {
    function Fail(): Flags { this.(result := 1) }

    /** The node has been through no reset of this run. */
    predicate Unreset() { !resetRecoveryRequired && !consumerEnableResetPerformed }
  }

  datatype Origin = Origin(n: nat, entry: Od)

  ghost predicate Facts(f: Flags, g: Origin, slave: Slave, bench: Bench)
    reads slave, bench
  {
    && g.n <= Depth(slave.trace) && Disciplined(g.n, slave.trace, g.entry)
    && (f.result == 0 || f.result == 1)
    && (f.result == 0 <==> Flawless(g.n, slave.trace) && !bench.flawed)
    && Fit(g.entry) && g.entry[TIME_COB].n == f.originalCobId
    && (!f.cobIdModificationAttempted ==> slave.od == g.entry && slave.Settled())
  }

  /** Until restoration: the channel is open unless one of the two flags says otherwise. */
  ghost predicate Testing(f: Flags, g: Origin, slave: Slave, bench: Bench)
    reads slave, bench
  {
    && Facts(f, g, slave, bench) && !f.restorationVerified
    && (f.completionWaitTimedOut || f.resetRecoveryRequired ==> f.result == 1)
    && (!f.completionWaitTimedOut && !f.resetRecoveryRequired ==> Ready(slave))
    && (!f.completionWaitTimedOut && f.Unreset() ==> OnlyTime(g.entry, slave.od))
    && (f.consumerEnableResetPerformed ==> !Consumes(f.originalCobId))
    && (f.result == 0 ==> bench.Rested(slave))
  }

  /** Once the restoration paths have been tried. */
  ghost predicate Closed(f: Flags, g: Origin, slave: Slave, bench: Bench)
    reads slave, bench
  {
    && Facts(f, g, slave, bench)
    && (f.restorationVerified ==> slave.Settled() && Restored(g.entry, slave.od))
    && (!f.restorationVerified ==> f.result == 1 && GaveUp(g.n, slave.trace, g.entry))
    && (f.result == 0 ==> Ready(slave) && !f.completionWaitTimedOut)
    && (f.result == 0 && Consumes(f.originalCobId) ==> slave.od == g.entry)
  }

  /** Step 3: enable consumption if it was off, which takes a Communication Reset. */
  method EnableConsumer(slave: Slave, bench: Bench, f0: Flags, ghost g: Origin) returns (f: Flags)
    requires Testing(f0, g, slave, bench) && f0.result == 0 && f0.Unreset()
    requires !f0.cobIdModificationAttempted && !f0.completionWaitTimedOut
    modifies slave, bench
    ensures Testing(f, g, slave, bench) && f.originalCobId == f0.originalCobId
  {
    f := f0;
    var enabled := Enabled(f.originalCobId);
    if enabled != f.originalCobId {
      f := f.(cobIdModificationAttempted := true);
      var ok, lost := WriteAndVerify(slave, bench, enabled, g.n, g.entry);
      f := f.(completionWaitTimedOut := lost);
      if !ok { return f.Fail(); }
      ok := ResetCommunication(slave, g.n, g.entry);
      if !ok { return f.(resetRecoveryRequired := true, result := 1); }
      f := f.(consumerEnableResetPerformed := true, slaveNeedsStart := true, completionWaitTimedOut := false);
      ok, lost := VerifyTimeCobId(slave, bench, enabled, g.n, g.entry);
      f := f.(completionWaitTimedOut := lost);
      if !ok { f := f.Fail(); }
    }
  }

  /** Steps 4 to 6 and the first half of step 7, after a fresh baseline: six injections. */
  method InjectAll(slave: Slave, bench: Bench, ghost n: nat, ghost entry: Od) returns (ok: bool, lost: bool)
    requires Ready(slave) && n <= Depth(slave.trace) && Disciplined(n, slave.trace, entry) && bench.Rested(slave)
    modifies slave, bench
    ensures Kept(slave, n, entry, old(slave.trace), ok, lost) && Honest(slave, bench, n, ok)
    ensures slave.od == old(slave.od) && slave.inflight == slave.lingering == {}
  {
    hide Disciplined, Flawless, SwitchedOff, Toggled, Depth, Phase;
    ok, lost := ReadDiagnostic(slave, bench, n, entry);
    var injections := 0;
    while ok && injections < 6
      invariant Kept(slave, n, entry, old(slave.trace), ok, lost) && Honest(slave, bench, n, ok)
      invariant slave.od == old(slave.od) && slave.inflight == slave.lingering == {}
    {
      ok, lost := InjectAndVerify(slave, bench, n, entry);
      injections := injections + 1;
    }
  }

  /** The second half of step 7 and step 8: progression and ignored frames. */
  method Exercise(slave: Slave, bench: Bench, f0: Flags, ghost g: Origin) returns (f: Flags)
    requires Testing(f0, g, slave, bench) && f0.result == 0
    modifies slave, bench
    ensures Testing(f, g, slave, bench)
    ensures f == f0.(result := f.result, completionWaitTimedOut := f.completionWaitTimedOut)
  {
    hide Disciplined, Flawless, SwitchedOff, Toggled, Depth, Phase;
    var ok, lost := InjectAll(slave, bench, g.n, g.entry);
    if ok { ok, lost := ReadDiagnostic(slave, bench, g.n, g.entry); }
    if ok { ok := bench.Check(); }
    if ok { ok, lost := VerifyIgnored(slave, bench, g.n, g.entry); }
    if ok { ok, lost := VerifyIgnored(slave, bench, g.n, g.entry); }
    f := f0.(completionWaitTimedOut := lost);
    if !ok { f := f.Fail(); }
  }

  /** Step 9: a disabled consumer must ignore a valid frame. */
  method ExerciseDisabled(slave: Slave, bench: Bench, f0: Flags, ghost g: Origin) returns (f: Flags)
    requires Testing(f0, g, slave, bench) && f0.result == 0
    modifies slave, bench
    ensures Testing(f, g, slave, bench) && f.cobIdModificationAttempted
    ensures f == f0.(result := f.result, completionWaitTimedOut := f.completionWaitTimedOut,
                     cobIdModificationAttempted := true)
    ensures f.result == 0 ==> SwitchedOff(g.n, slave.trace, g.entry)
  {
    var ok, lost := WriteAndVerify(slave, bench, DisabledCob(Enabled(f0.originalCobId)), g.n, g.entry);
    if ok { ok, lost := VerifyIgnored(slave, bench, g.n, g.entry); }
    f := f0.(completionWaitTimedOut := lost, cobIdModificationAttempted := true);
    if !ok { f := f.Fail(); }
  }

  /** Step 10: enabled again, the next frame must be applied. */
  method ExerciseEnabled(slave: Slave, bench: Bench, f0: Flags, ghost g: Origin) returns (f: Flags)
    requires Testing(f0, g, slave, bench) && f0.result == 0 && f0.cobIdModificationAttempted
    requires SwitchedOff(g.n, slave.trace, g.entry)
    modifies slave, bench
    ensures Testing(f, g, slave, bench)
    ensures f == f0.(result := f.result, completionWaitTimedOut := f.completionWaitTimedOut)
    ensures f.result == 0 ==> Toggled(g.n, slave.trace, g.entry)
  {
    var ok, lost := WriteAndVerify(slave, bench, Enabled(f0.originalCobId), g.n, g.entry);
    if ok { ok, lost := InjectAndVerify(slave, bench, g.n, g.entry); }
    f := f0.(completionWaitTimedOut := lost);
    if !ok { f := f.Fail(); }
  }

  /** Step 11: write the saved value; if a reset enabled the consumer, another one rebuilds the entry state. */
  method RestoreNormally(slave: Slave, bench: Bench, f0: Flags, ghost g: Origin) returns (f: Flags)
    requires Testing(f0, g, slave, bench) && f0.cobIdModificationAttempted
    requires !f0.completionWaitTimedOut && !f0.resetRecoveryRequired
    modifies slave, bench
    ensures if f.restorationVerified then Closed(f, g, slave, bench)
            else Facts(f, g, slave, bench) && f.result == 1
    ensures f.cobIdModificationAttempted
    ensures f.result == 0 ==> f0.result == 0 && Progress(g.n, old(slave.trace), slave.trace, g.entry)
  {
    f := f0;
    var ok, lost := WriteAndVerify(slave, bench, f.originalCobId, g.n, g.entry);
    if ok && f.consumerEnableResetPerformed {
      ok := ResetCommunication(slave, g.n, g.entry);
      if ok {
        f := f.(slaveNeedsStart := true);
        ok, lost := VerifyTimeCobId(slave, bench, f.originalCobId, g.n, g.entry);
      }
    }
    f := f.(completionWaitTimedOut := lost, restorationVerified := ok);
    if !ok { f := f.Fail(); }
  }

  /**
   `recoverTimeCobIdWithReset`: reset, write, verify, reset again, verify again. If it fails, the history shows where.
   */
  method RecoverWithReset(slave: Slave, bench: Bench, original: nat, lost0: bool, ghost g: Origin)
    returns (ok: bool, lost: bool)
    requires g.n <= Depth(slave.trace) && Disciplined(g.n, slave.trace, g.entry)
    modifies slave, bench
    ensures g.n <= Depth(slave.trace) && Disciplined(g.n, slave.trace, g.entry)
    ensures Flawless(g.n, slave.trace) ==> Flawless(g.n, old(slave.trace))
    ensures old(bench.flawed) ==> bench.flawed
    ensures ok ==> slave.Settled() && TIME_COB in slave.od && slave.od[TIME_COB] == Num(original)
    ensures !ok ==> RecoveryFailed(old(slave.trace), slave.trace, Num(original))
  {
    hide Disciplined, Flawless, SwitchedOff, Toggled, Depth, Phase, Written, Progress;
    lost := lost0;
    ok := ResetCommunication(slave, g.n, g.entry);
    if !ok { return; }
    ghost var reset := slave.trace;
    ok, lost := WriteAndVerify(slave, bench, original, g.n, g.entry);
    if !ok { return; }
    ghost var rewritten := slave.trace;
    ok := ResetCommunication(slave, g.n, g.entry);
    if ok { ok, lost := VerifyTimeCobId(slave, bench, original, g.n, g.entry); }
    assert !ok ==> SecondHalfFailed(rewritten, slave.trace, Num(original));
  }

  /** Step 12: recovery whenever the restoration is not verified. */
  method Recover(slave: Slave, bench: Bench, f0: Flags, ghost g: Origin) returns (f: Flags)
    requires Facts(f0, g, slave, bench) && f0.result == 1
    requires f0.cobIdModificationAttempted && !f0.restorationVerified
    modifies slave, bench
    ensures Closed(f, g, slave, bench) && f.result == 1
  {
    f := f0.Fail();
    var ok, lost := RecoverWithReset(slave, bench, f.originalCobId, f.completionWaitTimedOut, g);
    f := f.(slaveNeedsStart := true, completionWaitTimedOut := lost, restorationVerified := ok);
  }

  /** The final START: only from a verified state. */
  method StartAgain(slave: Slave, bench: Bench, f0: Flags, ghost g: Origin) returns (f: Flags)
    requires Closed(f0, g, slave, bench)
    modifies slave
    ensures Closed(f, g, slave, bench)
    ensures f.result == 0 ==> f0.result == 0 && Progress(g.n, old(slave.trace), slave.trace, g.entry)
  {
    f := f0;
    if f.completionWaitTimedOut { f := f.Fail(); }
    if f.slaveNeedsStart && f.restorationVerified {
      var ok := slave.Issue(Start, true);
      if ok { f := f.(slaveNeedsStart := false); } else { f := f.Fail(); }
    }
  }

  /** Steps 3 to 10. */
  method Test(slave: Slave, bench: Bench, f0: Flags, ghost g: Origin) returns (f: Flags)
    requires Testing(f0, g, slave, bench) && f0.result == 0 && f0.Unreset()
    requires !f0.cobIdModificationAttempted && !f0.completionWaitTimedOut
    modifies slave, bench
    ensures Testing(f, g, slave, bench)
    ensures f.result == 0 ==> Toggled(g.n, slave.trace, g.entry)
  {
    f := EnableConsumer(slave, bench, f0, g);
    if f.result == 0 { f := Exercise(slave, bench, f, g); }
    if f.result == 0 { f := ExerciseDisabled(slave, bench, f, g); }
    if f.result == 0 { f := ExerciseEnabled(slave, bench, f, g); }
  }

  /** Steps 11 and 12 and the final START. */
  method Cleanup(slave: Slave, bench: Bench, f0: Flags, ghost g: Origin) returns (f: Flags)
    requires Testing(f0, g, slave, bench)
    modifies slave, bench
    ensures Closed(f, g, slave, bench)
    ensures f.result == 0 ==> f0.result == 0 && Progress(g.n, old(slave.trace), slave.trace, g.entry)
  {
    f := f0;
    if !f.cobIdModificationAttempted {
      f := f.(restorationVerified := true);
    } else {
      if !f.completionWaitTimedOut && !f.resetRecoveryRequired { f := RestoreNormally(slave, bench, f, g); }
      if !f.restorationVerified { f := Recover(slave, bench, f, g); }
    }
    f := StartAgain(slave, bench, f, g);
  }

  /**
   `timeProcess` against a node on which every earlier transaction is closed.
   Whatever the result, SDO and START discipline held at every step and a verified restoration is real. If 0x1012 was
   touched and is not verified, the history ends with a recovery that visibly failed.
   The result is 0 exactly when the node was fit and nothing failed or was observed amiss; then consumption has been
   switched off and on again, 0x1012 is as it was and, on a node that consumed TIME to begin with, no object at all has
   changed.
   */
  method Process(slave: Slave, bench: Bench) returns (result: nat, verified: bool, attempted: bool)
    requires slave.Usable() && bench.New()
    modifies slave, bench
    ensures Disciplined(Depth(old(slave.trace)), slave.trace, old(slave.od))
    ensures verified ==> slave.Settled() && Restored(old(slave.od), slave.od)
    ensures result == 0 <==>
      Fit(old(slave.od)) && Flawless(Depth(old(slave.trace)), slave.trace) && !bench.flawed
    ensures !attempted ==> slave.od == old(slave.od)
    ensures attempted && !verified ==> result == 1 && GaveUp(Depth(old(slave.trace)), slave.trace, old(slave.od))
    ensures result == 0 ==> verified && Ready(slave)
    ensures result == 0 ==> Toggled(Depth(old(slave.trace)), slave.trace, old(slave.od))
    ensures result == 0 && Consumes(old(slave.od)[TIME_COB].n) ==> slave.od == old(slave.od)
  {
    ghost var g := Origin(Depth(slave.trace), slave.od);
    assert Disciplined(g.n, slave.trace, g.entry) && Flawless(g.n, slave.trace) by {
      if !slave.trace.Nothing? { assert Depth(slave.trace) <= g.n; }
    }
    var ok, lost := ReadDiagnostic(slave, bench, g.n, g.entry);
    if !ok { return 1, false, false; }
    var original;
    ok, original := ReadOriginal(slave, g.n, g.entry);
    if !ok || Unsupported(original) || Produces(original) { return 1, false, false; }
    var f := Flags(0, false, false, false, false, false, false, original);
    f := Test(slave, bench, f, g);
    f := Cleanup(slave, bench, f, g);
    result, verified, attempted := f.result, f.restorationVerified, f.cobIdModificationAttempted;
  }

  /** Step 2: the value that has to be restored. */
  method ReadOriginal(slave: Slave, ghost n: nat, ghost entry: Od) returns (ok: bool, original: nat)
    requires Ready(slave) && n <= Depth(slave.trace) && Disciplined(n, slave.trace, entry)
    requires slave.od == entry
    modifies slave
    ensures Disciplined(n, slave.trace, entry) && (!ok ==> !Flawless(n, slave.trace)) && slave.od == old(slave.od)
    ensures ok ==> Kept(slave, n, entry, old(slave.trace), true, false) && slave.od == entry
    ensures ok ==> TIME_COB in entry && entry[TIME_COB] == Num(original)
  {
    var o;
    o, original := slave.ReadNum(TIME_COB);
    ok := o == Success;
  }

  // ------------------------------------------------------------------------------------------------------------
  // What the discipline means for the history
  // ------------------------------------------------------------------------------------------------------------

  /** Every event of a disciplined run obeyed the discipline when it happened. */
  lemma {:induction false} ObeyedAt(n: nat, t: Trace, entry: Od, j: nat)
    requires Disciplined(n, t, entry) && n <= j < Depth(t)
    ensures StepOk(Prefix(t, j), At(t, j), entry)
  {
    if j < Depth(t) - 1 { ObeyedAt(n, t.past, entry, j); }
  }

  /**
   After a lost transfer, and after any reset, the run transfers nothing until a Boot that came later; a lost
   transfer needs a reset before that Boot.
   */
  lemma {:induction false} NoTransferBeforeBoot(n: nat, t: Trace, entry: Od, i: nat, j: nat)
    requires Disciplined(n, t, entry)
    requires n <= i < j < Depth(t) && At(t, j).Sdo()
    requires At(t, i).Lost() || At(t, i).Reset()
    ensures exists b: nat :: i < b < j && At(t, b) == Boot(true)
    ensures At(t, i).Lost() ==>
      exists r: nat, b: nat :: i < r < b < j && At(t, r).Reset() && At(t, b) == Boot(true)
  {
    ObeyedAt(n, t, entry, j);
    var before := Prefix(t, j);
    AtPrefix(t, j, i);
    if At(t, i).Lost() {
      if Phase(before) == Known {
        var r, b, p := ReopenedAfterLoss(before, i);
        AtPrefix(t, j, r);
        AtPrefix(t, j, b);
      } else {
        var r, b := BootedAfterLoss(before, i);
        AtPrefix(t, j, r);
        AtPrefix(t, j, b);
      }
    } else {
      var b := BootedAfterReset(before, i);
      AtPrefix(t, j, b);
    }
  }

  /** An open channel after a reset has seen a Boot since. */
  lemma {:induction false} BootedAfterReset(t: Trace, i: nat) returns (b: nat)
    requires i < Depth(t) && At(t, i).Reset() && Open(Phase(t))
    ensures i < b < Depth(t) && At(t, b) == Boot(true)
  {
    if t.last == Boot(true) && i < Depth(t) - 1 {
      b := Depth(t) - 1;
    } else {
      b := BootedAfterReset(t.past, i);
    }
  }

  /** START is sent only to a node whose 0x1012 is as it was, with nothing in flight. */
  lemma StartsOnlyRestored(n: nat, t: Trace, entry: Od, j: nat)
    requires Disciplined(n, t, entry) && n <= j < Depth(t) && At(t, j).SlaveStart()
    ensures At(t, j).settled && Restored(entry, At(t, j).od)
  {
    ObeyedAt(n, t, entry, j);
  }
}
