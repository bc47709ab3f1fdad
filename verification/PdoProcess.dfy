/**
 `pdoProcess`: TPDO1 is compared with the object dictionary, and an RPDO probe is written to 0x2200 and undone.
 No reset is available here, so once a transfer is lost the process never uses SDO again.
 */
module PdoProcess {
  import opened Bits
  import opened RemoteNode

  const RPDO_VALUE := Obj(0x2200, 0)
  const TPDO_VALUE1 := Obj(0x2100, 0)
  const TPDO_VALUE2 := Obj(0x2101, 0)
  const PROBE: nat := 0xA5A5_A5A5
  const ALTERNATE: nat := 0x5A5A_5A5A
  const SAMPLES := 5
  const PAYLOAD_LENGTH := 8
  const RETRIES := 3
  const PERIOD_MS := 1000
  const TOLERANCE_MS := 150

  /** `decodeLe32` at an offset of a payload. */
  function DecodeLe32(payload: seq<Byte>, offset: nat): nat
    requires offset + 4 <= |payload|
  {
    payload[offset] as nat + payload[offset + 1] as nat * 0x100
    + payload[offset + 2] as nat * 0x1_0000 + payload[offset + 3] as nat * 0x100_0000
  }

  /** A valid TPDO1 and when the callback saw it, in nanoseconds. */
  datatype Frame = Frame(payload: seq<Byte>, at: nat)

  /** The result of `validateTpdoSamples`: adjacent samples are a period apart, in whole milliseconds. */
  predicate Punctual(samples: seq<Frame>) {
    forall i | 1 <= i < |samples| :: InTime(samples[i].at - samples[i - 1].at)
  }

  predicate InTime(interval: int) {
    PERIOD_MS - TOLERANCE_MS <= interval / 1000000 <= PERIOD_MS + TOLERANCE_MS
  }

  datatype Reading = Unreadable | Reads(value: nat)

  // ------------------------------------------------------------------------------------------------------------
  // What the comparison saw
  // ------------------------------------------------------------------------------------------------------------

  /**
   The end of the wait for samples, the capture of the latest frame, a local mapped value, an answer of the node, or a
   look at the receive state. `frames` is how many valid frames had arrived.
   */
  datatype Note =
    | Waited(frames: nat, failed: bool)
    | Captured(frames: nat, failed: bool)
    | Mapped(obj: Obj, reading: Reading)
    | Answered(obj: Obj, value: nat)
    | Looked(frames: nat, failed: bool)

  /** Notes in order, newest outermost. */
  datatype Log = Blank | Noted(past: Log, last: Note)

  /** How far the newest attempt at a comparison has come, and what it has seen. */
  datatype Stage =
    | Resting
    | Caught(frames: nat)
    | MappedOne(frames: nat, local1: nat)
    | MappedBoth(frames: nat, local1: nat, local2: nat)
    | Steady(frames: nat, local1: nat, local2: nat)
    | AnsweredOne(frames: nat, local1: nat, local2: nat, remote1: nat)
    | AnsweredBoth(frames: nat, local1: nat, local2: nat, remote1: nat, remote2: nat)
    | Complete(frames: nat, local1: nat, local2: nat, remote1: nat, remote2: nat)

  function Next(stage: Stage, note: Note): Stage {
    match note
    case Waited(_, _) => Resting
    case Captured(k, failed) => if failed then Resting else Caught(k)
    case Mapped(obj, reading) =>
      if reading.Unreadable? then Resting
      else if stage.Caught? && obj == TPDO_VALUE1 then MappedOne(stage.frames, reading.value)
      else if stage.MappedOne? && obj == TPDO_VALUE2 then MappedBoth(stage.frames, stage.local1, reading.value)
      else Resting
    case Answered(obj, value) =>
      if stage.Steady? && obj == TPDO_VALUE1 then AnsweredOne(stage.frames, stage.local1, stage.local2, value)
      else if stage.AnsweredOne? && obj == TPDO_VALUE2
      then AnsweredBoth(stage.frames, stage.local1, stage.local2, stage.remote1, value)
      else Resting
    case Looked(k, failed) =>
      if stage.MappedBoth? && !failed && k == stage.frames then Steady(k, stage.local1, stage.local2)
      else if stage.AnsweredBoth? && !failed && k == stage.frames
      then Complete(k, stage.local1, stage.local2, stage.remote1, stage.remote2)
      else Resting
  }

  function Progress(log: Log): Stage {
    match log
    case Blank => Resting
    case Noted(past, note) => Next(Progress(past), note)
  }

  /** A frame, valid or not, has come between the capture and this look. */
  predicate Interrupts(stage: Stage, note: Note) {
    (stage.MappedBoth? || stage.AnsweredBoth?) && note.Looked? && (note.failed || note.frames != stage.frames)
  }

  function Interruptions(log: Log): nat {
    match log
    case Blank => 0
    case Noted(past, note) => Interruptions(past) + if Interrupts(Progress(past), note) then 1 else 0
  }

  /** The frame, the local mapping and the node carry the same two values. */
  predicate Agrees(stage: Stage, frames: seq<Frame>) {
    && stage.Complete? && 0 < stage.frames <= |frames|
    && var payload := frames[stage.frames - 1].payload;
      && |payload| == PAYLOAD_LENGTH
      && stage.local1 == stage.remote1 == DecodeLe32(payload, 0)
      && stage.local2 == stage.remote2 == DecodeLe32(payload, 4)
  }

  /** Every attempt was interrupted, or an undisturbed one found different values. */
  predicate Refuted(log: Log, frames: seq<Frame>) {
    Interruptions(log) >= RETRIES || (Progress(log).Complete? && !Agrees(Progress(log), frames))
  }

  /** The value that was last sent to 0x2200 after the first `n` events. */
  ghost function Sent(n: nat, t: Trace): Option {
    match t
    case Nothing => None
    case Then(past, e) =>
      if Depth(t) <= n then None
      else if (e.Download? || e.Pdo?) && e.obj == RPDO_VALUE then Some(e.value)
      else Sent(n, past)
  }

  datatype Option = None | Some(value: Value)

  /** The history ends with an answer of 0x2200. */
  ghost predicate JustAnswered(t: Trace) {
    t.Then? && t.last.Upload? && t.last.obj == RPDO_VALUE && t.last.outcome == Success
  }

  /** `TpdoReceiveState`, written by the event loop. */
  class Receiver {
    var samples: seq<Frame>
    var generation: nat
    var latest: seq<Byte>
    var failed: bool
    /** Every valid TPDO1 so far, in order. */
    ghost var frames: seq<Frame>
    ghost var log: Log
    /**
     The wait for samples ended without them, a callback reported an error before a capture, a mapped value could not be
     read, or the node did not answer with the value that had been sent. Nothing else raises it.
     */
    ghost var flawed: bool

    constructor ()
      ensures New()
    {
      samples, generation, latest, failed, frames, log, flawed := [], 0, [], false, [], Blank, false;
    }

    ghost predicate New()
      reads this
    {
      Valid() && frames == [] && log == Blank && !failed && !flawed
    }

    ghost predicate Valid()
      reads this
    {
      && generation == |frames|
      && (forall i | 0 <= i < |frames| :: |frames[i].payload| == PAYLOAD_LENGTH)
      && (frames != [] ==> latest == frames[|frames| - 1].payload)
      && samples == (if |frames| <= SAMPLES then frames else frames[..SAMPLES])
    }

    /** Nothing that was observed is other than the test demands. */
    ghost predicate Good()
      reads this
    {
      !flawed && !(|frames| >= SAMPLES && !Punctual(frames[..SAMPLES])) && !Refuted(log, frames)
    }

    /** The `OnRpdo` callback for PDO 1; `error` covers a processing error and a null payload. */
    method OnRpdo(error: bool, payload: seq<Byte>, at: nat)
      requires Valid()
      modifies this`samples, this`generation, this`latest, this`failed, this`frames
      ensures Valid()
      ensures frames ==
        if error || |payload| != PAYLOAD_LENGTH then old(frames) else old(frames) + [Frame(payload, at)]
      ensures failed == (old(failed) || error || |payload| != PAYLOAD_LENGTH)
    {
      if error || |payload| != PAYLOAD_LENGTH {
        failed := true;
      } else {
        latest := payload;
        generation := generation + 1;
        if |samples| < SAMPLES { samples := samples + [Frame(payload, at)]; }
        frames := frames + [Frame(payload, at)];
      }
    }

    /** Whatever callbacks run while the process thread is elsewhere. */
    method Callbacks()
      requires Valid()
      modifies this`samples, this`generation, this`latest, this`failed, this`frames
      ensures Valid() && old(frames) <= frames
    {
      var count: nat := *;
      while count > 0
        invariant Valid() && old(frames) <= frames
      {
        var error: bool, payload: seq<Byte>, at: nat := *, *, *;
        OnRpdo(error, payload, at);
        count := count - 1;
      }
    }

    /** `waitForTpdoSamples`: it ends with the fifth frame, with an error, or when time is up. */
    method WaitForSamples() returns (ok: bool)
      requires Valid()
      modifies this
      ensures Valid() && old(frames) <= frames
      ensures ok <==> !failed && |frames| >= SAMPLES
      ensures flawed == (old(flawed) || !ok) && log == Noted(old(log), Waited(|frames|, failed))
    {
      Callbacks();
      ok := !failed && |samples| >= SAMPLES;
      log, flawed := Noted(log, Waited(|frames|, failed)), flawed || !ok;
    }

    /** `getLatestTpdoSample`. */
    method Latest() returns (ok: bool, sample: seq<Byte>, generation: nat)
      requires Valid()
      modifies this`log, this`flawed
      ensures ok <==> !failed && frames != []
      ensures ok ==> sample == frames[|frames| - 1].payload && generation == |frames|
      ensures log == Noted(old(log), Captured(|frames|, failed)) && flawed == (old(flawed) || failed)
    {
      ok := !failed && this.generation != 0;
      sample, generation := latest, this.generation;
      log, flawed := Noted(log, Captured(|frames|, failed)), flawed || failed;
    }

    /** `readMappedTpdoValue`. */
    method ReadMapped(obj: Obj) returns (ok: bool, value: nat)
      modifies this`log, this`flawed
      ensures log == Noted(old(log), Mapped(obj, if ok then Reads(value) else Unreadable))
      ensures flawed == (old(flawed) || !ok)
    {
      ok, value := *, *;
      log, flawed := Noted(log, Mapped(obj, if ok then Reads(value) else Unreadable)), flawed || !ok;
    }

    /** `isTpdoGenerationStable`. */
    method Stable(generation: nat) returns (ok: bool)
      requires Valid()
      modifies this`log
      ensures log == Noted(old(log), Looked(|frames|, failed))
      ensures ok <==> !failed && generation == |frames|
    {
      ok := !failed && this.generation == generation;
      log := Noted(log, Looked(|frames|, failed));
    }

    /** An upload, during which the event loop goes on receiving. */
    method Upload(slave: Slave, obj: Obj) returns (outcome: Outcome, value: nat)
      requires Valid()
      modifies slave, this`samples, this`generation, this`latest, this`failed, this`frames, this`log
      ensures Valid() && old(frames) <= frames
      ensures slave.trace == Then(old(slave.trace), Event.Upload(obj, outcome, Num(value)))
      ensures slave.rebooting == old(slave.rebooting)
      ensures old(slave.Settled()) ==> slave.Settled() && slave.od == old(slave.od)
      ensures log == if outcome == Success then Noted(old(log), Answered(obj, value)) else old(log)
    {
      Callbacks();
      outcome, value := slave.ReadVolatile(obj);
      Callbacks();
      if outcome == Success { log := Noted(log, Answered(obj, value)); }
    }

    /** The node has answered what 0x2200 is: it must be what was last sent there. */
    ghost method Verify(slave: Slave, n: nat)
      requires JustAnswered(slave.trace)
      modifies this`flawed
      ensures flawed ==
        (old(flawed) || (Sent(n, slave.trace).Some? && slave.trace.last.answer != Sent(n, slave.trace).value))
    {
      flawed := flawed || (Sent(n, slave.trace).Some? && slave.trace.last.answer != Sent(n, slave.trace).value);
    }
  }

  /**
   The history ends with uploads of both mapped objects, and the newest notes are an undisturbed attempt: after at least
   `least` frames the latest was captured, the mapped values were read, the node was asked, and when the receive state
   was looked at again no further frame had come, valid or not. Frame, mapping and node carry the same two values.
   */
  ghost predicate Compared(receiver: Receiver, t: Trace, least: nat)
    reads receiver
  {
    var stage := Progress(receiver.log);
    && Agrees(stage, receiver.frames) && least <= stage.frames
    && t.Then? && t.past.Then?
    && t.past.last == Upload(TPDO_VALUE1, Success, Num(stage.remote1))
    && t.last == Upload(TPDO_VALUE2, Success, Num(stage.remote2))
  }

  // ------------------------------------------------------------------------------------------------------------
  // What a run promises
  // ------------------------------------------------------------------------------------------------------------

  /** The first answer of 0x2200 after the first `n` events is the value that has to be restored. */
  ghost function Saved(n: nat, t: Trace): Option {
    match t
    case Nothing => None
    case Then(past, e) =>
      if Depth(t) <= n then None
      else if Saved(n, past).Some? then Saved(n, past)
      else if e.Upload? && e.obj == RPDO_VALUE && e.outcome == Success then Some(e.answer)
      else None
  }

  /** Nothing has been done since this value was sent to 0x2200, by SDO or PDO, but read it back. */
  ghost predicate PutBack(t: Trace, value: Value) {
    && t.Then? && !t.last.Command? && !t.last.Boot? && !t.last.PrepareBoot? && !t.last.Confirm?
    && t.last.obj == RPDO_VALUE
    && (if t.last.Upload? then PutBack(t.past, value)
        else (t.last.Download? || t.last.Pdo?) && t.last.value == value)
  }

  /** What every helper keeps: on an unknown channel it does nothing further by SDO. */
  ghost predicate Kept(slave: Slave, n: nat, before: Trace, ok: bool, lost: bool)
    reads slave
  {
    && n <= Depth(before) <= Depth(slave.trace)
    && Cautious(n, slave.trace) && !slave.rebooting
    && (lost ==> !ok)
    && (!lost ==> !Lossy(n, slave.trace) && (Phase(before) == Known ==> Phase(slave.trace) == Known))
    && (Saved(n, before).Some? ==> Saved(n, slave.trace) == Saved(n, before))
  }

  /**
   Nothing after the first `n` events failed. A download that only timed out is not a failure: the read-back after it
   decides.
   */
  ghost predicate Flawless(n: nat, t: Trace) {
    match t
    case Nothing => true
    case Then(past, e) =>
      Depth(t) <= n ||
      (&& Flawless(n, past)
       && (e.Upload? ==> e.outcome == Success)
       && (e.Download? ==> e.outcome == Success || e.outcome == SdoTimeout)
       && (e.Pdo? ==> e.sent)
       && (e.Command? ==> e.accepted))
  }

  /** Nothing so far was other than the test demands. */
  ghost predicate Sound(slave: Slave, receiver: Receiver, n: nat)
    reads slave, receiver
  {
    Flawless(n, slave.trace) && receiver.Good()
  }

  /** Where the steps before the save stand. */
  ghost predicate Observing(slave: Slave, receiver: Receiver, n: nat)
    reads slave, receiver
  {
    && slave.Settled() && n <= Depth(slave.trace) && Cautious(n, slave.trace) && !Lossy(n, slave.trace)
    && receiver.Valid() && Saved(n, slave.trace).None?
  }

  /** The two uploads of one attempt. */
  method ReadPair(slave: Slave, receiver: Receiver, ghost n: nat)
    returns (ok: bool, value1: nat, value2: nat, lost: bool)
    requires Observing(slave, receiver, n)
    modifies slave, receiver
    ensures Kept(slave, n, old(slave.trace), ok, lost) && slave.Settled() && slave.od == old(slave.od)
    ensures Saved(n, slave.trace).None?
    ensures Flawless(n, slave.trace) <==> ok && Flawless(n, old(slave.trace))
    ensures receiver.Valid() && receiver.flawed == old(receiver.flawed) && old(receiver.frames) <= receiver.frames
    ensures ok ==>
      && slave.trace == Then(Then(old(slave.trace),
        Upload(TPDO_VALUE1, Success, Num(value1))), Upload(TPDO_VALUE2, Success, Num(value2)))
      && receiver.log == Noted(Noted(old(receiver.log), Answered(TPDO_VALUE1, value1)), Answered(TPDO_VALUE2, value2))
  {
    var o;
    value2 := 0;
    o, value1 := receiver.Upload(slave, TPDO_VALUE1);
    ok, lost := o == Success, o == WaitTimeout;
    assert Flawless(n, slave.trace) <==> ok && Flawless(n, old(slave.trace));
    assert Saved(n, slave.trace).None?;
    if ok {
      o, value2 := receiver.Upload(slave, TPDO_VALUE2);
      ok, lost := o == Success, o == WaitTimeout;
    }
  }

  /** The last look at the receive state, and the verdict when no frame has come. */
  method Judge(receiver: Receiver, sample: seq<Byte>, local1: nat, local2: nat, remote1: nat, remote2: nat,
               generation: nat)
    returns (again: bool, ok: bool)
    requires receiver.Valid() && 0 < generation <= |receiver.frames|
    requires sample == receiver.frames[generation - 1].payload
    requires Progress(receiver.log) == AnsweredBoth(generation, local1, local2, remote1, remote2)
    modifies receiver
    ensures receiver.Valid() && receiver.flawed == old(receiver.flawed) && old(receiver.frames) <= receiver.frames
    ensures again ==> !ok && Interruptions(receiver.log) == old(Interruptions(receiver.log)) + 1
    ensures again ==> Progress(receiver.log).Resting?
    ensures !again ==> Interruptions(receiver.log) == old(Interruptions(receiver.log))
    ensures !again ==> Progress(receiver.log) == Complete(generation, local1, local2, remote1, remote2)
    ensures !again ==> (ok <==> Agrees(Progress(receiver.log), receiver.frames))
  {
    receiver.Callbacks();
    var stable := receiver.Stable(generation);
    again := !stable;
    ok := stable && local1 == DecodeLe32(sample, 0) && local2 == DecodeLe32(sample, 4)
      && remote1 == DecodeLe32(sample, 0) && remote2 == DecodeLe32(sample, 4);
  }

  /** The uploads of one attempt and their comparison with the frame of the captured generation. */
  method CompareUploads(slave: Slave, receiver: Receiver, sample: seq<Byte>, generation: nat, local1: nat, local2: nat,
                        ghost n: nat)
    returns (again: bool, ok: bool, lost: bool)
    requires Observing(slave, receiver, n) && 0 < generation <= |receiver.frames|
    requires sample == receiver.frames[generation - 1].payload
    requires Progress(receiver.log) == Steady(generation, local1, local2)
    modifies slave, receiver
    ensures Kept(slave, n, old(slave.trace), ok, lost) && slave.Settled() && slave.od == old(slave.od)
    ensures Saved(n, slave.trace).None?
    ensures receiver.Valid() && receiver.flawed == old(receiver.flawed) && old(receiver.frames) <= receiver.frames
    ensures Interrupted(slave, receiver, old(slave.trace), old(receiver.log), n, again, ok, lost)
    ensures ok ==> Compared(receiver, slave.trace, generation)
  {
    hide Cautious, Lossy, Depth, Phase, Flawless, DecodeLe32, Progress, Interruptions;
    again := false;
    var remote1, remote2;
    ok, remote1, remote2, lost := ReadPair(slave, receiver, n);
    if !ok { return; }
    Uploaded(receiver.log, generation, local1, local2, remote1, remote2);
    again, ok := Judge(receiver, sample, local1, local2, remote1, remote2, generation);
  }

  lemma Uploaded(log: Log, frames: nat, local1: nat, local2: nat, remote1: nat, remote2: nat)
    requires log.Noted? && log.past.Noted? && Progress(log.past.past) == Steady(frames, local1, local2)
    requires log.past.last == Answered(TPDO_VALUE1, remote1) && log.last == Answered(TPDO_VALUE2, remote2)
    ensures Progress(log) == AnsweredBoth(frames, local1, local2, remote1, remote2)
    ensures Interruptions(log) == Interruptions(log.past.past)
  {
    assert Progress(log.past) == AnsweredOne(frames, local1, local2, remote1);
  }

  /** How an attempt ended: with one more interruption, in agreement, or with evidence against the node. */
  ghost predicate Interrupted(slave: Slave, receiver: Receiver, before: Trace, log: Log, n: nat, again: bool, ok: bool,
                              lost: bool)
    reads slave, receiver
  {
    && (again ==>
      && !ok && !lost && (Flawless(n, slave.trace) <==> Flawless(n, before))
      && Progress(receiver.log).Resting? && Interruptions(receiver.log) == Interruptions(log) + 1)
    && (ok ==>
      && (Flawless(n, slave.trace) <==> Flawless(n, before))
      && Agrees(Progress(receiver.log), receiver.frames) && Interruptions(receiver.log) == Interruptions(log))
    && (!again && !ok ==>
      || !Flawless(n, slave.trace) || receiver.flawed
      || (Progress(receiver.log).Complete? && !Agrees(Progress(receiver.log), receiver.frames)))
  }

  /** What a capture has come to. */
  ghost predicate Held(receiver: Receiver, stable: bool, sample: seq<Byte>, generation: nat, local1: nat, local2: nat)
    reads receiver
  {
    && 0 < generation <= |receiver.frames| && sample == receiver.frames[generation - 1].payload
    && Progress(receiver.log) == if stable then Steady(generation, local1, local2) else Resting
  }

  /** Both local mapped values of a captured frame. */
  method ReadLocal(receiver: Receiver, generation: nat) returns (ok: bool, local1: nat, local2: nat)
    requires Progress(receiver.log) == Caught(generation)
    modifies receiver`log, receiver`flawed
    ensures receiver.flawed == (old(receiver.flawed) || !ok)
    ensures ok ==> Progress(receiver.log) == MappedBoth(generation, local1, local2)
    ensures Interruptions(receiver.log) == old(Interruptions(receiver.log))
  {
    local2 := 0;
    ok, local1 := receiver.ReadMapped(TPDO_VALUE1);
    if !ok { return; }
    ok, local2 := receiver.ReadMapped(TPDO_VALUE2);
  }

  lemma BeginsAttempt(log: Log, frames: nat)
    requires log.Noted? && log.last == Captured(frames, false)
    ensures Progress(log) == Caught(frames) && Interruptions(log) == Interruptions(log.past)
  {}

  lemma LooksAgain(log: Log, generation: nat, local1: nat, local2: nat)
    requires log.Noted? && Progress(log.past) == MappedBoth(generation, local1, local2) && log.last.Looked?
    ensures var stable := !log.last.failed && log.last.frames == generation;
      && Progress(log) == (if stable then Steady(generation, local1, local2) else Resting)
      && Interruptions(log) == Interruptions(log.past) + if stable then 0 else 1
  {}

  /** The frame of one attempt and its local mapping; `stable` when no TPDO came meanwhile. */
  method Capture(receiver: Receiver)
    returns (ok: bool, stable: bool, sample: seq<Byte>, generation: nat, local1: nat, local2: nat)
    requires receiver.Valid()
    modifies receiver
    ensures receiver.Valid() && old(receiver.frames) <= receiver.frames
    ensures old(receiver.frames) != [] ==> receiver.flawed == (old(receiver.flawed) || !ok)
    ensures ok ==> |old(receiver.frames)| <= generation && Held(receiver, stable, sample, generation, local1, local2)
    ensures ok ==> receiver.flawed == old(receiver.flawed)
    ensures ok ==>
      Interruptions(receiver.log) == Interruptions(old(receiver.log)) + if stable then 0 else 1
  {
    hide Progress, Interruptions, Next, Interrupts;
    stable, local1, local2 := false, 0, 0;
    receiver.Callbacks();
    ok, sample, generation := receiver.Latest();
    if !ok { return; }
    ghost var seen := receiver.frames;
    receiver.Callbacks();
    BeginsAttempt(receiver.log, generation);
    ok, local1, local2 := ReadLocal(receiver, generation);
    if !ok { return; }
    receiver.Callbacks();
    stable := receiver.Stable(generation);
    LooksAgain(receiver.log, generation, local1, local2);
    assert seen <= receiver.frames;
  }

  /** One attempt; `again` when a TPDO arrived in between. */
  method CompareOnce(slave: Slave, receiver: Receiver, ghost n: nat) returns (again: bool, ok: bool, lost: bool)
    requires Observing(slave, receiver, n)
    modifies slave, receiver
    ensures Kept(slave, n, old(slave.trace), ok, lost) && slave.Settled() && slave.od == old(slave.od)
    ensures Saved(n, slave.trace).None? && receiver.Valid() && old(receiver.frames) <= receiver.frames
    ensures old(receiver.frames) != [] ==>
      Interrupted(slave, receiver, old(slave.trace), old(receiver.log), n, again, ok, lost)
    ensures again || ok ==> receiver.flawed == old(receiver.flawed)
    ensures again ==> !ok && !lost
    ensures ok ==> Compared(receiver, slave.trace, |old(receiver.frames)|)
  {
    hide Cautious, Lossy, Depth, Phase, Flawless, DecodeLe32, Progress, Interruptions;
    again, ok, lost := false, false, false;
    var captured, stable, sample, generation, local1, local2 := Capture(receiver);
    if !captured { return; }
    again := !stable;
    if stable {
      again, ok, lost := CompareUploads(slave, receiver, sample, generation, local1, local2, n);
    }
  }

  /**
   `verifyTpdoOdConsistency`: raw frame, local mapping and SDO are compared only if no TPDO arrived from before the
   uploads until after them. With a frame to compare it fails only with evidence.
   */
  method VerifyConsistency(slave: Slave, receiver: Receiver, ghost n: nat) returns (ok: bool, lost: bool)
    requires Observing(slave, receiver, n) && Interruptions(receiver.log) == 0
    modifies slave, receiver
    ensures Kept(slave, n, old(slave.trace), ok, lost) && slave.Settled() && slave.od == old(slave.od)
    ensures Saved(n, slave.trace).None? && receiver.Valid() && old(receiver.frames) <= receiver.frames
    ensures ok ==> Compared(receiver, slave.trace, |old(receiver.frames)|)
    ensures ok && old(receiver.frames) != [] && old(Sound(slave, receiver, n)) ==>
      Flawless(n, slave.trace) && !receiver.flawed && !Refuted(receiver.log, receiver.frames)
    ensures !ok && old(receiver.frames) != [] ==>
      !Flawless(n, slave.trace) || receiver.flawed || Refuted(receiver.log, receiver.frames)
  {
    hide Cautious, Lossy, Depth, Phase, Flawless, DecodeLe32, Progress, Interruptions;
    ok, lost := false, false;
    var attempt, again := 0, true;
    while again && attempt < RETRIES
      invariant Kept(slave, n, old(slave.trace), ok, lost) && slave.Settled() && slave.od == old(slave.od)
      invariant Saved(n, slave.trace).None? && receiver.Valid() && old(receiver.frames) <= receiver.frames
      invariant again ==> !ok && !lost
      invariant again || ok ==> receiver.flawed == old(receiver.flawed)
      invariant (again || ok) && old(receiver.frames) != [] ==>
        (Flawless(n, slave.trace) <==> Flawless(n, old(slave.trace)))
      invariant again && old(receiver.frames) != [] ==> Interruptions(receiver.log) == attempt
      invariant ok && old(receiver.frames) != [] ==> Interruptions(receiver.log) < attempt <= RETRIES
      invariant ok ==> Compared(receiver, slave.trace, |old(receiver.frames)|)
      invariant !again && !ok && old(receiver.frames) != [] ==>
        || !Flawless(n, slave.trace) || receiver.flawed
        || (Progress(receiver.log).Complete? && !Agrees(Progress(receiver.log), receiver.frames))
      invariant attempt <= RETRIES
    {
      again, ok, lost := CompareOnce(slave, receiver, n);
      attempt := attempt + 1;
    }
  }

  /** Step 4: the value that has to be restored. */
  method SaveOriginal(slave: Slave, ghost n: nat) returns (ok: bool, original: nat, lost: bool)
    requires slave.Settled() && n <= Depth(slave.trace) && Cautious(n, slave.trace) && !Lossy(n, slave.trace)
    requires Saved(n, slave.trace).None?
    modifies slave
    ensures Kept(slave, n, old(slave.trace), ok, lost) && slave.Settled() && slave.od == old(slave.od)
    ensures Flawless(n, slave.trace) <==> ok && Flawless(n, old(slave.trace))
    ensures ok ==> RPDO_VALUE in slave.od && slave.od[RPDO_VALUE] == Num(original)
    ensures ok ==> slave.trace == Then(old(slave.trace), Upload(RPDO_VALUE, Success, Num(original)))
    ensures Saved(n, slave.trace) == if ok then Some(Num(original)) else None
  {
    var o;
    o, original := slave.ReadNum(RPDO_VALUE);
    ok, lost := o == Success, o == WaitTimeout;
  }

  /** A value that differs from the saved one. */
  function ProbeFor(original: nat): (probe: nat)
    ensures probe != original
  {
    if original == PROBE then ALTERNATE else PROBE
  }

  /**
   What a complete exercise adds to a history: the value is read, the probe sent and read back, the value written and
   read back.
   */
  ghost function Exercised(t: Trace, original: nat, written: Outcome): Trace {
    Then(Then(Then(Then(Then(t,
      Upload(RPDO_VALUE, Success, Num(original))),
      Pdo(RPDO_VALUE, Num(ProbeFor(original)), true)),
      Upload(RPDO_VALUE, Success, Num(ProbeFor(original)))),
      Download(RPDO_VALUE, Num(original), written)),
      Upload(RPDO_VALUE, Success, Num(original)))
  }

  /** A read-back of 0x2200. */
  method ReadBack(slave: Slave, receiver: Receiver, expected: nat, ghost n: nat) returns (ok: bool, lost: bool)
    requires !slave.rebooting && n <= Depth(slave.trace) && Cautious(n, slave.trace) && !Lossy(n, slave.trace)
    requires Sent(n, slave.trace) == Some(Num(expected))
    modifies slave, receiver`flawed
    ensures Kept(slave, n, old(slave.trace), ok, lost)
    ensures Flawless(n, slave.trace) && !receiver.flawed <==>
      ok && Flawless(n, old(slave.trace)) && !old(receiver.flawed)
    ensures slave.inflight <= old(slave.inflight) && slave.lingering <= old(slave.lingering)
    ensures Drifts(old(slave.od), old(slave.Pending()), false, slave.od, slave.Pending())
    ensures slave.trace.Then? && slave.trace.past == old(slave.trace)
    ensures slave.trace.last.Upload? && slave.trace.last.obj == RPDO_VALUE
    ensures ok ==> slave.trace.last == Upload(RPDO_VALUE, Success, Num(expected))
    ensures ok ==> RPDO_VALUE in slave.od && slave.od[RPDO_VALUE] == Num(expected)
  {
    var o, actual := slave.ReadNum(RPDO_VALUE);
    ok, lost := o == Success && actual == expected, o == WaitTimeout;
    if o == Success { receiver.Verify(slave, n); }
  }

  /**
   Steps 5 and 6: the probe goes out as a PDO and is read back by SDO. Because the probe differs from the saved
   value, reading it proves that the PDO has landed and that nothing is left in flight.
   */
  method Probe(slave: Slave, receiver: Receiver, original: nat, ghost n: nat) returns (ok: bool, lost: bool)
    requires slave.Settled() && n <= Depth(slave.trace) && Cautious(n, slave.trace) && !Lossy(n, slave.trace)
    requires RPDO_VALUE in slave.od && slave.od[RPDO_VALUE] == Num(original) && !receiver.flawed
    modifies slave, receiver`flawed
    ensures Kept(slave, n, old(slave.trace), ok, lost)
    ensures Flawless(n, slave.trace) && !receiver.flawed <==> ok && Flawless(n, old(slave.trace))
    ensures slave.od.Keys == old(slave.od).Keys
    ensures forall k | k in slave.od && k != RPDO_VALUE :: slave.od[k] == old(slave.od)[k]
    ensures ok ==> slave.Settled() && slave.trace == Then(
      Then(old(slave.trace), Pdo(RPDO_VALUE, Num(ProbeFor(original)), true)),
      Upload(RPDO_VALUE, Success, Num(ProbeFor(original))))
  {
    var probe := ProbeFor(original);
    ok := slave.SendPdo(RPDO_VALUE, Num(probe));
    lost := false;
    assert Flawless(n, slave.trace) <==> ok && Flawless(n, old(slave.trace));
    assert Kept(slave, n, old(slave.trace), ok, lost) && Sent(n, slave.trace) == Some(Num(probe));
    hide Flawless, Cautious, Lossy, Depth, Phase, Sent, Saved;
    if ok { ok, lost := ReadBack(slave, receiver, probe, n); }
  }

  /** `restoreRpdoTestValue`: a protocol timeout is resolved by the read-back, a lost completion by nothing. */
  method RestoreValue(slave: Slave, receiver: Receiver, original: nat, ghost n: nat) returns (ok: bool, lost: bool)
    requires !slave.rebooting && n <= Depth(slave.trace) && Cautious(n, slave.trace) && !Lossy(n, slave.trace)
    modifies slave, receiver`flawed
    ensures Kept(slave, n, old(slave.trace), ok, lost) && PutBack(slave.trace, Num(original))
    ensures Flawless(n, slave.trace) && !receiver.flawed <==>
      ok && Flawless(n, old(slave.trace)) && !old(receiver.flawed)
    ensures ok && old(slave.Settled()) ==>
      && slave.Settled() && RPDO_VALUE in slave.od && slave.od[RPDO_VALUE] == Num(original)
      && slave.od.Keys == old(slave.od).Keys
      && forall k | k in slave.od && k != RPDO_VALUE :: slave.od[k] == old(slave.od)[k]
    ensures ok ==> exists o :: Rewritten(old(slave.trace), slave.trace, original, o)
  {
    var o := slave.WriteTo(RPDO_VALUE, Num(original));
    ghost var written := o;
    ok, lost := o == Success || o == SdoTimeout, o == WaitTimeout;
    assert Flawless(n, slave.trace) <==> ok && Flawless(n, old(slave.trace));
    assert Kept(slave, n, old(slave.trace), ok, lost) && Sent(n, slave.trace) == Some(Num(original));
    assert PutBack(slave.trace, Num(original));
    hide Flawless, Cautious, Lossy, Depth, Phase, Sent, Saved;
    if ok {
      ok, lost := ReadBack(slave, receiver, original, n);
      assert ok ==> Rewritten(old(slave.trace), slave.trace, original, written);
    }
  }

  /** The value has been written, or an SDO timeout left that open, and then been read back. */
  ghost predicate Rewritten(before: Trace, after: Trace, original: nat, written: Outcome) {
    && (written == Success || written == SdoTimeout)
    && after == Then(
      Then(before, Download(RPDO_VALUE, Num(original), written)), Upload(RPDO_VALUE, Success, Num(original)))
  }

  /**
   Step 7, whatever the probe came to: the saved value is sent by SDO, or by one unverified PDO once SDO is no longer
   allowed.
   */
  method Cleanup(slave: Slave, receiver: Receiver, original: nat, passed: bool, lost0: bool, ghost n: nat)
    returns (result: nat)
    requires !slave.rebooting && n <= Depth(slave.trace) && Cautious(n, slave.trace)
    requires !lost0 ==> !Lossy(n, slave.trace)
    requires passed ==> slave.Usable() && !lost0
    requires passed <==> Flawless(n, slave.trace) && !receiver.flawed
    requires Saved(n, slave.trace) == Some(Num(original))
    modifies slave, receiver`flawed
    ensures result == 0 <==> Flawless(n, slave.trace) && !receiver.flawed
    ensures n <= Depth(slave.trace) && Cautious(n, slave.trace)
    ensures Saved(n, slave.trace) == Some(Num(original)) && PutBack(slave.trace, Num(original))
    ensures Lossy(n, slave.trace) ==> slave.trace.last.Pdo?
    ensures result == 0 ==> passed && exists o :: Rewritten(old(slave.trace), slave.trace, original, o)
    ensures result == 0 ==>
      && slave.Usable() && !Lossy(n, slave.trace)
      && RPDO_VALUE in slave.od && slave.od[RPDO_VALUE] == Num(original)
      && slave.od.Keys == old(slave.od).Keys
      && forall k | k in slave.od && k != RPDO_VALUE :: slave.od[k] == old(slave.od)[k]
  {
    result := if passed then 0 else 1;
    var lost := lost0;
    if !lost {
      var ok;
      ok, lost := RestoreValue(slave, receiver, original, n);
      if !ok { result := 1; }
    }
    if lost {
      var sent := slave.SendPdo(RPDO_VALUE, Num(original));
      result := 1;
    }
  }

  /** Steps 1 and 2: master and node Operational. */
  method StartNodes(slave: Slave, ghost n: nat) returns (ok: bool)
    requires slave.Settled() && n <= Depth(slave.trace) && Cautious(n, slave.trace) && !Lossy(n, slave.trace)
    requires Saved(n, slave.trace).None?
    modifies slave
    ensures Flawless(n, slave.trace) <==> ok && Flawless(n, old(slave.trace))
    ensures Kept(slave, n, old(slave.trace), ok, false) && slave.Settled() && slave.od == old(slave.od)
    ensures Saved(n, slave.trace).None?
  {
    ok := slave.Issue(Start, false);
    assert Kept(slave, n, old(slave.trace), ok, false) && Saved(n, slave.trace).None?;
    if ok { ok := slave.Issue(Start, true); }
  }

  /** `validateTpdoSamples`. */
  method ValidateSamples(samples: seq<Frame>) returns (ok: bool)
    ensures ok <==> Punctual(samples)
  {
    var i := 1;
    while i < |samples|
      invariant 1 <= i && forall j | 1 <= j < i && j < |samples| :: InTime(samples[j].at - samples[j - 1].at)
    {
      if !InTime(samples[i].at - samples[i - 1].at) { return false; }
      i := i + 1;
    }
    ok := true;
  }

  /** Steps 1 to 3: start both nodes, collect five samples, compare the latest frame with the dictionary. */
  method ObserveTpdo(slave: Slave, receiver: Receiver, ghost n: nat) returns (ok: bool, lost: bool)
    requires Observing(slave, receiver, n) && receiver.New() && Flawless(n, slave.trace)
    modifies slave, receiver
    ensures Kept(slave, n, old(slave.trace), ok, lost) && slave.Settled() && slave.od == old(slave.od)
    ensures Saved(n, slave.trace).None? && receiver.Valid()
    ensures Sound(slave, receiver, n) <==> ok
    ensures ok ==> Compared(receiver, slave.trace, SAMPLES)
  {
    hide Cautious, Lossy, Flawless, Depth, Phase, DecodeLe32, Punctual, Compared;
    lost := false;
    ok := StartNodes(slave, n);
    if !ok { return; }
    ok := receiver.WaitForSamples();
    if !ok { return; }
    ok := ValidateSamples(receiver.samples);
    assert receiver.samples == receiver.frames[..SAMPLES];
    if !ok { return; }
    ghost var sampled := receiver.frames;
    ok, lost := VerifyConsistency(slave, receiver, n);
    assert receiver.frames[..SAMPLES] == sampled[..SAMPLES];
    CompareMore(receiver, slave.trace, |sampled|);
  }

  lemma CompareMore(receiver: Receiver, t: Trace, least: nat)
    requires least >= SAMPLES
    ensures Compared(receiver, t, least) ==> Compared(receiver, t, SAMPLES)
  {}

  /** Steps 4 to 7: save the value, send the probe, and put the value back whether or not the probe arrived. */
  method ExerciseRpdo(slave: Slave, receiver: Receiver, ghost n: nat) returns (result: nat)
    requires slave.Usable() && n <= Depth(slave.trace) && Cautious(n, slave.trace) && !Lossy(n, slave.trace)
    requires Flawless(n, slave.trace) && !receiver.flawed && Saved(n, slave.trace).None?
    modifies slave, receiver`flawed
    ensures Cautious(n, slave.trace)
    ensures result == 0 <==> Flawless(n, slave.trace) && !receiver.flawed
    ensures Saved(n, slave.trace).Some? ==>
      PutBack(slave.trace, Saved(n, slave.trace).value) && (Lossy(n, slave.trace) ==> slave.trace.last.Pdo?)
    ensures result == 0 ==> slave.Usable() && slave.od == old(slave.od) && !Lossy(n, slave.trace)
    ensures result == 0 ==> exists original, o :: slave.trace == Exercised(old(slave.trace), original, o)
  {
    hide Cautious, Lossy, Flawless, Depth, Phase, DecodeLe32, Saved, PutBack;
    result := 1;
    ghost var before := slave.trace;
    var ok, original, lost := SaveOriginal(slave, n);
    if !ok { return; }
    ok, lost := Probe(slave, receiver, original, n);
    ghost var probed := slave.trace;
    result := Cleanup(slave, receiver, original, ok, lost, n);
    if result == 0 {
      ghost var o :| Rewritten(probed, slave.trace, original, o);
      assert slave.trace == Exercised(before, original, o);
    }
  }

  /**
   `pdoProcess`, with receive state made for it. The result is 0 exactly when no event failed and nothing observed was
   other than the test demands. Then an undisturbed comparison has been made after at least five frames, after that the
   probe has been sent, read back and undone, and every configuration object of the node is as it was. Whatever the
   result, once the value of 0x2200 was read the last thing sent there is that value, by PDO if SDO was lost.
   */
  method Process(slave: Slave, receiver: Receiver) returns (result: nat)
    requires slave.Usable() && receiver.New()
    modifies slave, receiver
    ensures Cautious(Depth(old(slave.trace)), slave.trace)
    ensures result == 0 <==> Sound(slave, receiver, Depth(old(slave.trace)))
    ensures result == 0 ==>
      slave.Usable() && slave.od == old(slave.od) && !Lossy(Depth(old(slave.trace)), slave.trace)
    ensures result == 0 ==> exists t, original, o ::
      && slave.trace == Exercised(t, original, o) && Depth(old(slave.trace)) <= Depth(t)
      && Compared(receiver, t, SAMPLES)
    ensures var saved := Saved(Depth(old(slave.trace)), slave.trace);
      saved.Some? ==>
        && PutBack(slave.trace, saved.value)
        && (Lossy(Depth(old(slave.trace)), slave.trace) ==> slave.trace.last.Pdo?)
  {
    ghost var n := Depth(slave.trace);
    assert Cautious(n, slave.trace) && !Lossy(n, slave.trace) && Flawless(n, slave.trace)
      && Saved(n, slave.trace).None? by {
      if !slave.trace.Nothing? { assert Depth(slave.trace) <= n; }
    }
    hide Cautious, Lossy, Flawless, Depth, Phase, DecodeLe32, Saved, PutBack, Punctual, Refuted;
    result := 1;
    var ok, lost := ObserveTpdo(slave, receiver, n);
    if ok { result := ExerciseRpdo(slave, receiver, n); }
  }
}
