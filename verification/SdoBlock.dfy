/**
 `sdoBlockProcess`: block transfers to the DOMAIN 0x2304, deliberate failures between them, and restoration of the
 saved octets. No reset is available here: a lost transfer ends all SDO traffic of the run.
 */
module SdoBlock {
  import opened Bits
  import opened Payloads
  import opened RemoteNode

  const BLOCK_OBJECT := Obj(0x2304, 0)
  const READ_ONLY_OBJECT := Obj(0x1000, 0)
  const MAX_PAYLOAD_SIZE: nat := 2048
  const STRESS_ITERATIONS: nat := 100

  // ------------------------------------------------------------------------------------------------------------
  // What a history says
  // ------------------------------------------------------------------------------------------------------------

  /** Whether the node may be Stopped: `Doubtful` after a STOP that was sent but not confirmed. */
  datatype Power = Awake | Doubtful | Stopped

  datatype Option = None | Some(octets: seq<Byte>)

  /**
   `doubtful` and `stopped` count the transfers begun in these states, `refused` and `cancelled` the downloads meant to
   fail, and `stops` the STOP commands sent. `unanswered` tells that the first of them was never confirmed. `saved` is
   the first answer of the block object, `sent` what was written there just now, and `trips` are the payloads that were
   written there and read back unchanged.
   */
  datatype Notes = Notes(
    power: Power, doubtful: nat, stopped: nat, refused: nat, cancelled: nat, stops: nat, unanswered: bool,
    expected: bool, saved: Option, sent: Option, trips: seq<seq<Byte>>)

  const UNUSED := Notes(Awake, 0, 0, 0, 0, 0, false, true, None, None, [])

  /** The only event a passing run may contain at this point. */
  ghost predicate Expected(power: Power, e: Event) {
    match e
    case Upload(_, outcome, _) => outcome == (if power == Stopped then SdoTimeout else Success)
    case Download(_, _, outcome) => outcome == Success
    case Refusable(_, _, _, noWrite) => noWrite
    case Cancelled(_, _, _, general) => general
    case Command(_, _, accepted, _, _) => accepted
    case Confirm(_, observed) => observed
    case _ => false
  }

  ghost function NotesAfter(notes: Notes, e: Event): Notes {
    Notes(
      if e.Command? && e.cmd == Stop && e.accepted then Doubtful
      else if e == Confirm(Stop, true) then Stopped
      else if e == Confirm(EnterPreop, true) then Awake
      else notes.power,
      notes.doubtful + (if e.Sdo() && notes.power == Doubtful then 1 else 0),
      notes.stopped + (if e.Sdo() && notes.power == Stopped then 1 else 0),
      notes.refused + (if e.Refusable? then 1 else 0),
      notes.cancelled + (if e.Cancelled? then 1 else 0),
      notes.stops + (if e.Command? && e.cmd == Stop && e.accepted then 1 else 0),
      notes.unanswered || (e == Confirm(Stop, false) && notes.stops == 1),
      notes.expected && Expected(notes.power, e),
      if notes.saved.None? && Fetches(e) then Some(e.answer.bytes) else notes.saved,
      if e.Download? && e.obj == BLOCK_OBJECT && e.value.Octets? && e.outcome == Success
      then Some(e.value.bytes) else None,
      if Fetches(e) && notes.sent == Some(e.answer.bytes) then notes.trips + [e.answer.bytes] else notes.trips)
  }

  /** The node has answered what the block object holds. */
  ghost predicate Fetches(e: Event) {
    e.Upload? && e.obj == BLOCK_OBJECT && e.outcome == Success && e.answer.Octets?
  }

  /** The notes on the events after the first `n`, for a node found awake. */
  ghost function Review(n: nat, t: Trace): Notes {
    match t
    case Nothing => UNUSED
    case Then(past, e) => if Depth(t) <= n then UNUSED else NotesAfter(Review(n, past), e)
  }

  /**
   A run in which STOP was sent and never confirmed: the transfer that cleanup begins next goes to a node that may be
   stopped, with the channel still known.
   */
  lemma UnconfirmedStopThenTransfer(n: nat, t: Trace, od: Od, settled: bool, octets: seq<Byte>) returns (after: Trace)
    requires n <= Depth(t) && Cautious(n, t) && !Lossy(n, t) && Phase(t) == Known
    requires var notes := Review(n, t);
      notes.power == Awake && notes.stops == 0 && notes.doubtful == 0 && !notes.unanswered
    ensures after == Then(Then(Then(t, Command(Stop, true, true, od, settled)), Confirm(Stop, false)),
      Download(BLOCK_OBJECT, Octets(octets), Success))
    ensures Cautious(n, after) && Phase(after) == Known
    ensures Review(n, after) == Review(n, t).(power := Doubtful, doubtful := 1, stops := 1, unanswered := true,
                                              expected := false, sent := Some(octets))
  {
    var stopped := Then(t, Command(Stop, true, true, od, settled));
    assert Review(n, stopped).power == Doubtful && Phase(stopped) == Known;
    var unconfirmed := Then(stopped, Confirm(Stop, false));
    assert Review(n, unconfirmed).unanswered && !Review(n, unconfirmed).expected && !Lossy(n, unconfirmed);
    assert Phase(unconfirmed) == Known;
    after := Then(unconfirmed, Download(BLOCK_OBJECT, Octets(octets), Success));
  }

  // How a run may end once it has saved the octets.

  /** The saved octets have been sent last, and at most read back since. */
  ghost predicate Returned(t: Trace, original: seq<Byte>) {
    && t.Then?
    && (|| (t.last.Download? && t.last == Download(BLOCK_OBJECT, Octets(original), t.last.outcome))
        || (&& t.last.Upload? && t.last.obj == BLOCK_OBJECT
            && t.past.Then? && t.past.last == Download(BLOCK_OBJECT, Octets(original), Success)))
  }

  /** Since `before` Pre-operational was asked for, and refused or not confirmed. */
  ghost predicate PreopRefused(before: Trace, t: Trace) {
    && t.Then?
    && (|| (t.past == before && t.last.Command? && t.last.cmd == EnterPreop && !t.last.accepted)
        || (&& t.last == Confirm(EnterPreop, false) && t.past.Then? && t.past.past == before
            && t.past.last.Command? && t.past.last.cmd == EnterPreop))
  }

  ghost predicate EndsRefused(t: Trace) {
    exists before :: PreopRefused(before, t)
  }

  /** Pre-operational was asked for twice in vain, by the case that stopped the node and by the cleanup. */
  ghost predicate StaysStopped(t: Trace) {
    exists before :: PreopRefused(before, t) && EndsRefused(before)
  }

  /** The STOP of the barrier after the cancelled transfer was refused or not confirmed. */
  ghost predicate NoBarrier(n: nat, t: Trace) {
    && t.Then? && Review(n, t).cancelled > 0 && Review(n, t).power != Stopped
    && (t.last == Confirm(Stop, false) || (t.last.Command? && t.last.cmd == Stop && !t.last.accepted))
  }

  /**
   The saved octets are sent back, unless the node could not be taken out of Stopped, or SDO is no longer allowed: a
   transfer was lost, or the barrier failed.
   */
  ghost predicate Ended(n: nat, t: Trace, original: seq<Byte>) {
    || Returned(t, original) || StaysStopped(t) || NoBarrier(n, t)
    || (Lossy(n, t) && Review(n, t).power != Stopped)
  }

  // The payloads of a complete run.

  const SIZES := [32, 900, 1024, 1025, MAX_PAYLOAD_SIZE]

  function FunctionalTrips(k: nat): seq<seq<Byte>>
    requires k <= |SIZES|
  {
    if k == 0 then [] else FunctionalTrips(k - 1) + [Pattern(SIZES[k - 1], XorWord(PATTERN_SEED, k))]
  }

  function FailureTrips(): seq<seq<Byte>> {
    [Pattern(32, XorWord(PATTERN_SEED, 0x0601_0002)), Pattern(32, XorWord(PATTERN_SEED, 0x0504_0000)),
     Pattern(MAX_PAYLOAD_SIZE, XorWord(PATTERN_SEED, 0x0800_0001))]
  }

  function StressTrips(k: nat): seq<seq<Byte>>
    requires k <= STRESS_ITERATIONS
  {
    if k == 0 then [] else StressTrips(k - 1) + [Pattern(MAX_PAYLOAD_SIZE, StressSeed(k - 1))]
  }

  function RegressionTrips(): seq<seq<Byte>> {
    [Pattern(32, XorWord(PATTERN_SEED, 0x09)), Pattern(MAX_PAYLOAD_SIZE, XorWord(PATTERN_SEED, 0x10))]
    + StressTrips(STRESS_ITERATIONS)
  }

  // ------------------------------------------------------------------------------------------------------------
  // Steps
  // ------------------------------------------------------------------------------------------------------------

  /** `channel_known` and `node_stopped`. */
  datatype Flags = Flags(channelKnown: bool, nodeStopped: bool)

  const GOOD := Flags(true, false)

  /** The block object alone may differ from `entry`. */
  ghost predicate OnlyBlock(entry: Od, od: Od) {
    od.Keys == entry.Keys && forall k | k in entry && k != BLOCK_OBJECT :: od[k] == entry[k]
  }

  /**
   What holds between any two steps: while the channel is known nothing is in flight and, unless something unexpected
   happened, only the block object differs or may still change; and `node_stopped` is what the history says.
   */
  ghost predicate Held(slave: Slave, n: nat, entry: Od, f: Flags)
    reads slave
  {
    && n <= Depth(slave.trace) && Cautious(n, slave.trace) && !slave.rebooting
    && (f.channelKnown ==> slave.inflight == {} && Phase(slave.trace) == Known && !Lossy(n, slave.trace))
    && (f.channelKnown && Review(n, slave.trace).expected ==>
      OnlyBlock(entry, slave.od) && forall w | w in slave.lingering :: w.obj == BLOCK_OBJECT)
    && (f.nodeStopped <==> Review(n, slave.trace).power == Stopped)
    && (!f.channelKnown ==> Lossy(n, slave.trace) || NoBarrier(n, slave.trace))
  }

  /** No aborted transfer lingers on the server either, unless something unexpected happened. */
  ghost predicate Kept(slave: Slave, n: nat, entry: Od, f: Flags)
    reads slave
  {
    && Held(slave, n, entry, f)
    && (f.channelKnown && Review(n, slave.trace).expected ==> slave.lingering == {})
  }

  ghost predicate Holding(slave: Slave, payload: seq<Byte>)
    reads slave
  {
    BLOCK_OBJECT in slave.od && slave.od[BLOCK_OBJECT] == Octets(payload)
  }

  /** The notes after one transfer to a running node. */
  ghost function Transferred(notes: Notes, ok: bool, sent: Option): Notes
    requires notes.power != Stopped
  {
    notes.(doubtful := notes.doubtful + (if notes.power == Doubtful then 1 else 0), expected := notes.expected && ok,
           sent := sent)
  }

  ghost function Fetched(notes: Notes, ok: bool, payload: seq<Byte>): Notes
    requires notes.power != Stopped
  {
    Transferred(notes, ok, None).(
      saved := if ok && notes.saved.None? then Some(payload) else notes.saved,
      trips := if ok && notes.sent == Some(payload) then notes.trips + [payload] else notes.trips)
  }

  /** A block download with `updateChannelState`. */
  method Put(slave: Slave, payload: seq<Byte>, ghost n: nat, ghost entry: Od) returns (ok: bool, f: Flags)
    requires Kept(slave, n, entry, GOOD)
    modifies slave
    ensures Kept(slave, n, entry, f) && (ok ==> f == GOOD) && !f.nodeStopped
    ensures ok && BLOCK_OBJECT in entry && Review(n, slave.trace).expected ==> Holding(slave, payload)
    ensures Review(n, slave.trace) == Transferred(Review(n, old(slave.trace)), ok, if ok then Some(payload) else None)
    ensures slave.trace.Then? && slave.trace.last.Download? && (slave.trace.last.outcome == Success <==> ok)
    ensures slave.trace.last == Download(BLOCK_OBJECT, Octets(payload), slave.trace.last.outcome)
  {
    var o := slave.WriteTo(BLOCK_OBJECT, Octets(payload));
    ok, f := o == Success, Flags(o != WaitTimeout, false);
  }

  /** A block or segmented upload with `updateChannelState`. */
  method Get(slave: Slave, ghost n: nat, ghost entry: Od) returns (ok: bool, payload: seq<Byte>, f: Flags)
    requires Kept(slave, n, entry, GOOD)
    modifies slave
    ensures Kept(slave, n, entry, f) && (ok ==> f == GOOD && Holding(slave, payload)) && !f.nodeStopped
    ensures Review(n, old(slave.trace)).expected ==> slave.od == old(slave.od)
    ensures Review(n, slave.trace) == Fetched(Review(n, old(slave.trace)), ok, payload)
    ensures slave.trace.Then? && slave.trace.past == old(slave.trace)
    ensures slave.trace.last.Upload? && slave.trace.last.obj == BLOCK_OBJECT
  {
    var o;
    o, payload := slave.ReadOctets(BLOCK_OBJECT);
    ok, f := o == Success, Flags(o != WaitTimeout, false);
  }

  /** The notes after a round trip with a running node. */
  ghost predicate Tripped(before: Notes, after: Notes, ok: bool, payload: seq<Byte>) {
    && after == before.(doubtful := after.doubtful, expected := before.expected && ok, saved := after.saved,
                        sent := None, trips := if ok then before.trips + [payload] else before.trips)
    && (before.saved.Some? ==> after.saved == before.saved)
    && (if before.power == Doubtful then after.doubtful > before.doubtful else after.doubtful == before.doubtful)
  }

  /** Download and verified upload: `runBlockRoundTrip`, `runSegmentedRegression` and `restoreOriginalPayload`. */
  method PutAndVerify(slave: Slave, expected: seq<Byte>, ghost n: nat, ghost entry: Od)
    returns (ok: bool, f: Flags)
    requires Kept(slave, n, entry, GOOD)
    modifies slave
    ensures Kept(slave, n, entry, f) && (ok ==> f == GOOD && Holding(slave, expected)) && !f.nodeStopped
    ensures Tripped(Review(n, old(slave.trace)), Review(n, slave.trace), ok, expected)
    ensures Returned(slave.trace, expected)
  {
    hide Cautious, Lossy, Depth, Phase, Review;
    ok, f := Put(slave, expected, n, entry);
    if ok {
      var actual;
      ok, actual, f := Get(slave, n, entry);
      if ok {
        ok := ValidatePayload(expected, actual);
      }
    }
  }

  /** The node runs and its octets are saved. */
  ghost predicate Begun(notes: Notes) {
    notes.power == Awake && notes.saved.Some? && notes.sent.None?
  }

  /** The notes after round trips with a node that runs. */
  ghost predicate Went(before: Notes, after: Notes, ok: bool, payloads: seq<seq<Byte>>) {
    && after == before.(expected := before.expected && ok, trips := after.trips)
    && (ok ==> after.trips == before.trips + payloads)
  }

  /** `runBlockRoundTrip`. */
  method RoundTrip(slave: Slave, size: nat, seed: Word, ghost n: nat, ghost entry: Od)
    returns (ok: bool, f: Flags)
    requires Kept(slave, n, entry, GOOD) && Begun(Review(n, slave.trace))
    modifies slave
    ensures Kept(slave, n, entry, f) && (ok ==> f == GOOD && Holding(slave, Pattern(size, seed))) && !f.nodeStopped
    ensures Went(Review(n, old(slave.trace)), Review(n, slave.trace), ok, [Pattern(size, seed)])
  {
    hide Cautious, Lossy, Depth, Phase, Review, Kept, Pattern;
    var payload := MakePayload(size, seed);
    ok, f := PutAndVerify(slave, payload[..], n, entry);
  }

  /** The download to 0x1000, which has to be refused with NO_WRITE. */
  method RefusedWrite(slave: Slave, ghost n: nat, ghost entry: Od) returns (ok: bool, f: Flags)
    requires Kept(slave, n, entry, GOOD) && Begun(Review(n, slave.trace))
    modifies slave
    ensures Kept(slave, n, entry, f) && (ok ==> f == GOOD) && !f.nodeStopped
    ensures var before := Review(n, old(slave.trace));
      Review(n, slave.trace) == before.(refused := before.refused + 1, expected := before.expected && ok)
  {
    var o;
    o, ok := slave.WriteReadOnly(READ_ONLY_OBJECT, Octets(Pattern(32, PATTERN_SEED)));
    f := Flags(o != WaitTimeout, false);
  }

  /** `runIllegalAccessCase`. */
  method IllegalAccess(slave: Slave, ghost n: nat, ghost entry: Od) returns (ok: bool, f: Flags)
    requires Kept(slave, n, entry, GOOD) && Begun(Review(n, slave.trace))
    modifies slave
    ensures Kept(slave, n, entry, f) && (ok ==> f == GOOD) && !f.nodeStopped
    ensures var before := Review(n, old(slave.trace));
      Went(before.(refused := before.refused + 1), Review(n, slave.trace), ok, [FailureTrips()[0]])
  {
    hide Cautious, Lossy, Depth, Phase, Review, Kept, Pattern, XorWord;
    ok, f := RefusedWrite(slave, n, entry);
    if ok { ok, f := RoundTrip(slave, 32, XorWord(PATTERN_SEED, 0x0601_0002), n, entry); }
  }

  /** A command that resets nothing, or a confirmation, leaves the channel as it is. */
  lemma QuietStep(n: nat, before: Trace, e: Event)
    requires n <= Depth(before) && (e.Confirm? || (e.Command? && !e.Reset()))
    ensures var t := Then(before, e);
      && n <= Depth(t) && Review(n, t) == NotesAfter(Review(n, before), e)
      && (Cautious(n, t) <==> Cautious(n, before)) && (Lossy(n, t) <==> Lossy(n, before))
      && (Phase(before) == Known ==> Phase(t) == Known)
  {}

  lemma QuietSteps(n: nat, before: Trace, t: Trace)
    requires n <= Depth(before) && t.Then?
    requires if t.last.Confirm? then t.past.Then? && t.past.past == before && Resetless(t.past.last)
             else t.past == before && Resetless(t.last)
    ensures n <= Depth(t) && (Cautious(n, t) <==> Cautious(n, before)) && (Lossy(n, t) <==> Lossy(n, before))
    ensures Phase(before) == Known ==> Phase(t) == Known
    ensures Review(n, t) ==
      if t.last.Confirm? then NotesAfter(NotesAfter(Review(n, before), t.past.last), t.last)
      else NotesAfter(Review(n, before), t.last)
  {
    hide Cautious, Lossy, Phase, Depth, Review;
    if t.last.Confirm? {
      QuietStep(n, before, t.past.last);
      QuietStep(n, t.past, t.last);
    } else {
      QuietStep(n, before, t.last);
    }
  }

  ghost predicate Resetless(e: Event) { e.Command? && !e.Reset() }

  /** The notes after a STOP. */
  ghost predicate StopNotes(before: Notes, after: Notes, ok: bool) {
    && after == before.(power := after.power, stops := after.stops, unanswered := after.unanswered,
                        expected := before.expected && ok)
    && after.power == (if ok then Stopped else if after.stops == before.stops then Awake else Doubtful)
    && before.stops <= after.stops <= before.stops + 1 && (ok ==> after.stops > before.stops)
    && after.unanswered == (before.unanswered || (after.power == Doubtful && before.stops == 0))
  }

  /** STOP and its confirmation. */
  method StopNode(slave: Slave, ghost n: nat, ghost entry: Od) returns (ok: bool)
    requires Held(slave, n, entry, GOOD) && Begun(Review(n, slave.trace))
    modifies slave
    ensures Held(slave, n, entry, Flags(true, ok))
    ensures slave.lingering <= old(slave.lingering) && (ok ==> slave.halted)
    ensures StopNotes(Review(n, old(slave.trace)), Review(n, slave.trace), ok)
    ensures !ok && Review(n, slave.trace).cancelled > 0 ==> NoBarrier(n, slave.trace)
  {
    hide Cautious, Lossy, Phase, Depth, Review;
    ok := slave.IssueAndConfirm(Stop);
    QuietSteps(n, old(slave.trace), slave.trace);
  }

  /** `restorePreOperational`. Directly after a confirmed STOP it leaves nothing of an aborted transfer behind. */
  method RestorePreop(slave: Slave, f: Flags, ghost n: nat, ghost entry: Od) returns (ok: bool)
    requires Held(slave, n, entry, f) && f.nodeStopped && Review(n, slave.trace).sent.None?
    modifies slave
    ensures Held(slave, n, entry, f.(nodeStopped := !ok))
    ensures slave.lingering <= old(slave.lingering) && (ok && old(slave.halted) ==> slave.lingering == {})
    ensures var before := Review(n, old(slave.trace));
      Review(n, slave.trace) == before.(
        power := if ok then Awake else Stopped, expected := before.expected && ok)
    ensures !ok ==> PreopRefused(old(slave.trace), slave.trace)
  {
    hide Cautious, Lossy, Phase, Depth, Review;
    ok := slave.IssueAndConfirm(EnterPreop);
    assert !ok ==> PreopRefused(old(slave.trace), slave.trace);
    QuietSteps(n, old(slave.trace), slave.trace);
  }

  /** The same two steps where nothing lingers. */
  method StopKept(slave: Slave, ghost n: nat, ghost entry: Od) returns (ok: bool)
    requires Kept(slave, n, entry, GOOD) && Begun(Review(n, slave.trace))
    modifies slave
    ensures Kept(slave, n, entry, Flags(true, ok))
    ensures StopNotes(Review(n, old(slave.trace)), Review(n, slave.trace), ok)
  {
    hide Held, Review;
    ok := StopNode(slave, n, entry);
  }

  method RestoreKept(slave: Slave, f: Flags, ghost n: nat, ghost entry: Od) returns (ok: bool)
    requires Kept(slave, n, entry, f) && f.nodeStopped && Review(n, slave.trace).sent.None?
    modifies slave
    ensures Kept(slave, n, entry, f.(nodeStopped := !ok))
    ensures var before := Review(n, old(slave.trace));
      Review(n, slave.trace) == before.(
        power := if ok then Awake else Stopped, expected := before.expected && ok)
    ensures !ok ==> PreopRefused(old(slave.trace), slave.trace)
  {
    hide Held, Review;
    ok := RestorePreop(slave, f, n, entry);
  }

  /** The upload from the stopped node, which has to end in the SDO protocol timeout. */
  method Probe(slave: Slave, ghost n: nat, ghost entry: Od) returns (ok: bool, f: Flags)
    requires Kept(slave, n, entry, Flags(true, true))
    requires Review(n, slave.trace).saved.Some? && Review(n, slave.trace).sent.None?
    modifies slave
    ensures Kept(slave, n, entry, f) && f == Flags(f.channelKnown, true) && (ok ==> f.channelKnown)
    ensures var before := Review(n, old(slave.trace));
      Review(n, slave.trace) == before.(stopped := before.stopped + 1, expected := before.expected && ok)
  {
    var o, ignored := slave.ReadOctets(BLOCK_OBJECT);
    ok, f := o == SdoTimeout, Flags(o != WaitTimeout, true);
  }

  /** `runTimeoutRecoveryCase`. An unconfirmed STOP leaves both flags as they were. */
  method TimeoutRecovery(slave: Slave, ghost n: nat, ghost entry: Od) returns (ok: bool, f: Flags)
    requires Kept(slave, n, entry, GOOD) && Begun(Review(n, slave.trace))
    requires Review(n, slave.trace).stops == 0 && !Review(n, slave.trace).unanswered
    modifies slave
    ensures Kept(slave, n, entry, f) && (ok ==> f == GOOD)
    ensures f.nodeStopped ==> EndsRefused(slave.trace)
    ensures var before, after := Review(n, old(slave.trace)), Review(n, slave.trace);
      && before.stopped <= after.stopped <= before.stopped + 1
      && after == before.(power := after.power, stops := after.stops, stopped := after.stopped,
                          unanswered := after.unanswered, expected := before.expected && ok, trips := after.trips)
      && (after.unanswered <==> after.power == Doubtful) && (after.unanswered ==> f == GOOD)
      && (ok ==> after.stops == 1 && after.power == Awake && after.stopped == before.stopped + 1
                 && after.trips == before.trips + [FailureTrips()[1]])
  {
    hide Cautious, Lossy, Depth, Phase, Review, Kept, Held, Pattern, XorWord, PreopRefused;
    f := GOOD;
    ok := StopKept(slave, n, entry);
    if !ok { return; }
    var timedOut, restored;
    timedOut, f := Probe(slave, n, entry);
    restored := RestoreKept(slave, f, n, entry);
    f := f.(nodeStopped := !restored);
    ok := restored && timedOut;
    if ok { ok, f := RoundTrip(slave, 32, XorWord(PATTERN_SEED, 0x0504_0000), n, entry); }
  }

  /**
   The cancelled download, which has to end in the client's own GENERAL abort. Even then the server may go on changing
   the block object.
   */
  method CancelledWrite(slave: Slave, ghost n: nat, ghost entry: Od) returns (ok: bool, f: Flags)
    requires Kept(slave, n, entry, GOOD) && Begun(Review(n, slave.trace))
    modifies slave
    ensures Held(slave, n, entry, f) && (if ok then f == GOOD else Kept(slave, n, entry, f)) && !f.nodeStopped
    ensures var before := Review(n, old(slave.trace));
      Review(n, slave.trace) == before.(cancelled := before.cancelled + 1, expected := before.expected && ok)
  {
    hide XorWord, Pattern;
    var payload := Pattern(MAX_PAYLOAD_SIZE, XorWord(PATTERN_SEED, 0x0800_0000));
    var o;
    o, ok := slave.AbortedWrite(BLOCK_OBJECT, Octets(payload));
    f := Flags(o != WaitTimeout, false);
  }

  /**
   `synchronizeSdoServerAfterAbort`: the confirmed Stopped and Pre-operational states end what lingers of the aborted
   transfer. An unconfirmed STOP makes the channel unknown here.
   */
  method SynchronizeServer(slave: Slave, ghost n: nat, ghost entry: Od) returns (ok: bool, f: Flags)
    requires Held(slave, n, entry, GOOD) && Begun(Review(n, slave.trace))
    requires Review(n, slave.trace).stops > 0 && Review(n, slave.trace).cancelled > 0
    modifies slave
    ensures Kept(slave, n, entry, f) && (ok ==> f == GOOD && slave.lingering == {})
    ensures f.nodeStopped ==> EndsRefused(slave.trace)
    ensures var before, after := Review(n, old(slave.trace)), Review(n, slave.trace);
      && after == before.(power := after.power, stops := after.stops, expected := before.expected && ok)
      && (after.power == Doubtful ==> !f.channelKnown)
      && (ok ==> after.power == Awake && after.stops == before.stops + 1)
  {
    hide Cautious, Lossy, Depth, Phase, Review;
    ok := StopNode(slave, n, entry);
    if !ok { f := Flags(false, false); return; }
    ok := RestorePreop(slave, Flags(true, true), n, entry);
    f := Flags(true, !ok);
  }

  /** `runClientAbortCase`. */
  method ClientAbort(slave: Slave, ghost n: nat, ghost entry: Od) returns (ok: bool, f: Flags)
    requires Kept(slave, n, entry, GOOD) && Begun(Review(n, slave.trace))
    requires Review(n, slave.trace).stops > 0
    modifies slave
    ensures Kept(slave, n, entry, f) && (ok ==> f == GOOD)
    ensures f.nodeStopped ==> EndsRefused(slave.trace)
    ensures var before, after := Review(n, old(slave.trace)), Review(n, slave.trace);
      && after == before.(power := after.power, stops := after.stops, cancelled := before.cancelled + 1,
                          expected := before.expected && ok, trips := after.trips)
      && (after.power == Doubtful ==> !f.channelKnown)
      && (ok ==> after.power == Awake && after.stops == before.stops + 1
                 && after.trips == before.trips + [FailureTrips()[2]])
  {
    hide Cautious, Lossy, Depth, Phase, Review, Kept, Held, Pattern, XorWord;
    ok, f := CancelledWrite(slave, n, entry);
    if ok { ok, f := SynchronizeServer(slave, n, entry); }
    if ok { ok, f := RoundTrip(slave, MAX_PAYLOAD_SIZE, XorWord(PATTERN_SEED, 0x0800_0001), n, entry); }
  }

  /** The five functional round trips. */
  method FunctionalCases(slave: Slave, ghost n: nat, ghost entry: Od) returns (ok: bool, f: Flags)
    requires Kept(slave, n, entry, GOOD) && Begun(Review(n, slave.trace))
    modifies slave
    ensures Kept(slave, n, entry, f) && (ok ==> f == GOOD) && !f.nodeStopped
    ensures Went(Review(n, old(slave.trace)), Review(n, slave.trace), ok, FunctionalTrips(|SIZES|))
  {
    hide Cautious, Lossy, Depth, Phase, Review, Kept, Pattern, XorWord;
    ok, f := true, GOOD;
    var i := 0;
    ghost var before := Review(n, slave.trace);
    assert before.trips + [] == before.trips;
    while ok && i < |SIZES|
      invariant i <= |SIZES| && Kept(slave, n, entry, f) && (ok ==> f == GOOD) && !f.nodeStopped
      invariant Went(before, Review(n, slave.trace), ok, FunctionalTrips(i))
    {
      ghost var trips := Review(n, slave.trace).trips;
      ok, f := RoundTrip(slave, SIZES[i], XorWord(PATTERN_SEED, i + 1), n, entry);
      i := i + 1;
    }
  }

  /** `runExpeditedRegression`. */
  method Expedited(slave: Slave, ghost n: nat, ghost entry: Od) returns (ok: bool, f: Flags)
    requires Kept(slave, n, entry, GOOD) && Begun(Review(n, slave.trace))
    modifies slave
    ensures Kept(slave, n, entry, f) && (ok ==> f == GOOD) && !f.nodeStopped
    ensures Went(Review(n, old(slave.trace)), Review(n, slave.trace), ok, RegressionTrips()[..1])
  {
    hide Cautious, Lossy, Depth, Phase, Review, Kept, Pattern, XorWord, StressTrips;
    ok, f := RoundTrip(slave, 32, XorWord(PATTERN_SEED, 0x09), n, entry);
    if ok { ok, f := ReadDeviceType(slave, n, entry); }
  }

  /** The ordinary upload after it. */
  method ReadDeviceType(slave: Slave, ghost n: nat, ghost entry: Od) returns (ok: bool, f: Flags)
    requires Kept(slave, n, entry, GOOD) && Begun(Review(n, slave.trace))
    modifies slave
    ensures Kept(slave, n, entry, f) && (ok ==> f == GOOD) && !f.nodeStopped
    ensures Went(Review(n, old(slave.trace)), Review(n, slave.trace), ok, [])
  {
    var o, deviceType := slave.ReadNum(READ_ONLY_OBJECT);
    ok, f := o == Success, Flags(o != WaitTimeout, false);
    assert Review(n, slave.trace) == NotesAfter(Review(n, old(slave.trace)), slave.trace.last);
  }

  /** `runSegmentedRegression`. */
  method Segmented(slave: Slave, ghost n: nat, ghost entry: Od) returns (ok: bool, f: Flags)
    requires Kept(slave, n, entry, GOOD) && Begun(Review(n, slave.trace))
    modifies slave
    ensures Kept(slave, n, entry, f) && (ok ==> f == GOOD) && !f.nodeStopped
    ensures Went(Review(n, old(slave.trace)), Review(n, slave.trace), ok, [RegressionTrips()[1]])
  {
    hide Kept, Review, Pattern, XorWord;
    ok, f := PutAndVerify(slave, Pattern(MAX_PAYLOAD_SIZE, XorWord(PATTERN_SEED, 0x10)), n, entry);
  }

  /** `runStressCase`. */
  method Stress(slave: Slave, ghost n: nat, ghost entry: Od) returns (ok: bool, f: Flags)
    requires Kept(slave, n, entry, GOOD) && Begun(Review(n, slave.trace))
    modifies slave
    ensures Kept(slave, n, entry, f) && (ok ==> f == GOOD) && !f.nodeStopped
    ensures Went(Review(n, old(slave.trace)), Review(n, slave.trace), ok, StressTrips(STRESS_ITERATIONS))
  {
    hide Cautious, Lossy, Depth, Phase, Review, Kept, Pattern, StressSeed;
    ok, f := true, GOOD;
    var i := 0;
    ghost var before := Review(n, slave.trace);
    assert before.trips + [] == before.trips;
    while ok && i < STRESS_ITERATIONS
      invariant i <= STRESS_ITERATIONS && Kept(slave, n, entry, f) && (ok ==> f == GOOD) && !f.nodeStopped
      invariant Went(before, Review(n, slave.trace), ok, StressTrips(i))
    {
      ok, f := RoundTrip(slave, MAX_PAYLOAD_SIZE, StressSeed(i), n, entry);
      i := i + 1;
    }
  }

  // ------------------------------------------------------------------------------------------------------------
  // The process
  // ------------------------------------------------------------------------------------------------------------

  /**
   The test has been performed: every deliberate failure was provoked once, refused, cancelled and unanswered by the
   stopped node, and every payload of every case went there and came back, the saved octets last.
   */
  ghost predicate Complete(notes: Notes) {
    && notes.refused == 1 && notes.cancelled == 1 && notes.stopped == 1 && notes.stops == 2
    && notes.saved.Some?
    && notes.trips == FunctionalTrips(|SIZES|) + FailureTrips() + RegressionTrips() + [notes.saved.octets]
  }

  /** The notes after the cases, before the octets are sent back. */
  ghost predicate Tested(after: Notes, f: Flags, ok: bool) {
    && after.saved.Some? && after.sent.None? && after.stopped <= 1 && after.doubtful == 0 && after.expected == ok
    && (after.power == Doubtful && f.channelKnown ==> after.unanswered)
    && (after.unanswered ==> after.power == Doubtful && f == GOOD)
    && (ok ==> after.power == Awake && after.refused == after.cancelled == after.stopped == 1 && after.stops == 2)
  }

  /** The three cases that provoke failures. */
  method FailureCases(slave: Slave, ghost n: nat, ghost entry: Od) returns (ok: bool, f: Flags)
    requires Kept(slave, n, entry, GOOD) && Begun(Review(n, slave.trace))
    requires var notes := Review(n, slave.trace); notes == UNUSED.(saved := notes.saved, trips := notes.trips)
    modifies slave
    ensures Kept(slave, n, entry, f) && (ok ==> f == GOOD) && Tested(Review(n, slave.trace), f, ok)
    ensures f.nodeStopped ==> EndsRefused(slave.trace)
    ensures Review(n, slave.trace).saved == Review(n, old(slave.trace)).saved
    ensures ok ==> Review(n, slave.trace).trips == Review(n, old(slave.trace)).trips + FailureTrips()
  {
    hide Kept, Review, Pattern, XorWord;
    ok, f := IllegalAccess(slave, n, entry);
    if ok { ok, f := TimeoutRecovery(slave, n, entry); }
    if ok { ok, f := ClientAbort(slave, n, entry); }
  }

  /** The cases after them: expedited, segmented and the stability loop. */
  method RegressionCases(slave: Slave, ghost n: nat, ghost entry: Od) returns (ok: bool, f: Flags)
    requires Kept(slave, n, entry, GOOD) && Begun(Review(n, slave.trace))
    modifies slave
    ensures Kept(slave, n, entry, f) && (ok ==> f == GOOD) && !f.nodeStopped
    ensures Went(Review(n, old(slave.trace)), Review(n, slave.trace), ok, RegressionTrips())
  {
    hide Kept, Review, Pattern, XorWord, StressTrips;
    ok, f := Expedited(slave, n, entry);
    if ok { ok, f := Segmented(slave, n, entry); }
    if ok { ok, f := Stress(slave, n, entry); }
  }

  /** The cases, each only after the one before it passed. */
  method Cases(slave: Slave, ghost n: nat, ghost entry: Od) returns (ok: bool, f: Flags)
    requires Kept(slave, n, entry, GOOD)
    requires var notes := Review(n, slave.trace); notes.saved.Some? && notes == UNUSED.(saved := notes.saved)
    modifies slave
    ensures Kept(slave, n, entry, f) && (ok ==> f == GOOD) && Tested(Review(n, slave.trace), f, ok)
    ensures f.nodeStopped ==> EndsRefused(slave.trace)
    ensures Review(n, slave.trace).saved == Review(n, old(slave.trace)).saved
    ensures ok ==> Review(n, slave.trace).trips == FunctionalTrips(|SIZES|) + FailureTrips() + RegressionTrips()
  {
    hide Kept, Review, FunctionalTrips, FailureTrips, RegressionTrips;
    ok, f := FunctionalCases(slave, n, entry);
    if ok { ok, f := FailureCases(slave, n, entry); }
    if ok { ok, f := RegressionCases(slave, n, entry); }
  }

  /** The NMT state first, then the saved octets if SDO is still allowed. */
  method Cleanup(slave: Slave, original: seq<Byte>, f0: Flags, ghost n: nat, ghost entry: Od)
    returns (restored: bool, cleaned: bool, f: Flags)
    requires Kept(slave, n, entry, f0) && BLOCK_OBJECT in entry && entry[BLOCK_OBJECT] == Octets(original)
    requires Review(n, slave.trace).sent.None? && Review(n, slave.trace).saved == Some(original)
    requires f0.nodeStopped ==> EndsRefused(slave.trace)
    modifies slave
    ensures Kept(slave, n, entry, f) && (cleaned ==> f == GOOD)
    ensures Ended(n, slave.trace, original)
    ensures cleaned ==> Holding(slave, original)
    ensures cleaned && Review(n, slave.trace).expected ==> slave.od == entry
    ensures f0 == GOOD ==> restored
    ensures var before, after := Review(n, old(slave.trace)), Review(n, slave.trace);
      && after == before.(power := after.power, doubtful := after.doubtful, expected := after.expected,
                          trips := after.trips)
      && before.doubtful <= after.doubtful
      && (cleaned ==> after.trips == before.trips + [original])
      && (f0 == GOOD ==> (after.doubtful > before.doubtful <==> before.power == Doubtful))
      && (f0 != GOOD ==> after.doubtful == before.doubtful)
      && (f0 == GOOD ==> after.expected == (before.expected && cleaned))
      && (after.expected ==> before.expected)
  {
    hide Cautious, Lossy, Depth, Phase, Review;
    restored, cleaned := true, false;
    f := f0;
    if f.nodeStopped {
      restored := RestoreKept(slave, f, n, entry);
      f := f.(nodeStopped := !restored);
    }
    if f.channelKnown && !f.nodeStopped {
      cleaned, f := PutAndVerify(slave, original, n, entry);
      if cleaned && Review(n, slave.trace).expected { assert slave.od == entry; }
    }
  }

  /** The node has a payload that can be saved. */
  predicate Suitable(entry: Od) {
    BLOCK_OBJECT in entry && entry[BLOCK_OBJECT].Octets? && Fits(entry[BLOCK_OBJECT].bytes)
  }

  predicate Fits(octets: seq<Byte>) {
    0 < |octets| <= MAX_PAYLOAD_SIZE
  }

  /** The cases and the cleanup. */
  method TestAndCleanUp(slave: Slave, original: seq<Byte>, ghost n: nat, ghost entry: Od) returns (result: nat)
    requires Kept(slave, n, entry, GOOD) && BLOCK_OBJECT in entry && entry[BLOCK_OBJECT] == Octets(original)
    requires Review(n, slave.trace) == UNUSED.(saved := Some(original))
    modifies slave
    ensures exists f :: Kept(slave, n, entry, f) && (result == 0 ==> f == GOOD)
    ensures var notes := Review(n, slave.trace);
      && notes.saved == Some(original) && (result == 0 <==> notes.expected) && (result == 0 ==> Complete(notes))
      && notes.stopped <= 1 && (notes.doubtful > 0 <==> notes.unanswered)
    ensures Ended(n, slave.trace, original)
    ensures result == 0 ==> slave.od == entry
  {
    hide Kept, Review, FunctionalTrips, FailureTrips, RegressionTrips, Ended;
    var ok, f := Cases(slave, n, entry);
    ghost var trips := Review(n, slave.trace).trips;
    var restored, cleaned;
    restored, cleaned, f := Cleanup(slave, original, f, n, entry);
    result := if ok && restored && cleaned then 0 else 1;
  }

  lemma Opening(slave: Slave)
    requires slave.Usable()
    ensures Kept(slave, Depth(slave.trace), slave.od, GOOD) && Review(Depth(slave.trace), slave.trace) == UNUSED
  {
    if !slave.trace.Nothing? { assert Depth(slave.trace) <= Depth(slave.trace); }
  }

  lemma Closing(slave: Slave, n: nat, entry: Od, f: Flags)
    requires Kept(slave, n, entry, f)
    ensures Cautious(n, slave.trace)
    ensures f == GOOD && Review(n, slave.trace).expected ==> slave.Usable() && !Lossy(n, slave.trace)
  {}

  /**
   `sdoBlockProcess`. No transfer follows a lost one. The result is 0 exactly when the node was suitable and every
   event was the expected one; then the whole test has been performed and the node is as it was. Whatever the result,
   once octets that fit were saved the run ends as `Ended` says. While the node is confirmed to be stopped at most the
   one deliberate probe is sent. A node that may be stopped is addressed exactly when the first STOP of the run, the one
   of the timeout case, was sent and never confirmed.
   */
  method Process(slave: Slave) returns (result: nat)
    requires slave.Usable()
    modifies slave
    ensures Cautious(Depth(old(slave.trace)), slave.trace)
    ensures result == 0 <==> Suitable(old(slave.od)) && Review(Depth(old(slave.trace)), slave.trace).expected
    ensures result == 0 ==>
      slave.Usable() && slave.od == old(slave.od) && !Lossy(Depth(old(slave.trace)), slave.trace)
    ensures result == 0 ==> Complete(Review(Depth(old(slave.trace)), slave.trace))
    ensures var saved := Review(Depth(old(slave.trace)), slave.trace).saved;
      saved.Some? && Fits(saved.octets) ==> Ended(Depth(old(slave.trace)), slave.trace, saved.octets)
    ensures Review(Depth(old(slave.trace)), slave.trace).stopped <= 1
    ensures var notes := Review(Depth(old(slave.trace)), slave.trace); notes.doubtful > 0 <==> notes.unanswered
  {
    hide Kept, Review, Cautious, Lossy, Depth, Phase, Complete, Ended;
    ghost var n, entry := Depth(slave.trace), slave.od;
    Opening(slave);
    result := 1;
    var ok, original, f := Get(slave, n, entry);
    Closing(slave, n, entry, f);
    if !ok || original == [] || |original| > MAX_PAYLOAD_SIZE { return; }
    result := TestAndCleanUp(slave, original, n, entry);
    ghost var g :| Kept(slave, n, entry, g) && (result == 0 ==> g == GOOD);
    Closing(slave, n, entry, g);
  }
}
