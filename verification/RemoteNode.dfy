/**
 The environment every SDO process runs against: one remote CANopen node reached through Lely.

 The node is adversarial. Every remote call may end in any of the four results of `SdoOperationResult`, and a
 download whose completion was never observed stays in flight: it may land at any later step. Reset Communication
 puts the node into an arbitrary configuration until a fresh Boot is observed, and only that Boot proves that no
 earlier download can still land. Between transactions the node keeps its object dictionary otherwise.
 */
module RemoteNode {
  import opened Bits

  /** Object dictionary address. */
  datatype Obj = Obj(index: nat, sub: nat)

  /** A dictionary value: a scalar of at most 32 bits, or the octets of a DOMAIN. */
  datatype Value = Num(n: nat) | Octets(bytes: seq<Byte>)

  /** The configuration objects of the node: those it does not change by itself. */
  type Od = map<Obj, Value>

  /** `SdoOperationResult`. WaitTimeout alone leaves the transaction undecided. */
  datatype Outcome = Success | Failed | SdoTimeout | WaitTimeout

  datatype NmtCommand = Start | Stop | EnterPreop | ResetNode | ResetComm

  /** A download that may have been accepted by the node. */
  datatype Write = Write(obj: Obj, value: Value)

  /**
   What the host does to, or learns from, the node. An upload records the answer it returned, a command the node it
   acts on.
   */
  datatype Event =
    | Upload(obj: Obj, outcome: Outcome, answer: Value)
    | Download(obj: Obj, value: Value, outcome: Outcome)
    | Refusable(obj: Obj, value: Value, outcome: Outcome, noWrite: bool)
    | Cancelled(obj: Obj, value: Value, outcome: Outcome, general: bool)
    | Pdo(obj: Obj, value: Value, sent: bool)
    | PrepareBoot
    | Command(cmd: NmtCommand, toSlave: bool, accepted: bool, od: Od, settled: bool)
    | Confirm(state: NmtCommand, observed: bool)
    | Boot(observed: bool)
  {
    predicate Sdo() { Upload? || Download? || Refusable? || Cancelled? }

    predicate Lost() { Sdo() && outcome == WaitTimeout }

    predicate Reset() { Command? && toSlave && accepted && (cmd == ResetComm || cmd == ResetNode) }

    predicate SlaveStart() { Command? && toSlave && cmd == Start }
  }

  /** A history, newest event outermost. */
  datatype Trace = Nothing | Then(past: Trace, last: Event)

  ghost function Depth(t: Trace): nat {
    match t
    case Nothing => 0
    case Then(past, _) => Depth(past) + 1
  }

  /** What the history proves about the SDO channel. */
  datatype Channel = Known | Unknown | ResetSent | Booted

  /** A Boot wait was prepared and no Boot has been consumed since, so the next Boot is not a stale one. */
  ghost predicate Armed(t: Trace) {
    match t
    case Nothing => false
    case Then(past, e) => e.PrepareBoot? || (!e.Boot? && Armed(past))
  }

  ghost function Phase(t: Trace): Channel {
    match t
    case Nothing => Known
    case Then(past, e) =>
      if e.Lost() then Unknown
      else if e.Reset() then (if Armed(past) then ResetSent else Unknown)
      else if e.Boot? && e.observed && Phase(past) == ResetSent then Booted
      else if e == Confirm(EnterPreop, true) && Phase(past) == Booted then Known
      else Phase(past)
  }

  ghost function At(t: Trace, i: nat): Event
    requires i < Depth(t)
  {
    if i == Depth(t) - 1 then t.last else At(t.past, i)
  }

  ghost function Prefix(t: Trace, i: nat): (p: Trace)
    requires i <= Depth(t)
    ensures Depth(p) == i
  {
    if i == Depth(t) then t else Prefix(t.past, i)
  }

  lemma {:induction false} AtPrefix(t: Trace, j: nat, i: nat)
    requires i < j <= Depth(t)
    ensures At(Prefix(t, j), i) == At(t, i)
  {
    if j < Depth(t) { AtPrefix(t.past, j, i); }
  }

  /** A transfer after the first `n` events was lost. */
  ghost predicate Lossy(n: nat, t: Trace) {
    match t
    case Nothing => false
    case Then(past, e) => Depth(t) > n && (e.Lost() || Lossy(n, past))
  }

  /** After the first `n` events no transfer follows a lost one, whatever else happens. */
  ghost predicate Cautious(n: nat, t: Trace) {
    match t
    case Nothing => true
    case Then(past, e) => Depth(t) <= n || (Cautious(n, past) && (e.Sdo() ==> !Lossy(n, past)))
  }

  lemma {:induction false} LossyAt(n: nat, t: Trace, i: nat)
    requires n <= i < Depth(t) && At(t, i).Lost()
    ensures Lossy(n, t)
  {
    if i < Depth(t) - 1 { LossyAt(n, t.past, i); }
  }

  /** The run of a cautious process never transfers again once a transfer was lost. */
  lemma {:induction false} NeverAgain(n: nat, t: Trace, i: nat, j: nat)
    requires Cautious(n, t) && n <= i < j < Depth(t) && At(t, i).Lost()
    ensures !At(t, j).Sdo()
  {
    if j == Depth(t) - 1 {
      LossyAt(n, t.past, i);
    } else {
      NeverAgain(n, t.past, i, j);
    }
  }

  /** Position `r` resets the node, `b` is a Boot and `p` the confirmed Pre-operational state. */
  ghost predicate Boundary(t: Trace, r: nat, b: nat, p: nat)
    requires r < Depth(t) && b < Depth(t) && p < Depth(t)
  {
    At(t, r).Reset() && At(t, b) == Boot(true) && At(t, p) == Confirm(EnterPreop, true)
  }

  /** A fresh Boot after a reset has been seen, both after position `i`. */
  lemma {:induction false} BootedAfterLoss(t: Trace, i: nat) returns (r: nat, b: nat)
    requires i < Depth(t) && At(t, i).Lost()
    requires Phase(t) == ResetSent || Phase(t) == Booted
    ensures i < r < Depth(t) && At(t, r).Reset()
    ensures Phase(t) == Booted ==> r < b < Depth(t) && At(t, b) == Boot(true)
  {
    r, b := 0, 0;
    if t.last.Reset() {
      r := Depth(t) - 1;
    } else {
      assert i < Depth(t) - 1;
      r, b := BootedAfterLoss(t.past, i);
      if Phase(t) == Booted && Phase(t.past) == ResetSent { b := Depth(t) - 1; }
    }
  }

  /** After a lost transfer the channel is known again only behind a reset, its Boot and a confirmed state. */
  lemma {:induction false} ReopenedAfterLoss(t: Trace, i: nat) returns (r: nat, b: nat, p: nat)
    requires i < Depth(t) && At(t, i).Lost() && Phase(t) == Known
    ensures i < r < b < p < Depth(t)
    ensures At(t, r).Reset() && At(t, b) == Boot(true) && At(t, p) == Confirm(EnterPreop, true)
  {
    assert i < Depth(t) - 1;
    if Phase(t.past) == Known {
      r, b, p := ReopenedAfterLoss(t.past, i);
    } else {
      r, b := BootedAfterLoss(t.past, i);
      p := Depth(t) - 1;
    }
  }

  // What a Communication Reset adds to a history.

  ghost predicate ResetSaid(before: Trace, t: Trace, accepted: bool) {
    && t.Then? && t.past == Then(before, PrepareBoot)
    && t.last.Command? && t.last.cmd == ResetComm && t.last.toSlave && t.last.accepted == accepted
  }

  /** The reset was accepted, and its Boot was seen or missed. */
  ghost predicate BootSaid(before: Trace, t: Trace, observed: bool) {
    t.Then? && t.last == Boot(observed) && ResetSaid(before, t.past, true)
  }

  ghost predicate ResetFailed(before: Trace, t: Trace) {
    ResetSaid(before, t, false) || BootSaid(before, t, false)
  }

  /** Since `before` there have been uploads only. */
  ghost predicate OnlyUploads(before: Trace, t: Trace) {
    t == before || (t.Then? && t.last.Upload? && OnlyUploads(before, t.past))
  }

  /** The history ends with uploads of which one failed, or did not show what was there at `entry`. */
  ghost predicate Deviates(t: Trace, entry: Od) {
    && t.Then? && t.last.Upload?
    && (|| t.last.outcome != Success || t.last.obj !in entry || t.last.answer != entry[t.last.obj]
        || Deviates(t.past, entry))
  }

  /** The downloads in `fl` may or may not have landed on the way from `before` to `after`. */
  predicate MayLand(before: Od, fl: set<Write>, after: Od) {
    && after.Keys == before.Keys
    && forall k | k in before :: after[k] == before[k] || Write(k, after[k]) in fl
  }

  /** The same while time passes: what lands is no longer in flight. A rebooting node may hold anything. */
  predicate Drifts(before: Od, fl: set<Write>, rebooting: bool, after: Od, left: set<Write>) {
    && left <= fl
    && (rebooting ||
        (&& after.Keys == before.Keys
         && forall k | k in before :: after[k] == before[k] || Write(k, after[k]) in fl - left))
  }

  class Slave {
    var od: Od
    /** Downloads whose end was never observed. */
    var inflight: set<Write>
    /** What the server may still do about transfers that the client aborted. */
    var lingering: set<Write>
    var rebooting: bool
    /** The node has confirmed Stopped, where it serves no SDO, and not left it since. */
    var halted: bool
    ghost var trace: Trace

    constructor (od: Od)
      ensures this.od == od && Settled() && trace == Nothing
    {
      this.od := od;
      inflight, lingering := {}, {};
      rebooting, halted := false, false;
      trace := Nothing;
    }

    /** Everything that may still change the node. */
    function Pending(): set<Write> reads this {
      inflight + lingering
    }

    /** No earlier download can still change the node. */
    predicate Settled() reads this {
      inflight == {} && lingering == {} && !rebooting
    }

    /** The node may be addressed by SDO and what is read stays true. */
    ghost predicate Usable() reads this {
      Settled() && Phase(trace) == Known
    }

    /** Let pending downloads land, or a reboot proceed. */
    method Drift()
      modifies this`od, this`inflight, this`lingering
      ensures Drifts(old(od), old(Pending()), rebooting, od, Pending())
      ensures inflight <= old(inflight) && lingering <= old(lingering)
      ensures old(Settled()) ==> od == old(od)
    {
      var next: Od, left: set<Write> := *, *;
      if Drifts(od, Pending(), rebooting, next, left) {
        if !rebooting && Pending() == {} { assert next == od; }
        assert inflight * left + lingering * left == left;
        od, inflight, lingering := next, inflight * left, lingering * left;
      }
    }

    /** `readRemoteSdo` of a scalar: the value is returned only on success. */
    method ReadNum(obj: Obj) returns (outcome: Outcome, n: nat)
      modifies this
      ensures trace == Then(old(trace), Upload(obj, outcome, Num(n)))
      ensures rebooting == old(rebooting) && inflight <= old(inflight) && lingering <= old(lingering)
      ensures Drifts(old(od), old(Pending()), old(rebooting), od, Pending())
      ensures old(Settled()) ==> od == old(od)
      ensures outcome == Success ==> obj in od && od[obj] == Num(n)
    {
      Drift();
      outcome, n := *, *;
      if outcome == Success {
        if obj in od && od[obj].Num? { n := od[obj].n; } else { outcome := Failed; }
      }
      trace := Then(trace, Upload(obj, outcome, Num(n)));
    }

    /** `readRemoteSdo` of an object the node changes by itself: only the history knows the answer. */
    method ReadVolatile(obj: Obj) returns (outcome: Outcome, n: nat)
      modifies this
      ensures trace == Then(old(trace), Upload(obj, outcome, Num(n)))
      ensures rebooting == old(rebooting) && inflight <= old(inflight) && lingering <= old(lingering)
      ensures Drifts(old(od), old(Pending()), old(rebooting), od, Pending())
      ensures old(Settled()) ==> od == old(od)
    {
      Drift();
      outcome, n := *, *;
      trace := Then(trace, Upload(obj, outcome, Num(n)));
    }

    /** `readRemoteSdo` or `readRemoteBlockSdo` of a DOMAIN. */
    method ReadOctets(obj: Obj) returns (outcome: Outcome, bytes: seq<Byte>)
      modifies this
      ensures trace == Then(old(trace), Upload(obj, outcome, Octets(bytes)))
      ensures rebooting == old(rebooting) && inflight <= old(inflight) && lingering <= old(lingering)
      ensures Drifts(old(od), old(Pending()), old(rebooting), od, Pending())
      ensures old(Settled()) ==> od == old(od)
      ensures outcome == Success ==> obj in od && od[obj] == Octets(bytes)
    {
      Drift();
      outcome, bytes := *, *;
      if outcome == Success {
        if obj in od && od[obj].Octets? { bytes := od[obj].bytes; } else { outcome := Failed; }
      }
      trace := Then(trace, Upload(obj, outcome, Octets(bytes)));
    }

    /** `writeRemoteSdo`: a failed or timed-out download may still have been accepted. */
    method WriteTo(obj: Obj, value: Value) returns (outcome: Outcome)
      modifies this
      ensures trace == Then(old(trace), Download(obj, value, outcome))
      ensures rebooting == old(rebooting) && inflight <= old(inflight) + {Write(obj, value)}
      ensures outcome != WaitTimeout ==> inflight <= old(inflight)
      ensures lingering <= old(lingering)
      ensures old(rebooting) || MayLand(old(od), old(Pending()) + {Write(obj, value)}, od)
      ensures outcome == Success ==> obj in old(od).Keys || old(rebooting)
      ensures outcome == Success && obj in old(od) && old(Settled()) ==> od == old(od)[obj := value]
    {
      Drift();
      outcome := *;
      if outcome == Success && obj !in od { outcome := Failed; }
      var accepted: bool := *;
      if obj in od && (accepted || outcome == Success) { od := od[obj := value]; }
      if outcome == WaitTimeout { inflight := inflight + {Write(obj, value)}; }
      trace := Then(trace, Download(obj, value, outcome));
    }

    /** A download that should be refused: the abort code NO_WRITE proves that nothing was written. */
    method WriteReadOnly(obj: Obj, value: Value) returns (outcome: Outcome, noWrite: bool)
      modifies this
      ensures trace == Then(old(trace), Refusable(obj, value, outcome, noWrite))
      ensures rebooting == old(rebooting) && (noWrite ==> outcome == Failed)
      ensures outcome != WaitTimeout ==> inflight <= old(inflight)
      ensures lingering <= old(lingering)
      ensures noWrite && old(Settled()) ==> od == old(od)
    {
      Drift();
      outcome, noWrite := *, *;
      noWrite := noWrite && outcome == Failed;
      var accepted: bool := *;
      if obj in od && accepted && !noWrite { od := od[obj := value]; }
      if outcome == WaitTimeout { inflight := inflight + {Write(obj, value)}; }
      trace := Then(trace, Refusable(obj, value, outcome, noWrite));
    }

    /**
     A block download cancelled by the client, which `general` says ended in the client's own abort code. Seeing that
     end settles nothing: the object may hold any octets, and the server may go on changing it.
     */
    method AbortedWrite(obj: Obj, value: Value) returns (outcome: Outcome, general: bool)
      modifies this
      ensures trace == Then(old(trace), Cancelled(obj, value, outcome, general))
      ensures rebooting == old(rebooting) && (general ==> outcome == Failed)
      ensures outcome != WaitTimeout ==> inflight <= old(inflight)
      ensures forall w | w in lingering :: w.obj == obj || w in old(lingering)
      ensures old(Settled()) ==> od.Keys == old(od).Keys && forall k | k in od && k != obj :: od[k] == old(od)[k]
    {
      Drift();
      outcome, general := *, *;
      general := general && outcome == Failed;
      var remains: seq<Byte>, late: set<seq<Byte>> := *, *;
      if obj in od { od := od[obj := Octets(remains)]; }
      lingering := lingering + set bytes | bytes in late :: Write(obj, Octets(bytes));
      if outcome == WaitTimeout { inflight := inflight + {Write(obj, value)}; }
      trace := Then(trace, Cancelled(obj, value, outcome, general));
    }

    /** A PDO carrying one object: unconfirmed by the node, so it stays in flight until it lands. */
    method SendPdo(obj: Obj, value: Value) returns (sent: bool)
      modifies this
      ensures trace == Then(old(trace), Pdo(obj, value, sent))
      ensures rebooting == old(rebooting) && lingering <= old(lingering)
      ensures inflight <= old(inflight) + {Write(obj, value)}
      ensures Drifts(old(od), old(Pending()) + {Write(obj, value)}, rebooting, od, Pending())
    {
      inflight := inflight + {Write(obj, value)};
      assert Pending() == old(Pending()) + {Write(obj, value)};
      Drift();
      sent := *;
      trace := Then(trace, Pdo(obj, value, sent));
    }

    /** `prepareBootWait`: forget any Boot seen so far. */
    method PrepareBootWait()
      modifies this`trace
      ensures trace == Then(old(trace), PrepareBoot)
    {
      trace := Then(trace, PrepareBoot);
    }

    /** `issueNmtCommand`. A reset that was accepted leaves the node unconfigured until it boots. */
    method Issue(cmd: NmtCommand, toSlave: bool) returns (accepted: bool)
      modifies this`od, this`inflight, this`lingering, this`rebooting, this`trace
      ensures trace == Then(old(trace), Command(cmd, toSlave, accepted, old(od), old(Settled())))
      ensures rebooting == (old(rebooting) || trace.last.Reset())
      ensures inflight <= old(inflight) && lingering <= old(lingering)
      ensures Drifts(old(od), old(Pending()), rebooting, od, Pending())
      ensures old(Settled()) && !rebooting ==> od == old(od)
    {
      accepted := *;
      trace := Then(trace, Command(cmd, toSlave, accepted, od, Settled()));
      if toSlave && accepted && (cmd == ResetComm || cmd == ResetNode) { rebooting := true; }
      Drift();
    }

    /**
     `issueNmtCommandAndWaitForState`: the command, then a fresh indication of the state it leads to. A node that has
     been through a confirmed Stopped and a confirmed Pre-operational state has dropped every aborted transfer.
     */
    method IssueAndConfirm(cmd: NmtCommand) returns (ok: bool)
      requires cmd != ResetComm && cmd != ResetNode
      modifies this
      ensures !trace.Nothing? &&
        var issued := Command(cmd, true, trace.last.Confirm?, old(od), old(Settled()));
        if trace.last.Confirm? then trace == Then(Then(old(trace), issued), Confirm(cmd, ok))
        else !ok && trace == Then(old(trace), issued)
      ensures rebooting == old(rebooting) && inflight <= old(inflight) && lingering <= old(lingering)
      ensures ok && cmd == Stop ==> halted
      ensures ok && cmd == EnterPreop && old(halted) ==> lingering == {}
      ensures Drifts(old(od), old(Pending()), old(rebooting), od, Pending())
      ensures old(Settled()) ==> od == old(od)
    {
      var stopped := halted;
      ok := Issue(cmd, true);
      if ok {
        Drift();
        ok := *;
        trace := Then(trace, Confirm(cmd, ok));
        if ok && stopped && cmd == EnterPreop { lingering := {}; }
        halted := ok && cmd == Stop;
      }
    }

    /** `waitForBootCompletion`. A Boot after an armed reset ends the reboot and everything pending. */
    method WaitForBoot() returns (ok: bool)
      modifies this
      ensures trace == Then(old(trace), Boot(ok))
      ensures ok && Phase(old(trace)) == ResetSent ==> Settled()
      ensures inflight <= old(inflight) && lingering <= old(lingering)
      ensures !rebooting || old(rebooting)
      ensures old(Settled()) ==> od == old(od)
    {
      Drift();
      ok := *;
      if ok { inflight, lingering, rebooting, halted := {}, {}, false, false; }
      trace := Then(trace, Boot(ok));
    }
  }
}
