/**
 SRDO transmission as seen on the wire: pairs of a normal and an inverted frame (EN 50325-5), split off the frame
 stream by `TxPairSynchronizer`, and the two members checked against each other by `validateWirePair`.
 Deadlines are nondeterministic: any wait may end, and any loop may run out of time.
 */
module SrdoPairs {
  import opened Bits

  const RX_NORMAL_ID: nat := 0x101
  const RX_INVERTED_ID: nat := 0x102
  const TX_NORMAL_ID: nat := 0x103
  const TX_INVERTED_ID: nat := 0x104
  const PAYLOAD_LENGTH: nat := 4
  const PROBE_NORMAL: Word := 0x1234_5678
  const PROBE_INVERTED: Word := Complement(PROBE_NORMAL)

  /** The eight data bytes of a `can_msg`. */
  type Payload = d: seq<Byte> | |d| == 8 witness [0, 0, 0, 0, 0, 0, 0, 0]

  datatype Frame = Frame(id: nat, flags: nat, len: nat, data: Payload, timestamp: nat)

  predicate IsTx(f: Frame) {
    f.id == TX_NORMAL_ID || f.id == TX_INVERTED_ID
  }

  /** The TX frames of a stream, in order. */
  function TxFrames(stream: seq<Frame>): seq<Frame> {
    if stream == [] then []
    else
      var m := |stream| - 1;
      if IsTx(stream[m]) then TxFrames(stream[..m]) + [stream[m]] else TxFrames(stream[..m])
  }

  function Sent(id: nat, value: Word): Frame {
    Frame(id, 0, PAYLOAD_LENGTH, Le(value, 4) + [0, 0, 0, 0], 0)
  }

  // ------------------------------------------------------------------------------------------------------------
  // The channel
  // ------------------------------------------------------------------------------------------------------------

  datatype WaitResult = Received | Timeout | Error

  /** `SrdoWireFixture`: the frames that will arrive and how many were read, and what the host sent. */
  class Wire {
    const incoming: seq<Frame>
    var next: nat
    var sent: seq<Frame>

    constructor (incoming: seq<Frame>)
      ensures Valid() && this.incoming == incoming && next == 0 && sent == []
    {
      this.incoming, next, sent := incoming, 0, [];
    }

    predicate Valid()
      reads this
    {
      next <= |incoming|
    }

    /** The TX frames read so far. */
    ghost function Consumed(): seq<Frame>
      requires Valid()
      reads this
    {
      TxFrames(incoming[..next])
    }

    /** `sendPair`: on failure at most the normal frame went out. */
    method SendPair(normal: Word, inverted: Word) returns (ok: bool)
      modifies this`sent
      ensures ok ==> sent == old(sent) + [Sent(RX_NORMAL_ID, normal), Sent(RX_INVERTED_ID, inverted)]
      ensures !ok ==> sent == old(sent) || sent == old(sent) + [Sent(RX_NORMAL_ID, normal)]
    {
      ok := *;
      if !ok { return; }
      sent := sent + [Sent(RX_NORMAL_ID, normal)];
      ok := *;
      if !ok { return; }
      sent := sent + [Sent(RX_INVERTED_ID, inverted)];
    }

    /** `waitForAnyTxUntil`: frames with other identifiers are read and skipped. */
    method WaitForAnyTx() returns (wait: WaitResult, frame: Frame)
      requires Valid()
      modifies this`next
      ensures Valid() && old(next) <= next
      ensures wait == Received ==> IsTx(frame) && Consumed() == old(Consumed()) + [frame]
      ensures wait != Received ==> Consumed() == old(Consumed())
    {
      wait, frame := Timeout, *;
      var turns: nat := *;
      while turns > 0
        invariant Valid() && old(next) <= next && Consumed() == old(Consumed())
      {
        turns := turns - 1;
        var error: bool, nothing: bool := *, *;
        if error { return Error, frame; }
        if next == |incoming| { return; }
        if !nothing {
          assert incoming[..next + 1][..next] == incoming[..next];
          next := next + 1;
          if IsTx(incoming[next - 1]) { return Received, incoming[next - 1]; }
        }
      }
    }
  }

  // ------------------------------------------------------------------------------------------------------------
  // Pairs
  // ------------------------------------------------------------------------------------------------------------

  datatype Pair = Pair(normal: Frame, inverted: Frame)

  predicate Proper(p: Pair) {
    p.normal.id == TX_NORMAL_ID && p.inverted.id == TX_INVERTED_ID
  }

  function Flatten(pairs: seq<Pair>): seq<Frame> {
    if pairs == [] then []
    else Flatten(pairs[..|pairs| - 1]) + [pairs[|pairs| - 1].normal, pairs[|pairs| - 1].inverted]
  }

  /** How a stream of TX frames splits: an optional leading inverted frame, whole pairs, an optional open normal. */
  datatype Split = Split(lead: seq<Frame>, pairs: seq<Pair>, open: seq<Frame>)
  {
    ghost predicate Shaped() {
      && |lead| <= 1 && (lead != [] ==> lead[0].id == TX_INVERTED_ID)
      && (forall p | p in pairs :: Proper(p))
      && |open| <= 1 && (open != [] ==> open[0].id == TX_NORMAL_ID)
    }

    ghost function Frames(): seq<Frame> {
      lead + Flatten(pairs) + open
    }

    /** A frame that cannot come next: a second normal, or an inverted one that is neither expected nor the lead. */
    predicate Misplaced(f: Frame, allowLead: bool) {
      if open != [] then f.id == TX_NORMAL_ID
      else f.id == TX_INVERTED_ID && !(allowLead && lead == [] && pairs == [])
    }
  }

  lemma Discarded(f: Frame)
    requires f.id == TX_INVERTED_ID
    ensures Split([f], [], []).Shaped() && Split([f], [], []).Frames() == Split([], [], []).Frames() + [f]
  {}

  lemma Opened(s: Split, f: Frame)
    requires s.Shaped() && s.open == [] && f.id == TX_NORMAL_ID
    ensures s.(open := [f]).Shaped() && s.(open := [f]).Frames() == s.Frames() + [f]
  {}

  lemma Closed(s: Split, n: Frame, f: Frame)
    requires s.Shaped() && s.open == [n] && f.id == TX_INVERTED_ID
    ensures var t := Split(s.lead, s.pairs + [Pair(n, f)], []); t.Shaped() && t.Frames() == s.Frames() + [f]
  {
    assert (s.pairs + [Pair(n, f)])[..|s.pairs|] == s.pairs;
    assert Flatten(s.pairs + [Pair(n, f)]) == Flatten(s.pairs) + [n, f];
  }

  /** `TxPairSynchronizer`; the source never uses a synchronizer again once it returned false. */
  class Synchronizer {
    const wire: Wire
    const allowInitialResync: bool
    var synchronized: bool
    var initialResyncUsed: bool
    var expectInverted: bool
    var normal: Frame
    /** TX frames read before this synchronizer existed. */
    ghost const earlier: seq<Frame>
    ghost var split: Split
    /** An ordering fault was met: its frame belongs to no pair. */
    ghost var faulty: bool

    constructor (wire: Wire, allowInitialResync: bool)
      requires wire.Valid()
      ensures Valid() && !faulty && this.wire == wire && this.allowInitialResync == allowInitialResync
      ensures split == Split([], [], []) && earlier == wire.Consumed()
    {
      this.wire, this.allowInitialResync := wire, allowInitialResync;
      synchronized, initialResyncUsed, expectInverted, normal := false, false, false, *;
      earlier, split, faulty := wire.Consumed(), Split([], [], []), false;
    }

    /** Unless a fault was met, these frames read since creation are exactly what the split accounts for. */
    ghost predicate Accounts(read: seq<Frame>)
      reads this
    {
      && split.Shaped() && (!faulty ==> read == earlier + split.Frames())
      && (synchronized <==> split.pairs != [])
      && (split.lead != [] <==> initialResyncUsed) && (initialResyncUsed ==> allowInitialResync)
      && split.open == if expectInverted then [normal] else []
    }

    ghost predicate Valid()
      reads this, wire
    {
      wire.Valid() && Accounts(wire.Consumed())
    }

    /** A leading frame is only ever discarded before anything else was read. */
    twostate predicate KeepsLead()
      reads this
    {
      old(split.lead) != [] || old(split.pairs) != [] ==> split.lead == old(split.lead)
    }

    /** All that was read is accounted for but the last frame, which is out of order. */
    ghost predicate EndsMisplaced()
      requires wire.Valid()
      reads this, wire
    {
      exists f :: wire.Consumed() == earlier + split.Frames() + [f] && split.Misplaced(f, allowInitialResync)
    }

    /** `nextPair`: only a frame that is out of order is lost, never one to a timeout or a failed keepalive. */
    method NextPair(keepRxAlive: bool) returns (ok: bool, pair: Pair)
      requires Valid()
      modifies this, wire
      ensures Valid() && KeepsLead() && (old(faulty) ==> faulty) && (ok ==> faulty == old(faulty))
      ensures ok ==> Proper(pair) && !expectInverted
      ensures split.pairs == if ok then old(split.pairs) + [pair] else old(split.pairs)
      ensures faulty && !old(faulty) ==> EndsMisplaced()
    {
      hide Flatten, TxFrames;
      ok, pair := false, *;
      var turns: nat := *;
      while turns > 0
        invariant Valid() && KeepsLead() && !ok && faulty == old(faulty) && split.pairs == old(split.pairs)
      {
        turns := turns - 1;
        var due: bool := *;
        if keepRxAlive && due {
          var sent := wire.SendPair(PROBE_NORMAL, PROBE_INVERTED);
          if !sent { return; }
        }
        ghost var read := wire.Consumed();
        var wait, frame := wire.WaitForAnyTx();
        if wait == Error { return; }
        if wait == Timeout {
          var keepaliveReached: bool := *;
          if !(keepRxAlive && keepaliveReached) { return; }
          var sent := wire.SendPair(PROBE_NORMAL, PROBE_INVERTED);
          if !sent { return; }
        } else {
          var fault;
          ok, fault := Accept(frame, read);
          if fault {
            assert !old(faulty) ==> wire.Consumed() == earlier + split.Frames() + [frame];
            return;
          }
          if ok { pair := Pair(normal, frame); return; }
        }
      }
    }

    /** The two states' reaction to one TX frame. */
    method Accept(frame: Frame, ghost read: seq<Frame>) returns (paired: bool, fault: bool)
      requires IsTx(frame) && Accounts(read)
      modifies this
      ensures Accounts(read + [frame]) && KeepsLead() && faulty == (old(faulty) || fault) && !(paired && fault)
      ensures paired ==> normal == old(normal) && Proper(Pair(normal, frame)) && !expectInverted
      ensures split.pairs == if paired then old(split.pairs) + [Pair(normal, frame)] else old(split.pairs)
      ensures fault <==> old(split).Misplaced(frame, allowInitialResync)
      ensures fault ==> split == old(split)
    {
      hide Flatten;
      paired, fault := false, false;
      ghost var s := split;
      if !expectInverted {
        if frame.id == TX_INVERTED_ID {
          if allowInitialResync && !synchronized && !initialResyncUsed {
            initialResyncUsed := true;
            Discarded(frame);
            split := Split([frame], [], []);
          } else {
            fault, faulty := true, true;
          }
        } else {
          normal := frame;
          expectInverted := true;
          Opened(s, frame);
          split := s.(open := [frame]);
        }
      } else if frame.id == TX_NORMAL_ID {
        fault, faulty := true, true;
      } else {
        paired := true;
        Closed(s, normal, frame);
        split := Split(s.lead, s.pairs + [Pair(normal, frame)], []);
        expectInverted := false;
        synchronized := true;
      }
    }
  }

  lemma {:induction false} FlattenInjective(a: seq<Pair>, b: seq<Pair>)
    requires Flatten(a) == Flatten(b)
    ensures a == b
  {
    FlattenLength(a);
    FlattenLength(b);
    if a != [] {
      var m := |a| - 1;
      FlattenLength(a[..m]);
      FlattenLength(b[..m]);
      SameEnds(Flatten(a[..m]), [a[m].normal, a[m].inverted], Flatten(b[..m]), [b[m].normal, b[m].inverted]);
      FlattenInjective(a[..m], b[..m]);
      assert a == a[..m] + [a[m]] && b == b[..m] + [b[m]];
    }
  }

  lemma SameEnds<T>(x: seq<T>, u: seq<T>, y: seq<T>, v: seq<T>)
    requires |x| == |y| && x + u == y + v
    ensures x == y && u == v
  {
    assert x == (x + u)[..|x|] && y == (y + v)[..|x|];
    assert u == (x + u)[|x|..] && v == (y + v)[|x|..];
  }

  lemma {:induction false} FlattenLength(pairs: seq<Pair>)
    ensures |Flatten(pairs)| == 2 * |pairs|
    ensures pairs != [] ==> Flatten(pairs)[0] == pairs[0].normal
  {
    if pairs != [] {
      var m := |pairs| - 1;
      FlattenLength(pairs[..m]);
      assert m > 0 ==> Flatten(pairs)[0] == Flatten(pairs[..m])[0];
    }
  }

  lemma FirstFrame(s: Split)
    requires s.Shaped()
    ensures s.lead != [] <==> s.Frames() != [] && s.Frames()[0].id == TX_INVERTED_ID
  {
    FlattenLength(s.pairs);
    if s.lead == [] && s.pairs != [] {
      assert Proper(s.pairs[0]);
    } else if s.lead == [] {
      assert s.Frames() == s.open;
    }
  }

  /** A frame stream splits in one way only. */
  lemma SplitUnique(a: Split, b: Split)
    requires a.Shaped() && b.Shaped() && a.Frames() == b.Frames()
    ensures a == b
  {
    FirstFrame(a);
    FirstFrame(b);
    FlattenLength(a.pairs);
    FlattenLength(b.pairs);
    hide Flatten;
    var frames, n := a.Frames(), |a.lead|;
    assert |b.lead| == n && a.lead == frames[..n] && b.lead == frames[..n];
    var m := n + 2 * |a.pairs|;
    assert |a.pairs| == |b.pairs|;
    assert Flatten(a.pairs) == frames[n..m] && Flatten(b.pairs) == frames[n..m];
    assert a.open == frames[m..] && b.open == frames[m..];
    FlattenInjective(a.pairs, b.pairs);
  }

  /**
   Two synchronizers that have read the same frames without a fault have returned the same pairs, whatever deadlines
   passed in between and whether or not either of them kept the RX side alive.
   */
  lemma SameFramesSamePairs(a: Synchronizer, b: Synchronizer, frames: seq<Frame>)
    requires a.Valid() && b.Valid() && !a.faulty && !b.faulty
    requires a.wire.Consumed() == a.earlier + frames && b.wire.Consumed() == b.earlier + frames
    ensures a.split == b.split
  {
    assert a.split.Frames() == (a.earlier + frames)[|a.earlier|..] == frames;
    assert b.split.Frames() == (b.earlier + frames)[|b.earlier|..] == frames;
    SplitUnique(a.split, b.split);
  }

  // ------------------------------------------------------------------------------------------------------------
  // Payloads
  // ------------------------------------------------------------------------------------------------------------

  function Complement(value: Word): Word {
    0xFFFF_FFFF - value
  }

  /** What an SRDO producer puts on the wire for a value. */
  ghost predicate Carries(p: Pair, value: Word) {
    && Proper(p) && p.normal.flags == p.inverted.flags == 0
    && p.normal.len == p.inverted.len == PAYLOAD_LENGTH
    && p.normal.data[..4] == Le(value, 4) && p.inverted.data[..4] == Le(Complement(value), 4)
  }

  /** `decodeU32`. */
  function DecodeU32(data: Payload): nat {
    data[0] as nat + 0x100 * data[1] as nat + 0x1_0000 * data[2] as nat + 0x100_0000 * data[3] as nat
  }

  lemma Decoded(data: Payload, value: Word)
    ensures DecodeU32(data) == value <==> data[..4] == Le(value, 4)
  {
    var d := data[..4];
    assert d[1..] == [data[1], data[2], data[3]] && d[1..][1..] == [data[2], data[3]];
    assert d[1..][1..][1..] == [data[3]];
    assert FromLe([data[3]]) == data[3] && FromLe([data[2], data[3]]) == data[2] + 0x100 * FromLe([data[3]]);
    assert FromLe(d) == DecodeU32(data);
    LeOfFromLe(d);
    Pow2Word();
    FromLeOfLe(value, 4);
  }

  lemma ComplementStep(p: nat, value: nat)
    requires value < 0x100 * p
    ensures (0x100 * p - 1 - value) / 0x100 == p - 1 - value / 0x100
    ensures (0x100 * p - 1 - value) % 0x100 == 0xFF - value % 0x100
  {}

  lemma {:induction false} ComplementBytes(value: nat, n: nat)
    requires value < Pow2(8 * n)
    ensures forall i: nat | i < n :: Le(Pow2(8 * n) - 1 - value, n)[i] == 0xFF - Le(value, n)[i]
  {
    if n > 0 {
      Pow2Byte(n - 1);
      hide Pow2, Le;
      var p := Pow2(8 * (n - 1));
      var rest, other := value / 0x100, Pow2(8 * n) - 1 - value;
      ComplementStep(p, value);
      ComplementBytes(rest, n - 1);
      LeStep(value, n);
      LeStep(other, n);
      assert Le(other, n) == [0xFF - value % 0x100] + Le(p - 1 - rest, n - 1);
    }
  }

  lemma ComplementWord(value: Word)
    ensures forall i: nat | i < 4 :: Le(Complement(value), 4)[i] == 0xFF - Le(value, 4)[i]
  {
    Pow2Word();
    ComplementBytes(value, 4);
  }

  /** `validateWirePair`: exactly the pairs a producer sends for the expected value, in the right order in time. */
  method ValidateWirePair(p: Pair, expected: Word) returns (ok: bool)
    ensures ok <==> Carries(p, expected) && p.normal.timestamp <= p.inverted.timestamp
  {
    if p.normal.id != TX_NORMAL_ID || p.inverted.id != TX_INVERTED_ID || p.normal.flags != 0
      || p.inverted.flags != 0 || p.normal.len != PAYLOAD_LENGTH || p.inverted.len != PAYLOAD_LENGTH
    {
      return false;
    }
    Decoded(p.normal.data, expected);
    ComplementWord(expected);
    hide Le;
    var i := 0;
    while i < PAYLOAD_LENGTH
      invariant i <= 4 && forall j: nat | j < i :: p.inverted.data[j] == 0xFF - p.normal.data[j]
    {
      if p.inverted.data[i] != 0xFF - p.normal.data[i] {
        assert p.normal.data[..4][i] == p.normal.data[i] && p.inverted.data[..4][i] == p.inverted.data[i];
        return false;
      }
      i := i + 1;
    }
    if DecodeU32(p.normal.data) != expected { return false; }
    assert p.inverted.data[..4] == Le(Complement(expected), 4);
    if p.inverted.timestamp < p.normal.timestamp { return false; }
    ok := true;
  }
}
