/**
 `nmtMasterProcess`: the software slave checks the exact NMT command sequence a device under test sends. Lely's
 callback thread fills a ring of 16 commands that the waiting thread empties.

 A run is given by its arrivals: `arrivals[k]` are the commands published after wait `k - 1` released the mutex and
 before wait `k` reached its verdict, so every interleaving of the two threads is one such sequence.
 */
module NmtMaster {
  import opened RemoteNode

  const CAPACITY: nat := 16
  const PEER_HEARTBEAT_MS: nat := 500

  function Slot(head: nat, i: nat): nat {
    (head + i) % CAPACITY
  }

  /** The commands in a ring, oldest first. */
  ghost function Ring(slots: seq<NmtCommand>, head: nat, count: nat): (r: seq<NmtCommand>)
    requires |slots| == CAPACITY
    ensures |r| == count
  {
    seq(count, i requires 0 <= i < count => slots[Slot(head, i)])
  }

  lemma RingPush(slots: seq<NmtCommand>, head: nat, count: nat, command: NmtCommand)
    requires |slots| == CAPACITY && head < CAPACITY && count < CAPACITY
    ensures Ring(slots[Slot(head, count) := command], head, count + 1) == Ring(slots, head, count) + [command]
  {
    var pushed := slots[Slot(head, count) := command];
    forall i: nat | i < count ensures Ring(pushed, head, count + 1)[i] == Ring(slots, head, count)[i] {
      assert Slot(head, i) != Slot(head, count);
    }
    assert Ring(pushed, head, count + 1)[count] == command;
  }

  lemma SlotNext(head: nat, i: nat)
    requires head < CAPACITY
    ensures Slot(head, i + 1) == Slot(Slot(head, 1), i) && Slot(head, 0) == head
  {
    if head + 1 < CAPACITY {
      assert Slot(head, 1) == head + 1;
    } else {
      assert Slot(head, 1) == 0;
    }
  }

  lemma RingPop(slots: seq<NmtCommand>, head: nat, count: nat)
    requires |slots| == CAPACITY && head < CAPACITY && 0 < count <= CAPACITY
    ensures Ring(slots, head, count) == [slots[head]] + Ring(slots, Slot(head, 1), count - 1)
  {
    SlotNext(head, 0);
    forall i: nat | i < count - 1 ensures Slot(head, i + 1) == Slot(Slot(head, 1), i) { SlotNext(head, i); }
    var rest := Ring(slots, Slot(head, 1), count - 1);
    forall k: nat | k < count ensures Ring(slots, head, count)[k] == ([slots[head]] + rest)[k] {
      if k > 0 { SlotNext(head, k - 1); }
    }
  }

  /** The ring with its mutex-protected fields; `published` and `consumed` record one validation run. */
  class Observer {
    const queue: array<NmtCommand>
    var head: nat
    var count: nat
    var overflow: bool
    var active: bool
    ghost var published: seq<NmtCommand>
    ghost var consumed: seq<NmtCommand>

    constructor ()
      ensures Valid() && !active && fresh(queue)
    {
      queue := new NmtCommand[CAPACITY];
      head, count, overflow, active, published, consumed := 0, 0, false, false, [], [];
    }

    ghost function Queued(): seq<NmtCommand>
      requires queue.Length == CAPACITY
      reads this, queue
    {
      Ring(queue[..], head, count)
    }

    /** What was consumed and what is queued is a prefix of what was published, all of it unless one was dropped. */
    ghost predicate Valid()
      reads this, queue
    {
      && queue.Length == CAPACITY && head < CAPACITY && count <= CAPACITY
      && consumed + Queued() <= published
      && (if overflow then count == CAPACITY && |published| > CAPACITY else consumed + Queued() == published)
    }

    /** `registerNmtCommandObserver`. */
    method Register()
      requires Valid()
      modifies this
      ensures Valid() && active && !overflow && published == consumed == []
    {
      head, count, overflow, active := 0, 0, false, true;
      published, consumed := [], [];
    }

    /** `unregisterNmtCommandObserver`. */
    method Unregister()
      requires Valid()
      modifies this
      ensures Valid() && !active && count == 0
    {
      active := false;
      head, count, overflow := 0, 0, false;
      published, consumed := [], [];
    }

    /** `nmtCommandCallback`. */
    method Callback(command: NmtCommand)
      requires Valid()
      modifies this`count, this`overflow, this`published, queue
      ensures Valid() && (old(overflow) ==> overflow)
      ensures published == if active then old(published) + [command] else old(published)
    {
      if !active { return; }
      if count >= CAPACITY {
        overflow := true;
      } else {
        RingPush(queue[..], head, count, command);
        ghost var slots := queue[..];
        var tail := Slot(head, count);
        queue[tail] := command;
        assert queue[..] == slots[tail := command];
        count := count + 1;
      }
      published := published + [command];
    }

    /** The critical section both waits end in: a verdict on what has arrived. */
    method Take() returns (observed: bool, command: NmtCommand)
      requires Valid()
      modifies this`head, this`count, this`consumed
      ensures Valid()
      ensures observed <==> !overflow && |old(consumed)| < |published|
      ensures observed ==> consumed == old(consumed) + [command] && command == published[|old(consumed)|]
      ensures !observed ==> consumed == old(consumed)
    {
      observed, command := false, Start;
      if overflow || count == 0 { return; }
      RingPop(queue[..], head, count);
      observed, command := true, queue[head];
      head := Slot(head, 1);
      count := count - 1;
      consumed := consumed + [command];
    }
  }

  // ------------------------------------------------------------------------------------------------------------
  // What has to arrive, and when
  // ------------------------------------------------------------------------------------------------------------

  /** The formal sequence for a peer that stays in Pre-operational after a reset. */
  const DIRECT := [Start, Stop, EnterPreop, ResetComm, EnterPreop, ResetNode, ResetComm, EnterPreop, Start]

  /** The same for a peer that enters Operational by itself and has to be brought back each time. */
  const AUTO_START := [
    EnterPreop, Start, Stop, EnterPreop, ResetComm, EnterPreop, Start, EnterPreop, ResetNode, ResetComm, EnterPreop,
    Start, EnterPreop, Start]

  function Expected(autoStart: bool): (sequence: seq<NmtCommand>)
    ensures |sequence| == if autoStart then 14 else 9
  {
    if autoStart then AUTO_START else DIRECT
  }

  /** Everything published before the verdict of wait `k - 1`. */
  ghost function Published(arrivals: seq<seq<NmtCommand>>, k: nat): seq<NmtCommand>
    requires k <= |arrivals|
  {
    if k == 0 then [] else Published(arrivals, k - 1) + arrivals[k - 1]
  }

  /** Wait `k` finds a command that no earlier wait consumed. */
  ghost predicate InTime(arrivals: seq<seq<NmtCommand>>, k: nat) {
    k < |arrivals| && k < |Published(arrivals, k + 1)|
  }

  /** Each wait finds its command in time, and until the end of the final window nothing else was published. */
  ghost predicate Accepts(arrivals: seq<seq<NmtCommand>>, expected: seq<NmtCommand>) {
    && |expected| < |arrivals|
    && (forall k: nat | k < |expected| :: InTime(arrivals, k))
    && Published(arrivals, |expected| + 1) == expected
  }

  lemma {:induction false} PublishedGrows(arrivals: seq<seq<NmtCommand>>, i: nat, j: nat)
    requires i <= j <= |arrivals|
    ensures Published(arrivals, i) <= Published(arrivals, j)
  {
    if i < j { PublishedGrows(arrivals, i, j - 1); }
  }

  /** Each command while it is awaited, and silence in the final window. */
  function Punctual(expected: seq<NmtCommand>): (arrivals: seq<seq<NmtCommand>>)
    ensures |arrivals| == |expected| + 1
  {
    seq(|expected|, i requires 0 <= i < |expected| => [expected[i]]) + [[]]
  }

  lemma {:induction false} PublishedPunctual(expected: seq<NmtCommand>, k: nat)
    requires k <= |expected|
    ensures Published(Punctual(expected), k) == expected[..k]
  {
    if k > 0 {
      PublishedPunctual(expected, k - 1);
      assert expected[..k] == expected[..k - 1] + [expected[k - 1]];
    }
  }

  /** A punctual sequence is accepted. */
  lemma PunctualAccepted(expected: seq<NmtCommand>)
    ensures Accepts(Punctual(expected), expected)
  {
    forall k: nat | k < |expected| ensures InTime(Punctual(expected), k) { PublishedPunctual(expected, k + 1); }
    PublishedPunctual(expected, |expected|);
    assert expected[..|expected|] == expected;
  }

  // ------------------------------------------------------------------------------------------------------------
  // The process
  // ------------------------------------------------------------------------------------------------------------

  /** The read of 0x1F80. */
  datatype Startup = Stored(value: nat) | NoObject | Unreadable

  /** The software slave's own object dictionary; `flawed` once an access to it failed. */
  class Peer {
    const startup: Startup
    var heartbeat: nat
    ghost var flawed: bool

    constructor (startup: Startup)
      ensures this.startup == startup && !flawed
    {
      this.startup, heartbeat, flawed := startup, 0, false;
    }

    /** Bit 2 of 0x1F80 suppresses the automatic start; without the object Lely starts the peer. */
    predicate AutoStarts()
      requires !startup.Unreadable?
    {
      startup.NoObject? || startup.value / 4 % 2 == 0
    }

    /** `configurePeerHeartbeat`. */
    method ConfigureHeartbeat() returns (ok: bool)
      modifies this
      ensures ok ==> heartbeat == PEER_HEARTBEAT_MS && flawed == old(flawed)
      ensures !ok ==> flawed
    {
      ok := *;
      if ok { heartbeat := PEER_HEARTBEAT_MS; } else { flawed := true; }
    }

    method ReadHeartbeat() returns (ok: bool, value: nat)
      modifies this`flawed
      ensures ok ==> value == heartbeat && flawed == old(flawed)
      ensures !ok ==> flawed
    {
      ok, value := *, heartbeat;
      if !ok { flawed := true; }
    }
  }

  /** The event loop runs the callbacks; Reset Communication also restores 0x1017 to its default. */
  method Deliver(observer: Observer, peer: Peer, batch: seq<NmtCommand>)
    requires observer.Valid() && observer.active
    modifies observer`count, observer`overflow, observer`published, observer.queue, peer`heartbeat
    ensures observer.Valid() && observer.published == old(observer.published) + batch
    ensures batch == [] ==> peer.heartbeat == old(peer.heartbeat)
  {
    var i := 0;
    while i < |batch|
      invariant i <= |batch| && observer.Valid()
      invariant observer.published == old(observer.published) + batch[..i]
      invariant i == 0 ==> peer.heartbeat == old(peer.heartbeat)
    {
      observer.Callback(batch[i]);
      if batch[i] == ResetComm { peer.heartbeat := *; }
      i := i + 1;
    }
  }

  /** The first `k` waits were served as expected. */
  ghost predicate Progress(observer: Observer, arrivals: seq<seq<NmtCommand>>, expected: seq<NmtCommand>, k: nat)
    reads observer, observer.queue
  {
    && observer.Valid() && observer.active && !observer.overflow
    && k <= |expected| <= 14 && |expected| < |arrivals|
    && observer.consumed == expected[..k] && observer.published == Published(arrivals, k)
    && forall j: nat | j < k :: InTime(arrivals, j)
  }

  /** A wait that finds no command, another command or an overflow spoils the run. */
  lemma Spoiled(arrivals: seq<seq<NmtCommand>>, expected: seq<NmtCommand>, k: nat)
    requires k < |expected| <= 14 && |expected| < |arrivals|
    requires var seen := Published(arrivals, k + 1); |seen| <= k || seen[k] != expected[k] || |seen| > CAPACITY
    ensures !Accepts(arrivals, expected)
  {
    PublishedGrows(arrivals, k + 1, |expected| + 1);
    assert |Published(arrivals, k + 1)| <= k ==> !InTime(arrivals, k);
  }

  /** `waitForNmtMasterStep`, as wait number `k`. */
  method Step(observer: Observer, peer: Peer, arrivals: seq<seq<NmtCommand>>, k: nat, command: NmtCommand,
              restoreHeartbeat: bool, ghost expected: seq<NmtCommand>) returns (ok: bool)
    requires Progress(observer, arrivals, expected, k) && k < |expected| && expected[k] == command && !peer.flawed
    modifies observer, observer.queue, peer
    ensures observer.Valid()
    ensures ok ==> Progress(observer, arrivals, expected, k + 1) && !peer.flawed
    ensures !ok ==> peer.flawed || !Accepts(arrivals, expected)
  {
    Deliver(observer, peer, arrivals[k]);
    var actual;
    ok, actual := observer.Take();
    ok := ok && actual == command;
    if !ok { Spoiled(arrivals, expected, k); return; }
    if restoreHeartbeat { ok := peer.ConfigureHeartbeat(); }
  }

  /** `keepPeerAliveForFinalHeartbeat`: one more window, in which nothing may arrive. */
  method FinalWindow(observer: Observer, peer: Peer, arrivals: seq<seq<NmtCommand>>, k: nat,
                     ghost expected: seq<NmtCommand>) returns (ok: bool)
    requires Progress(observer, arrivals, expected, k) && k == |expected| && !peer.flawed
    modifies observer, observer.queue, peer
    ensures observer.Valid()
    ensures ok ==> Accepts(arrivals, expected) && !peer.flawed && peer.heartbeat == PEER_HEARTBEAT_MS
    ensures !ok ==> peer.flawed || !Accepts(arrivals, expected)
  {
    ok := peer.ConfigureHeartbeat();
    if !ok { return; }
    Deliver(observer, peer, arrivals[k]);
    if observer.overflow { return false; }
    var observed, command := observer.Take();
    if observed { return false; }
    assert |Published(arrivals, k + 1)| <= k;
    assert arrivals[k] == [];
    var value;
    ok, value := peer.ReadHeartbeat();
    ok := ok && value == PEER_HEARTBEAT_MS;
  }

  /** Fixture START and the PREOP that answers it, where the peer starts by itself. */
  method Fixture(observer: Observer, peer: Peer, arrivals: seq<seq<NmtCommand>>, k0: nat, autoStart: bool,
                 ghost expected: seq<NmtCommand>) returns (ok: bool, k: nat)
    requires Progress(observer, arrivals, expected, k0) && !peer.flawed
    requires autoStart ==> k0 + 2 <= |expected| && expected[k0] == Start && expected[k0 + 1] == EnterPreop
    modifies observer, observer.queue, peer
    ensures observer.Valid() && k == (if autoStart then k0 + 2 else k0)
    ensures ok ==> Progress(observer, arrivals, expected, k) && !peer.flawed
    ensures !ok ==> peer.flawed || !Accepts(arrivals, expected)
  {
    hide Accepts, Published;
    ok, k := true, if autoStart then k0 + 2 else k0;
    if autoStart {
      ok := Step(observer, peer, arrivals, k0, Start, false, expected);
      if ok { ok := Step(observer, peer, arrivals, k0 + 1, EnterPreop, false, expected); }
    }
  }

  /** `enterPreOperational` and the formal START, which is the first command of a peer that is not started already. */
  method ReachFormalStart(observer: Observer, peer: Peer, arrivals: seq<seq<NmtCommand>>, autoStart: bool)
    returns (ok: bool, k: nat)
    requires Progress(observer, arrivals, Expected(autoStart), 0) && !peer.flawed
    modifies observer, observer.queue, peer
    ensures observer.Valid() && k == (if autoStart then 2 else 1)
    ensures ok ==> Progress(observer, arrivals, Expected(autoStart), k) && !peer.flawed
    ensures !ok ==> peer.flawed || !Accepts(arrivals, Expected(autoStart))
  {
    hide Accepts, Progress, Published;
    ghost var expected := Expected(autoStart);
    ok := Step(observer, peer, arrivals, 0, if autoStart then EnterPreop else Start, false, expected);
    k := 1;
    if autoStart {
      k := 2;
      if ok { ok := Step(observer, peer, arrivals, 1, Start, false, expected); }
    }
  }

  /** The formal commands up to the end of Reset Communication. */
  method FirstHalf(observer: Observer, peer: Peer, arrivals: seq<seq<NmtCommand>>, autoStart: bool)
    returns (ok: bool, k: nat)
    requires Progress(observer, arrivals, Expected(autoStart), 0) && !peer.flawed
    modifies observer, observer.queue, peer
    ensures observer.Valid() && k == (if autoStart then 6 else 5)
    ensures ok ==> Progress(observer, arrivals, Expected(autoStart), k) && !peer.flawed
    ensures !ok ==> peer.flawed || !Accepts(arrivals, Expected(autoStart))
  {
    hide Accepts, Progress, Published;
    ghost var expected := Expected(autoStart);
    ok, k := ReachFormalStart(observer, peer, arrivals, autoStart);
    if ok { ok := Step(observer, peer, arrivals, k, Stop, false, expected); }
    if ok { ok := Step(observer, peer, arrivals, k + 1, EnterPreop, false, expected); }
    if ok { ok := Step(observer, peer, arrivals, k + 2, ResetComm, false, expected); }
    if ok { ok := Step(observer, peer, arrivals, k + 3, EnterPreop, true, expected); }
    k := k + 4;
  }

  /** Reset Node, its two resets and the final START with its window. */
  method SecondHalf(observer: Observer, peer: Peer, arrivals: seq<seq<NmtCommand>>, k0: nat, autoStart: bool)
    returns (ok: bool)
    requires k0 == (if autoStart then 6 else 5)
    requires Progress(observer, arrivals, Expected(autoStart), k0) && !peer.flawed
    modifies observer, observer.queue, peer
    ensures observer.Valid()
    ensures ok ==> Accepts(arrivals, Expected(autoStart)) && !peer.flawed && peer.heartbeat == PEER_HEARTBEAT_MS
    ensures !ok ==> peer.flawed || !Accepts(arrivals, Expected(autoStart))
  {
    hide Accepts, Progress, Published;
    ghost var expected := Expected(autoStart);
    var k := k0;
    ok, k := Fixture(observer, peer, arrivals, k, autoStart, expected);
    if ok { ok := Step(observer, peer, arrivals, k, ResetNode, false, expected); }
    if ok { ok := Step(observer, peer, arrivals, k + 1, ResetComm, false, expected); }
    if ok { ok := Step(observer, peer, arrivals, k + 2, EnterPreop, true, expected); }
    if ok { ok, k := Fixture(observer, peer, arrivals, k + 3, autoStart, expected); }
    if ok { ok := Step(observer, peer, arrivals, k, Start, false, expected); }
    if ok { ok := FinalWindow(observer, peer, arrivals, k + 1, expected); }
  }

  /**
   `nmtMasterProcess`. The result is 0 exactly when the local object dictionary could be used throughout and the
   commands published until the end of the final window are the expected list, each in time for its wait.
   */
  method Process(observer: Observer, peer: Peer, arrivals: seq<seq<NmtCommand>>) returns (result: nat)
    requires observer.Valid() && !peer.flawed && |arrivals| >= 15
    modifies observer, observer.queue, peer
    ensures observer.Valid() && !observer.active && observer.count == 0
    ensures result == 0 <==>
      !peer.startup.Unreadable? && !peer.flawed && Accepts(arrivals, Expected(peer.AutoStarts()))
    ensures result == 0 ==> peer.heartbeat == PEER_HEARTBEAT_MS
  {
    result := 1;
    observer.Register();
    if !peer.startup.Unreadable? {
      var ok := peer.ConfigureHeartbeat();
      if ok {
        var k;
        ok, k := FirstHalf(observer, peer, arrivals, peer.AutoStarts());
        if ok { ok := SecondHalf(observer, peer, arrivals, k, peer.AutoStarts()); }
        if ok { result := 0; }
      }
    }
    observer.Unregister();
  }
}
