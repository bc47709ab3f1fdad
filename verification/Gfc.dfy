/**
 The GFC producer of the node, driven through 0x1300 (enable) and 0x2302 (request and completion sequence). The
 node's main loop serves a pending request whenever it likes. SDO transfers are applied in the order of submission,
 but one that was given up on may still be applied later, before the next one that completes.
 */
module Gfc {
  import opened Bits

  /** A download to 0x1300 or to the producer request sequence. */
  datatype Write = Enable(valid: Byte) | Request(sequence: Word)

  /** One request the main loop has served. */
  datatype Served = Served(sequence: Word, result: int)

  /** A completed or abandoned download to 0x1300, and how many frames had been emitted by then. */
  datatype Download = Download(valid: Byte, ok: bool, quiet: bool, emitted: nat)

  // ------------------------------------------------------------------------------------------------------------
  // What time may do to the node
  // ------------------------------------------------------------------------------------------------------------

  /** Serve a pending request; apply or drop the oldest queued download. */
  datatype Turn = Serve | Apply | Drop

  datatype State = State(valid: Byte, requestSeq: Word, completeSeq: Word, queue: seq<Write>) {
    /** The producer is disabled and nothing queued can enable it. */
    ghost predicate Disabled() {
      valid == 0 && forall w | w in queue :: w.Enable? ==> w.valid == 0
    }

    /** No request is pending or can still arrive: whatever 0x1300 holds, nothing will be emitted. */
    ghost predicate Silent() {
      requestSeq == completeSeq && forall w | w in queue :: w.Enable?
    }

    function Submitted(w: Write): State {
      this.(queue := queue + [w])
    }

    function Step(turn: Turn): State {
      if turn.Serve? then this.(completeSeq := requestSeq)
      else if queue == [] then this
      else
        var rest := this.(queue := queue[1..]);
        if turn.Drop? then rest
        else if queue[0].Enable? then rest.(valid := queue[0].valid)
        else rest.(requestSeq := queue[0].sequence)
    }

    function After(turns: seq<Turn>): State
      decreases |turns|
    {
      if turns == [] then this else Step(turns[0]).After(turns[1..])
    }

    ghost predicate Reaches(later: State) {
      exists turns :: After(turns) == later
    }
  }

  lemma {:induction false} AfterConcat(s: State, a: seq<Turn>, b: seq<Turn>)
    ensures s.After(a + b) == s.After(a).After(b)
    decreases |a|
  {
    if a == [] {
      assert a + b == b;
    } else {
      AfterConcat(s.Step(a[0]), a[1..], b);
      assert (a + b)[1..] == a[1..] + b;
    }
  }

  lemma ReachesItself(s: State)
    ensures s.Reaches(s)
  {
    assert s.After([]) == s;
  }

  lemma ReachesStep(s: State, t: State, turn: Turn)
    requires s.Reaches(t)
    ensures s.Reaches(t.Step(turn))
  {
    var turns :| s.After(turns) == t;
    AfterConcat(s, turns, [turn]);
    assert t.After([turn]) == t.Step(turn).After([turn][1..]) == t.Step(turn);
  }

  lemma ReachesSteps(s: State, t: State)
    requires s.Reaches(t)
    ensures forall turn :: s.Reaches(t.Step(turn))
  {
    forall turn ensures s.Reaches(t.Step(turn)) { ReachesStep(s, t, turn); }
  }

  lemma {:induction false} StaysDisabled(s: State, turns: seq<Turn>)
    requires s.Disabled()
    ensures s.After(turns).Disabled()
    decreases |turns|
  {
    if turns != [] { StaysDisabled(s.Step(turns[0]), turns[1..]); }
  }

  /** The `k`-th queued download can be the next one applied. */
  lemma {:induction false} MayApply(s: State, k: nat) returns (turns: seq<Turn>)
    requires k < |s.queue| && s.queue[k].Enable?
    ensures s.After(turns).valid == s.queue[k].valid
    decreases k
  {
    if k == 0 {
      turns := [Apply];
      assert s.After(turns) == s.Step(Apply).After([]);
    } else {
      var rest := MayApply(s.Step(Drop), k - 1);
      turns := [Drop] + rest;
      assert turns[1..] == rest;
    }
  }

  /**
   The source reports the producer as disabled whenever settling failed. If it failed because the disabling download
   did, that is certain exactly when the producer was disabled before and no enabling download was still on its way.
   */
  lemma DisabledAfterFailure(before: State)
    ensures (forall later | before.Submitted(Enable(0)).Reaches(later) :: later.valid == 0) <==> before.Disabled()
  {
    var submitted := before.Submitted(Enable(0));
    if before.Disabled() {
      forall later | submitted.Reaches(later) ensures later.valid == 0 {
        var turns :| submitted.After(turns) == later;
        StaysDisabled(submitted, turns);
      }
    } else if before.valid != 0 {
      ReachesItself(submitted);
    } else {
      var w :| w in before.queue && w.Enable? && w.valid != 0;
      var k :| 0 <= k < |before.queue| && before.queue[k] == w;
      var turns := MayApply(submitted, k);
      assert submitted.Reaches(submitted.After(turns));
    }
  }

  // ------------------------------------------------------------------------------------------------------------
  // The node and its use
  // ------------------------------------------------------------------------------------------------------------

  class Mcu {
    var valid: Byte
    var requestSeq: Word
    var completeSeq: Word
    var producerResult: int
    /** Downloads given up on that may still be applied, oldest first. */
    var queue: seq<Write>
    ghost var served: seq<Served>
    /** GFC frames on the wire. */
    ghost var emitted: nat
    /** Every download to 0x1300, in order; `quiet` if it was submitted to a disabled and silent producer. */
    ghost var downloads: seq<Download>

    function Now(): State
      reads this
    {
      State(valid, requestSeq, completeSeq, queue)
    }

    ghost predicate Silent()
      reads this
    {
      Now().Silent()
    }

    ghost predicate Disabled()
      reads this
    {
      Now().Disabled()
    }

    /** Serve a pending request: with the producer enabled a frame may go out. */
    method Serve()
      modifies this`completeSeq, this`producerResult, this`served, this`emitted
      ensures Now() == old(Now()).Step(Turn.Serve)
      ensures old(requestSeq == completeSeq) ==> served == old(served) && producerResult == old(producerResult)
      ensures old(requestSeq != completeSeq) ==> served == old(served) + [Served(requestSeq, producerResult)]
      ensures old(emitted) <= emitted <= old(emitted) + 1
      ensures old(requestSeq == completeSeq) || valid == 0 ==> emitted == old(emitted)
    {
      if requestSeq != completeSeq {
        var sends: bool := *;
        producerResult := *;
        if sends && valid != 0 { emitted := emitted + 1; }
        completeSeq := requestSeq;
        served := served + [Served(requestSeq, producerResult)];
      }
    }

    /** Apply or drop the oldest queued download. */
    method Resolve()
      requires queue != []
      modifies this`queue, this`valid, this`requestSeq
      ensures Now() == old(Now()).Step(Apply) || Now() == old(Now()).Step(Drop)
    {
      var applied: bool := *;
      if applied {
        match queue[0]
        case Enable(v) => valid := v;
        case Request(s) => requestSeq := s;
      }
      queue := queue[1..];
    }

    /** With nothing queued the main loop at most serves the one pending request. */
    twostate predicate AtMostOneServed()
      reads this
    {
      && queue == [] && valid == old(valid) && requestSeq == old(requestSeq) && downloads == old(downloads)
      && (completeSeq == old(completeSeq) ==>
            served == old(served) && emitted == old(emitted) && producerResult == old(producerResult))
      && (completeSeq != old(completeSeq) ==>
            && completeSeq == requestSeq && served == old(served) + [Served(requestSeq, producerResult)]
            && old(emitted) <= emitted <= old(emitted) + (if valid == 0 then 0 else 1))
    }

    /** What the passing of time keeps. */
    twostate predicate Evolved()
      reads this
    {
      && downloads == old(downloads) && (forall w | w in queue :: w in old(queue))
      && (valid == old(valid) || Enable(valid) in old(queue))
      && (old(queue) == [] ==> AtMostOneServed())
      && (old(Silent()) ==> Silent() && emitted == old(emitted) && served == old(served))
      && (old(Disabled()) ==> Disabled() && emitted == old(emitted))
    }

    /** Any number of turns of the main loop, and of queued downloads arriving. */
    method Run()
      modifies this
      ensures Evolved() && old(Now()).Reaches(Now())
    {
      var turns: nat := *;
      ReachesItself(Now());
      while turns > 0
        invariant Evolved() && old(Now()).Reaches(Now())
      {
        turns := turns - 1;
        ReachesSteps(old(Now()), Now());
        var serves: bool := *;
        if serves {
          Serve();
        } else if queue != [] {
          assert queue[0] in queue;
          Resolve();
        }
      }
    }

    /** Before a transfer completes, everything submitted earlier has been resolved. */
    method Drain()
      modifies this
      ensures Evolved() && queue == []
    {
      Run();
      while queue != []
        invariant Evolved()
        decreases |queue|
      {
        assert queue[0] in queue;
        Resolve();
      }
    }

    /** `readRemote`. */
    method Read() returns (ok: bool)
      modifies this
      ensures Evolved() && (ok ==> queue == [])
    {
      ok := *;
      if ok { Drain(); } else { Run(); }
    }

    /** `writeRemote` of 0x1300: a download that failed may have been applied, or be applied later. */
    method WriteValid(v: Byte) returns (ok: bool)
      modifies this
      ensures downloads == old(downloads) + [Download(v, ok, old(Silent() && Disabled()), emitted)]
      ensures ok ==> queue == [] && valid == v
      ensures !ok ==> old(Now()).Submitted(Enable(v)).Reaches(Now())
      ensures old(Silent()) ==> Silent() && emitted == old(emitted)
      ensures v == 0 && old(Disabled()) ==> Disabled() && emitted == old(emitted)
    {
      ghost var quiet := Silent() && Disabled();
      queue := queue + [Enable(v)];
      ok := *;
      if ok {
        Drain();
        valid := v;
      } else {
        Run();
      }
      downloads := downloads + [Download(v, ok, quiet, emitted)];
    }

    /** `writeRemote` of the producer request sequence. */
    method WriteRequest(sequence: Word) returns (ok: bool)
      modifies this
      ensures ok ==> queue == [] && requestSeq == sequence
      ensures ok && old(queue) == [] && old(requestSeq == completeSeq) ==>
        valid == old(valid) && completeSeq == old(completeSeq) && served == old(served) && emitted == old(emitted)
    {
      ok := *;
      if ok {
        Drain();
        requestSeq := sequence;
      } else {
        queue := queue + [Request(sequence)];
        Run();
      }
    }

    /** `waitForProducerCompletion`. */
    method WaitForCompletion(sequence: Word) returns (ok: bool, result: int)
      requires queue == []
      modifies this
      ensures AtMostOneServed() && (ok ==> completeSeq == sequence)
      ensures ok && requestSeq == sequence ==> result == producerResult
    {
      ok, result := false, 0;
      var polls: nat := *;
      while polls > 0
        invariant AtMostOneServed() && !ok
      {
        polls := polls - 1;
        var read := Read();
        if !read { return; }
        if completeSeq == sequence {
          read := Read();
          if !read { return; }
          result := producerResult;
          read := Read();
          ok := read && completeSeq == sequence;
          return;
        }
      }
    }

    /**
     `triggerProducer` with nothing pending: on success this request, and no other, was served with the returned
     result, and at most one frame went out, none with the producer disabled.
     */
    method TriggerProducer(requestSeq0: Word) returns (ok: bool, sequence: Word, result: int)
      requires queue == [] && requestSeq == completeSeq == requestSeq0
      modifies this
      ensures sequence == (requestSeq0 + 1) % 0x1_0000_0000
      ensures ok ==>
        && queue == [] && requestSeq == completeSeq == sequence
        && served == old(served) + [Served(sequence, result)] && valid == old(valid)
        && old(emitted) <= emitted <= old(emitted) + (if valid == 0 then 0 else 1)
    {
      sequence, result := (requestSeq0 + 1) % 0x1_0000_0000, 0;
      ok := WriteRequest(sequence);
      if !ok { return; }
      label requested:
      ok, result := WaitForCompletion(sequence);
      assert AtMostOneServed@requested();
    }

    /**
     `settlePendingProducer`, from any state whatever: one download, which disables. If it succeeded, no frame has gone
     out since and the producer stays disabled, settled or not. On success moreover nothing is queued and no request is
     pending.
     */
    method Settle() returns (ok: bool)
      modifies this
      ensures |downloads| == |old(downloads)| + 1 && old(downloads) < downloads
      ensures downloads[|old(downloads)|].valid == 0
      ensures var disabling := downloads[|old(downloads)|];
        && (disabling.ok ==> Disabled() && queue == [] && emitted == disabling.emitted)
        && (ok ==> disabling.ok && requestSeq == completeSeq)
      ensures old(Disabled()) ==> Disabled() && emitted == old(emitted)
      ensures old(Silent()) ==> Silent() && emitted == old(emitted)
    {
      ok := WriteValid(0);
      if !ok { return; }
      ok := Read();
      if !ok { return; }
      var request := requestSeq;
      ok := Read();
      if !ok { return; }
      var complete := completeSeq;
      if request == complete { return; }
      var result;
      ok, result := WaitForCompletion(request);
      if !ok { return; }
      ok := Read();
      if !ok { return; }
      var confirmedRequest := requestSeq;
      ok := Read();
      if !ok { return; }
      ok := confirmedRequest == request && completeSeq == request;
    }

    /**
     The 0x1300 part of `cleanupGfcValidation`: a disabling download and, only if the producer has then been settled,
     the restoring one. The producer is enabled again only while it is disabled and silent: after a successful disabling
     download no frame of the test goes out any more, even if the restoring download is applied late. On success 0x1300
     is as saved. After a failed settling the producer stays disabled if the disabling download succeeded or if it was
     disabled before; the source reports it as disabled in any case.
     */
    method Cleanup(originalValid: Byte) returns (ok: bool)
      modifies this
      ensures |old(downloads)| < |downloads| <= |old(downloads)| + 2 && old(downloads) < downloads
      ensures var disabling := downloads[|old(downloads)|];
        && disabling.valid == 0 && (disabling.ok ==> emitted == disabling.emitted)
      ensures |downloads| == |old(downloads)| + 2 ==>
        && downloads[|old(downloads)|].ok && Silent()
        && downloads[|old(downloads)| + 1].valid == originalValid && downloads[|old(downloads)| + 1].quiet
      ensures |downloads| == |old(downloads)| + 1 && (downloads[|old(downloads)|].ok || old(Disabled())) ==> Disabled()
      ensures ok ==> |downloads| == |old(downloads)| + 2 && valid == originalValid && queue == []
    {
      ok := Settle();
      if !ok { return; }
      ok := WriteValid(originalValid);
      if !ok { return; }
      ok := Read();
      ok := ok && valid == originalValid;
    }
  }
}
