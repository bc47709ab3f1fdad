/**
 The handshake through the MCU control record 0x2303: request fields are written one by one, `request_seq` commits
 them, and the MCU publishes a terminal result under `complete_seq`. The MCU may run between any two SDO transfers.
 */
module SdoClient {
  import opened Bits

  /** `ClientRequest`. */
  datatype Request = Request(
    command: Byte, remoteNode: Byte, index: Half, subindex: Byte, payloadSize: Word, probeValue: Word, flags: Byte)

  /** The fields the MCU publishes with a completion. */
  datatype Terminal = Terminal(
    result: int, abortCode: Word, transferredSize: Word, resultValue: Word, checksum: Word)

  /** `ClientStatus`. */
  datatype Status = Status(activeSeq: Word, completeSeq: Word, terminal: Terminal)

  /** What the MCU took over, and what it made of it. */
  datatype Accepted = Accepted(sequence: Word, request: Request)
  datatype Completion = Completion(sequence: Word, request: Request, terminal: Terminal)

  /** `fields` with the field of subindex `2 + k` taken from `request`. */
  function WithField(fields: Request, request: Request, k: nat): Request
    requires k < 7
  {
    match k
    case 0 => fields.(command := request.command)
    case 1 => fields.(remoteNode := request.remoteNode)
    case 2 => fields.(index := request.index)
    case 3 => fields.(subindex := request.subindex)
    case 4 => fields.(payloadSize := request.payloadSize)
    case 5 => fields.(probeValue := request.probeValue)
    case _ => fields.(flags := request.flags)
  }

  /** The first `k` fields of the record are those of the request. */
  ghost predicate Written(fields: Request, request: Request, k: nat) {
    forall j: nat | j < k && j < 7 :: WithField(fields, request, j) == fields
  }

  lemma WrittenField(fields: Request, request: Request, k: nat)
    requires k < 7 && Written(fields, request, k)
    ensures Written(WithField(fields, request, k), request, k + 1)
  {
    forall j: nat | j < k + 1 && j < 7
      ensures WithField(WithField(fields, request, k), request, j) == WithField(fields, request, k)
    {
      if j < k { assert WithField(fields, request, j) == fields; }
    }
  }

  lemma WrittenAll(fields: Request, request: Request)
    requires Written(fields, request, 7)
    ensures fields == request
  {
    assert forall j: nat | j < 7 :: WithField(fields, request, j) == fields;
    assert WithField(fields, request, 0) == fields && WithField(fields, request, 1) == fields;
    assert WithField(fields, request, 2) == fields && WithField(fields, request, 3) == fields;
    assert WithField(fields, request, 4) == fields && WithField(fields, request, 5) == fields;
    assert WithField(fields, request, 6) == fields;
  }

  // ------------------------------------------------------------------------------------------------------------
  // The handshake
  // ------------------------------------------------------------------------------------------------------------

  /** The next download of the host, or what the MCU main loop may do. */
  datatype Move = Download | Accept | Complete

  /** What the handshake consists of; `downloads` counts those of the current transaction. */
  datatype View = View(
    downloads: nat, fields: Request, requestSeq: Word, activeSeq: Word, completeSeq: Word, latched: Request,
    accepted: seq<Accepted>)
  {
    /** Seven field downloads, then the one that commits. */
    function Put(request: Request): View {
      if downloads < 7 then this.(fields := WithField(fields, request, downloads), downloads := downloads + 1)
      else if downloads == 7 then this.(requestSeq := NextSequence(requestSeq), downloads := 8)
      else this
    }

    function Step(request: Request, move: Move): View {
      match move
      case Download => Put(request)
      case Accept =>
        if requestSeq != activeSeq == completeSeq
        then this.(activeSeq := requestSeq, latched := fields, accepted := accepted + [Accepted(requestSeq, fields)])
        else this
      case Complete => this.(completeSeq := activeSeq)
    }

    function Played(request: Request, moves: seq<Move>): View
      decreases |moves|
    {
      if moves == [] then this
      else Played(request, moves[..|moves| - 1]).Step(request, moves[|moves| - 1])
    }

    /** `runTransaction` finds the sequence it waits for, active and complete. */
    predicate Matched(request: Request, moves: seq<Move>) {
      var end := Played(request, moves);
      end.downloads == 8 && end.requestSeq == end.activeSeq == end.completeSeq
    }
  }

  /** The transaction of `request` that began at `v` has come to `w`. */
  ghost predicate Reached(v: View, request: Request, w: View) {
    exists moves :: v.Played(request, moves) == w
  }

  lemma PlayedSnoc(v: View, request: Request, moves: seq<Move>, move: Move)
    ensures v.Played(request, moves + [move]) == v.Played(request, moves).Step(request, move)
  {
    assert (moves + [move])[..|moves|] == moves;
  }

  lemma ReachedStep(v: View, request: Request, w: View, move: Move)
    requires Reached(v, request, w)
    ensures Reached(v, request, w.Step(request, move))
  {
    var moves :| v.Played(request, moves) == w;
    PlayedSnoc(v, request, moves, move);
  }

  /** The transaction so far, whatever the MCU was doing when it began. */
  lemma {:induction false} Progress(v: View, request: Request, moves: seq<Move>)
    requires v.downloads == 0
    ensures var w := v.Played(request, moves);
      && w.downloads <= 8 && v.accepted <= w.accepted
      && Written(w.fields, request, if w.downloads < 7 then w.downloads else 7)
      && w.requestSeq == (if w.downloads < 8 then v.requestSeq else NextSequence(v.requestSeq))
      && (|| w.activeSeq == v.activeSeq || w.activeSeq == v.requestSeq
          || (w.downloads == 8 && w.activeSeq == w.requestSeq && |v.accepted| < |w.accepted|
              && w.accepted[|w.accepted| - 1] == Accepted(NextSequence(v.requestSeq), request)))
      && (v.requestSeq == v.activeSeq ==>
        if w.activeSeq == v.requestSeq then w.accepted == v.accepted
        else w.accepted == v.accepted + [Accepted(NextSequence(v.requestSeq), request)])
    decreases |moves|
  {
    if moves != [] {
      var n := |moves| - 1;
      Progress(v, request, moves[..n]);
      var before := v.Played(request, moves[..n]);
      if before.downloads < 7 { WrittenField(before.fields, request, before.downloads); }
      else { WrittenAll(before.fields, request); }
    }
  }

  /** Downloads alone leave the MCU as it is. */
  lemma {:induction false} Downloads(v: View, request: Request, moves: seq<Move>, n: nat)
    ensures var before, after := v.Played(request, moves), v.Played(request, moves + seq(n, _ => Download));
      && after.activeSeq == before.activeSeq && after.completeSeq == before.completeSeq
      && after.accepted == before.accepted
      && (before.downloads + n <= 8 ==> after.downloads == before.downloads + n)
    decreases n
  {
    var all := moves + seq(n, _ => Download);
    if n == 0 {
      assert all == moves;
    } else {
      Downloads(v, request, moves, n - 1);
      assert all == moves + seq(n - 1, _ => Download) + [Download];
      PlayedSnoc(v, request, moves + seq(n - 1, _ => Download), Download);
    }
  }

  /** The awaited sequence is already the active one: the poll matches although nothing has been accepted. */
  lemma StaleMatch(v: View, request: Request) returns (moves: seq<Move>)
    requires v.downloads == 0 && v.activeSeq == NextSequence(v.requestSeq)
    ensures v.Matched(request, moves) && v.Played(request, moves).accepted == v.accepted
  {
    PlayedSnoc(v, request, [], Complete);
    moves := [] + [Complete] + seq(8, _ => Download);
    Downloads(v, request, [] + [Complete], 8);
    Progress(v, request, moves);
  }

  /** A request is pending: it may be accepted as well, with the fields found there. */
  lemma AcceptedTwice(v: View, request: Request) returns (moves: seq<Move>)
    requires v.downloads == 0 && v.requestSeq != v.activeSeq && v.activeSeq != NextSequence(v.requestSeq)
    ensures v.Matched(request, moves)
    ensures v.Played(request, moves).accepted ==
      v.accepted + [Accepted(v.requestSeq, v.fields), Accepted(NextSequence(v.requestSeq), request)]
  {
    PlayedSnoc(v, request, [], Complete);
    var early := [] + [Complete];
    PlayedSnoc(v, request, early, Accept);
    early := early + [Accept];
    PlayedSnoc(v, request, early, Complete);
    early := early + [Complete];
    var committed := early + seq(8, _ => Download);
    Downloads(v, request, early, 8);
    Progress(v, request, committed);
    WrittenAll(v.Played(request, committed).fields, request);
    PlayedSnoc(v, request, committed, Accept);
    PlayedSnoc(v, request, committed + [Accept], Complete);
    moves := committed + [Accept] + [Complete];
  }

  /** However the MCU runs, success means the request was accepted if and only if its sequence was not active yet. */
  lemma NewRequest(v: View, request: Request)
    requires v.downloads == 0
    ensures (forall moves | v.Matched(request, moves) ::
        var accepted := v.Played(request, moves).accepted;
        |v.accepted| < |accepted| && accepted[|accepted| - 1] == Accepted(NextSequence(v.requestSeq), request))
      <==> v.activeSeq != NextSequence(v.requestSeq)
  {
    if v.activeSeq == NextSequence(v.requestSeq) {
      var moves := StaleMatch(v, request);
    } else {
      forall moves | v.Matched(request, moves)
        ensures var accepted := v.Played(request, moves).accepted;
          |v.accepted| < |accepted| && accepted[|accepted| - 1] == Accepted(NextSequence(v.requestSeq), request)
      {
        Progress(v, request, moves);
      }
    }
  }

  /** And it means that nothing else was accepted if and only if no request was pending. */
  lemma OnlyThisRequest(v: View, request: Request)
    requires v.downloads == 0
    ensures (forall moves | v.Matched(request, moves) ::
        v.Played(request, moves).accepted == v.accepted + [Accepted(NextSequence(v.requestSeq), request)])
      <==> v.requestSeq == v.activeSeq
  {
    if v.requestSeq == v.activeSeq {
      forall moves | v.Matched(request, moves)
        ensures v.Played(request, moves).accepted == v.accepted + [Accepted(NextSequence(v.requestSeq), request)]
      {
        Progress(v, request, moves);
      }
    } else if v.activeSeq == NextSequence(v.requestSeq) {
      var moves := StaleMatch(v, request);
    } else {
      var moves := AcceptedTwice(v, request);
      assert |v.Played(request, moves).accepted| == |v.accepted| + 2;
    }
  }

  /**
   Two busy MCUs for which success is no proof: with sequence 6 active after request 5 nothing is accepted, and with
   request 5 pending after 4 the old request is accepted as well.
   */
  lemma SuccessWithoutProof(request: Request) returns (stale: seq<Move>, twice: seq<Move>)
    ensures var ahead := View(0, request, 5, 6, 5, request, []);
      ahead.Matched(request, stale) && ahead.Played(request, stale).accepted == []
    ensures var pending := View(0, request, 5, 4, 4, request, []);
      pending.Matched(request, twice)
      && pending.Played(request, twice).accepted == [Accepted(5, request), Accepted(6, request)]
  {
    stale := StaleMatch(View(0, request, 5, 6, 5, request, []), request);
    twice := AcceptedTwice(View(0, request, 5, 4, 4, request, []), request);
  }

  // ------------------------------------------------------------------------------------------------------------
  // The record and its use
  // ------------------------------------------------------------------------------------------------------------

  /** One transaction: what it submits, and the record and the completions when it began. */
  datatype Transit = Transit(start: View, request: Request, completed: seq<Completion>) {
    function Sequence(): Word { NextSequence(start.requestSeq) }

    /** The awaited sequence is neither active nor complete yet. */
    predicate Fresh() { start.activeSeq != Sequence() && start.completeSeq != Sequence() }

    predicate Idle() { start.requestSeq == start.activeSeq == start.completeSeq }

    function Expected(terminal: Terminal): Completion { Completion(Sequence(), request, terminal) }
  }

  /** The record and the MCU behind it. */
  class Mcu {
    var fields: Request
    var requestSeq: Word
    var activeSeq: Word
    var completeSeq: Word
    var terminal: Terminal
    /** The request being worked on, and the histories of all requests. */
    var latched: Request
    ghost var accepted: seq<Accepted>
    ghost var completed: seq<Completion>

    /** Nothing is pending. */
    ghost predicate Idle()
      reads this
    {
      requestSeq == activeSeq == completeSeq
    }

    /** How the record appears to the handshake after `n` downloads. */
    ghost function Now(n: nat): View
      reads this
    {
      View(n, fields, requestSeq, activeSeq, completeSeq, latched, accepted)
    }

    /** The awaited sequence becomes complete only by the end of the submitted request. */
    ghost predicate Awaiting(t: Transit, n: nat)
      reads this
    {
      if n < 8 then activeSeq != t.Sequence() && completeSeq != t.Sequence()
      else
        && (activeSeq == t.Sequence() ==> latched == t.request)
        && (completeSeq == t.Sequence() ==>
          && activeSeq == t.Sequence()
          && completed != [] && completed[|completed| - 1] == t.Expected(terminal))
    }

    /** Starting from an idle MCU nothing else is ever active or completed. */
    ghost predicate Alone(t: Transit, n: nat)
      reads this
    {
      && (activeSeq == t.start.requestSeq || (n == 8 && activeSeq == t.Sequence()))
      && (completeSeq == t.start.requestSeq || completeSeq == activeSeq == t.Sequence())
      && completed == (if completeSeq == t.Sequence() then t.completed + [t.Expected(terminal)] else t.completed)
    }

    /** Transaction `t` is underway, with `n` downloads made. */
    ghost predicate Underway(t: Transit, n: nat)
      reads this
    {
      && t.start.downloads == 0 && n <= 8 && Reached(t.start, t.request, Now(n))
      && requestSeq == (if n < 8 then t.start.requestSeq else t.Sequence())
      && Written(fields, t.request, if n < 7 then n else 7)
      && (t.Fresh() ==> Awaiting(t, n)) && (t.Idle() ==> Awaiting(t, n) && Alone(t, n))
    }

    /** What follows for the requests accepted so far. */
    lemma AcceptedSoFar(t: Transit, n: nat)
      requires Underway(t, n)
      ensures t.start.accepted <= accepted
      ensures activeSeq == t.Sequence() && t.start.activeSeq != t.Sequence() ==>
        |t.start.accepted| < |accepted| && accepted[|accepted| - 1] == Accepted(t.Sequence(), t.request)
      ensures t.start.requestSeq == t.start.activeSeq ==>
        accepted == if activeSeq == t.start.requestSeq then t.start.accepted
          else t.start.accepted + [Accepted(t.Sequence(), t.request)]
    {
      var moves :| t.start.Played(t.request, moves) == Now(n);
      Progress(t.start, t.request, moves);
    }

    /** The MCU main loop may accept a pending request, work on it, and publish its end. */
    method Run(ghost t: Transit, ghost n: nat)
      requires Underway(t, n)
      modifies this`activeSeq, this`completeSeq, this`terminal, this`latched, this`accepted, this`completed
      ensures Underway(t, n)
      ensures old(activeSeq) == requestSeq ==> activeSeq == requestSeq
      ensures old(activeSeq == completeSeq == requestSeq) ==> completeSeq == requestSeq && terminal == old(terminal)
    {
      hide View.Played, Written;
      var accepts: bool, completes: bool := *, *;
      if accepts && requestSeq != activeSeq && activeSeq == completeSeq {
        ReachedStep(t.start, t.request, Now(n), Accept);
        if n == 8 { WrittenAll(fields, t.request); }
        latched, activeSeq := fields, requestSeq;
        accepted := accepted + [Accepted(activeSeq, latched)];
      }
      if activeSeq != completeSeq {
        terminal := *;
        if completes {
          ReachedStep(t.start, t.request, Now(n), Complete);
          completeSeq := activeSeq;
          completed := completed + [Completion(activeSeq, latched, terminal)];
        }
      }
    }

    /** `readControl`: the transfer may fail. */
    method Transfer(ghost t: Transit, ghost n: nat) returns (ok: bool)
      requires Underway(t, n)
      modifies this`activeSeq, this`completeSeq, this`terminal, this`latched, this`accepted, this`completed
      ensures Underway(t, n)
      ensures old(activeSeq) == requestSeq ==> activeSeq == requestSeq
      ensures old(activeSeq == completeSeq == requestSeq) ==> completeSeq == requestSeq && terminal == old(terminal)
    {
      Run(t, n);
      ok := *;
    }

    /** `writeControl` of a request field: a failed transfer may still have been accepted. */
    method WriteField(k: nat, request: Request, ghost t: Transit) returns (ok: bool, ghost n: nat)
      requires Underway(t, k) && k < 7 && request == t.request
      modifies this
      ensures Underway(t, n) && n <= k + 1 && (ok ==> n == k + 1)
    {
      ok := Transfer(t, k);
      n := k;
      var landed: bool := *;
      if ok || landed {
        ReachedStep(t.start, t.request, Now(k), Download);
        WrittenField(fields, request, k);
        fields := WithField(fields, request, k);
        n := k + 1;
      }
    }

    /** `nextRequestSequence`. */
    method NextRequestSequence(ghost t: Transit) returns (ok: bool, sequence: Word)
      requires Underway(t, 0)
      modifies this`activeSeq, this`completeSeq, this`terminal, this`latched, this`accepted, this`completed
      ensures Underway(t, 0) && sequence == t.Sequence()
    {
      ok := Transfer(t, 0);
      sequence := NextSequence(requestSeq);
    }

    /** The seven field writes of `submitRequest`. */
    method WriteFields(request: Request, ghost t: Transit) returns (ok: bool, ghost n: nat)
      requires Underway(t, 0) && request == t.request
      modifies this
      ensures Underway(t, n) && n <= 7 && (ok ==> n == 7)
    {
      hide Underway;
      ok, n := WriteField(0, request, t);
      if ok { ok, n := WriteField(1, request, t); }
      if ok { ok, n := WriteField(2, request, t); }
      if ok { ok, n := WriteField(3, request, t); }
      if ok { ok, n := WriteField(4, request, t); }
      if ok { ok, n := WriteField(5, request, t); }
      if ok { ok, n := WriteField(6, request, t); }
    }

    /** `submitRequest`: the sequence commits complete fields or is not written. */
    method SubmitRequest(request: Request, sequence: Word, ghost t: Transit) returns (ok: bool, ghost n: nat)
      requires Underway(t, 0) && request == t.request && sequence == t.Sequence()
      modifies this
      ensures Underway(t, n) && (ok ==> n == 8) && (n == 8 ==> requestSeq == sequence && fields == request)
    {
      hide Reached;
      ok, n := WriteFields(request, t);
      if !ok { return; }
      ok := Transfer(t, 7);
      var landed: bool := *;
      if ok || landed {
        ReachedStep(t.start, t.request, Now(7), Download);
        requestSeq := sequence;
        WrittenAll(fields, request);
        n := 8;
      }
    }

    /** `waitSequence` on `complete_seq`. */
    method WaitComplete(sequence: Word, ghost t: Transit) returns (ok: bool)
      requires Underway(t, 8)
      modifies this`activeSeq, this`completeSeq, this`terminal, this`latched, this`accepted, this`completed
      ensures Underway(t, 8) && (ok ==> completeSeq == sequence)
    {
      hide Underway;
      ok := false;
      var polls: nat := *;
      while polls > 0
        invariant Underway(t, 8) && !ok
      {
        polls := polls - 1;
        var read := Transfer(t, 8);
        if !read { return; }
        if completeSeq == sequence { return true; }
      }
    }

    /** `waitActivePending`: unless it was active before, the request has been accepted as written. */
    method WaitActivePending(sequence: Word, ghost t: Transit) returns (ok: bool)
      requires Underway(t, 8) && sequence == t.Sequence()
      modifies this`activeSeq, this`completeSeq, this`terminal, this`latched, this`accepted, this`completed
      ensures Underway(t, 8)
      ensures ok ==> activeSeq == sequence != completeSeq
      ensures ok && t.start.activeSeq != sequence ==>
        |t.start.accepted| < |accepted| && accepted[|accepted| - 1] == Accepted(sequence, t.request)
      ensures ok && t.start.activeSeq == t.start.requestSeq ==>
        accepted == t.start.accepted + [Accepted(sequence, t.request)]
    {
      ok := false;
      var polls: nat := *;
      while polls > 0
        invariant Underway(t, 8) && !ok
      {
        polls := polls - 1;
        var read := Transfer(t, 8);
        if !read { return; }
        var active := activeSeq;
        read := Transfer(t, 8);
        if !read { return; }
        var complete := completeSeq;
        if active == sequence && complete != sequence {
          AcceptedSoFar(t, 8);
          return true;
        }
        if complete == sequence { return; }
      }
    }

    /** One attempt of `readStatus`: eight uploads, guarded by `complete_seq` before and after. */
    method ReadOnce(ghost t: Transit) returns (ok: bool, before: Word, status: Status)
      requires Underway(t, 8)
      modifies this`activeSeq, this`completeSeq, this`terminal, this`latched, this`accepted, this`completed
      ensures Underway(t, 8)
      ensures ok ==> status.completeSeq == completeSeq && (status.activeSeq == requestSeq ==> activeSeq == requestSeq)
      ensures ok && (t.Fresh() || t.Idle()) && before == requestSeq ==>
        completeSeq == requestSeq && status == Status(requestSeq, requestSeq, terminal)
    {
      hide Reached, Written;
      var active, complete, result, abortCode, size, value, sum := 0, 0, 0, 0, 0, 0, 0;
      before := 0;
      ok := Transfer(t, 8);
      if ok { before := completeSeq; ok := Transfer(t, 8); }
      if ok { active := activeSeq; ok := Transfer(t, 8); }
      if ok { result := terminal.result; ok := Transfer(t, 8); }
      if ok { abortCode := terminal.abortCode; ok := Transfer(t, 8); }
      if ok { size := terminal.transferredSize; ok := Transfer(t, 8); }
      if ok { value := terminal.resultValue; ok := Transfer(t, 8); }
      if ok { sum := terminal.checksum; ok := Transfer(t, 8); }
      if ok { complete := completeSeq; }
      status := Status(active, complete, Terminal(result, abortCode, size, value, sum));
    }

    /**
     `readStatus`: a snapshot under the awaited `complete_seq` is the published result, unless that sequence was active
     or complete before it was committed.
     */
    method ReadStatus(ghost t: Transit) returns (ok: bool, status: Status)
      requires Underway(t, 8)
      modifies this`activeSeq, this`completeSeq, this`terminal, this`latched, this`accepted, this`completed
      ensures Underway(t, 8)
      ensures ok ==> status.completeSeq == completeSeq && (status.activeSeq == requestSeq ==> activeSeq == requestSeq)
      ensures ok && (t.Fresh() || t.Idle()) && status.completeSeq == t.Sequence() ==>
        status == Status(t.Sequence(), t.Sequence(), terminal)
    {
      hide Reached, Written, Awaiting, Alone;
      ok := false;
      status := *;
      var attempt := 0;
      while attempt < 3
        invariant Underway(t, 8) && !ok
      {
        var before;
        ok, before, status := ReadOnce(t);
        if !ok { return; }
        if before == status.completeSeq { return; }
        ok := false;
        attempt := attempt + 1;
      }
    }

    /**
     `runTransaction`, whatever the MCU is doing. Success means one of the runs that `NewRequest` and `OnlyThisRequest`
     are about, after which the MCU is idle. If the awaited sequence was neither active nor complete before, this
     request, with exactly these fields, was the last one accepted and completed, and its terminal result is the
     returned status. With no request pending before, nothing or exactly this request is accepted, on failure too.
     */
    method RunTransaction(request: Request) returns (ok: bool, status: Status, sequence: Word)
      modifies this
      ensures sequence == NextSequence(old(requestSeq))
      ensures ok ==> Idle() && status.activeSeq == status.completeSeq == requestSeq == sequence
      ensures ok ==>
        exists moves | old(Now(0)).Matched(request, moves) :: Now(8) == old(Now(0)).Played(request, moves)
      ensures ok && old(activeSeq) != sequence && old(completeSeq) != sequence ==>
        && |old(accepted)| < |accepted| && accepted[|accepted| - 1] == Accepted(sequence, request)
        && completed != [] && completed[|completed| - 1] == Completion(sequence, request, status.terminal)
      ensures old(requestSeq == activeSeq) ==>
        accepted == old(accepted) + [Accepted(sequence, request)] || (!ok && accepted == old(accepted))
      ensures ok && old(Idle()) ==> completed == old(completed) + [Completion(sequence, request, status.terminal)]
    {
      status := *;
      ghost var t := Transit(Now(0), request, completed);
      assert Underway(t, 0) by { assert t.start.Played(request, []) == t.start; }
      hide Reached, Written;
      ok, sequence := NextRequestSequence(t);
      ghost var n := 0;
      if ok { ok, n := SubmitRequest(request, sequence, t); }
      if ok { ok := WaitComplete(sequence, t); }
      if ok {
        ok, status := ReadStatus(t);
        ok := ok && status.completeSeq == sequence && status.activeSeq == sequence;
      }
      AcceptedSoFar(t, n);
      if ok { MatchedBy(t); }
    }

    /** The end of a successful transaction. */
    lemma MatchedBy(t: Transit)
      requires Underway(t, 8) && Idle()
      ensures exists moves | t.start.Matched(t.request, moves) :: Now(8) == t.start.Played(t.request, moves)
    {
      var moves :| t.start.Played(t.request, moves) == Now(8);
      assert t.start.Matched(t.request, moves);
    }
  }
}
