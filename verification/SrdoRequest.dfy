/**
 `requestTxWithBusyRetry`: SRDO transmissions requested through 0x2306, repeated while CANopenNode is between the two
 members of a pair. The node serves a request whenever it likes; a deadline may pass at any poll.
 */
module SrdoRequest {
  import opened Bits
  import opened SrdoPairs

  const MAX_RETRIES: nat := 4
  const IDLE: int := -2147483648
  const BUSY: int := -15

  /** One served request. */
  datatype Served = Served(sequence: Word, result: int)

  function Next(sequence: Word): Word {
    (sequence + 1) % 0x1_0000_0000
  }

  /** The sequence number `n` requests later. */
  function After(sequence: Word, n: nat): Word {
    (sequence + n) % 0x1_0000_0000
  }

  lemma AfterNext(sequence: Word, n: nat)
    ensures Next(After(sequence, n)) == After(sequence, n + 1) != After(sequence, n)
    ensures After(sequence, 0) == sequence
  {}

  /** 0x2306: subindexes 9, A and B, and every request served so far. */
  class Diagnostic {
    var requestSeq: Word
    var completeSeq: Word
    var requestResult: int
    ghost var history: seq<Served>

    ghost predicate Idle()
      reads this
    {
      requestSeq == completeSeq
    }

    /** The node's main loop may run: it serves a pending request and publishes result and completion together. */
    method Run()
      modifies this`completeSeq, this`requestResult, this`history
      ensures old(Idle()) ==> Idle() && requestResult == old(requestResult) && history == old(history)
      ensures !old(Idle()) ==>
        || (completeSeq == old(completeSeq) && requestResult == old(requestResult) && history == old(history))
        || (Idle() && history == old(history) + [Served(requestSeq, requestResult)])
    {
      var runs: bool := *;
      if runs && requestSeq != completeSeq {
        requestResult := *;
        completeSeq := requestSeq;
        history := history + [Served(requestSeq, requestResult)];
      }
    }

    /** Subindex 9. A failed write may still have been accepted. */
    method Request(sequence: Word) returns (ok: bool)
      modifies this
      ensures !ok ==> requestSeq == old(requestSeq) || requestSeq == sequence
      ensures ok && old(Idle()) ==> requestSeq == sequence && completeSeq == old(completeSeq) && history == old(history)
    {
      Run();
      var accepted: bool := *;
      ok := *;
      if accepted || ok { requestSeq := sequence; }
    }

    /** `waitForTxCompletion`. */
    method WaitForCompletion(sequence: Word) returns (ok: bool, result: int)
      requires requestSeq == sequence && completeSeq != sequence
      modifies this`completeSeq, this`requestResult, this`history
      ensures ok ==> Idle() && history == old(history) + [Served(sequence, result)]
    {
      ok, result := false, IDLE;
      var polls: nat := *;
      while polls > 0
        invariant
          || (completeSeq == old(completeSeq) && history == old(history))
          || (Idle() && history == old(history) + [Served(sequence, requestResult)])
      {
        polls := polls - 1;
        Run();
        var readable: bool := *;
        if !readable { return; }
        if completeSeq == sequence {
          Run();
          ok := *;
          result := requestResult;
          return;
        }
      }
    }
  }

  /** `TxRequestOutcome`. */
  datatype Outcome = Outcome(sequence: Word, result: int, busyRetries: nat)

  /**
   `synchronizeTxPhaseAfterBusy`: what it reads ends with the pending inverted frame, before which at most one normal
   frame was read.
   */
  method SynchronizePhase(wire: Wire) returns (ok: bool, ghost read: seq<Frame>)
    requires wire.Valid()
    modifies wire
    ensures wire.Valid() && wire.Consumed() == old(wire.Consumed()) + read
    ensures ok ==> 1 <= |read| <= 2 && read[|read| - 1].id == TX_INVERTED_ID
    ensures ok && |read| == 2 ==> read[0].id == TX_NORMAL_ID
  {
    read := [];
    ok := wire.SendPair(PROBE_NORMAL, PROBE_INVERTED);
    if !ok { return; }
    ok := false;
    var normalSeen := false;
    var turns: nat := *;
    while turns > 0
      invariant wire.Valid() && wire.Consumed() == old(wire.Consumed()) + read
      invariant if normalSeen then |read| == 1 && read[0].id == TX_NORMAL_ID else read == []
    {
      turns := turns - 1;
      var wait, frame := wire.WaitForAnyTx();
      if wait != Received { return; }
      read := read + [frame];
      if frame.id != TX_NORMAL_ID { return true, read; }
      if normalSeen { return; }
      normalSeen := true;
    }
  }

  /** These requests were answered with BUSY, with consecutive sequence numbers after `completed`. */
  ghost predicate AllBusy(served: seq<Served>, completed: Word) {
    forall i | 0 <= i < |served| :: served[i] == Served(After(completed, i + 1), BUSY)
  }

  /**
   `requestTxWithBusyRetry`, called while no request is pending. On success every request but the last was answered
   with BUSY (`busy`), the reported sequence and result are those of the last one, and BUSY is reported only after all
   retries, of which there are at most four.
   */
  method RequestWithRetry(diagnostic: Diagnostic, wire: Wire, completed: Word)
    returns (ok: bool, outcome: Outcome, ghost busy: seq<Served>)
    requires diagnostic.Idle() && diagnostic.requestSeq == completed && wire.Valid()
    modifies diagnostic, wire
    ensures wire.Valid() && outcome.busyRetries <= MAX_RETRIES
    ensures ok ==>
      && diagnostic.Idle() && |busy| == outcome.busyRetries && AllBusy(busy, completed)
      && outcome.sequence == After(completed, |busy| + 1)
      && diagnostic.history == old(diagnostic.history) + busy + [Served(outcome.sequence, outcome.result)]
    ensures ok && outcome.result == BUSY ==> outcome.busyRetries == MAX_RETRIES
  {
    AfterNext(completed, 0);
    hide After, Next;
    ok := false;
    outcome := Outcome(completed, IDLE, 0);
    busy := [];
    var attempt := 0;
    while attempt <= MAX_RETRIES
      invariant attempt <= MAX_RETRIES && attempt == |busy| == outcome.busyRetries
      invariant !ok && wire.Valid() && AllBusy(busy, completed)
      invariant diagnostic.Idle() && diagnostic.requestSeq == outcome.sequence
      invariant outcome.sequence == After(completed, attempt)
      invariant diagnostic.history == old(diagnostic.history) + busy
    {
      AfterNext(completed, attempt);
      outcome := outcome.(sequence := Next(outcome.sequence));
      ok := diagnostic.Request(outcome.sequence);
      if !ok { return; }
      var result;
      ok, result := diagnostic.WaitForCompletion(outcome.sequence);
      outcome := outcome.(result := result);
      if !ok { return; }
      if result != BUSY { return; }
      if attempt == MAX_RETRIES { return; }
      outcome := outcome.(busyRetries := outcome.busyRetries + 1);
      busy := busy + [Served(outcome.sequence, BUSY)];
      ghost var read;
      ok, read := SynchronizePhase(wire);
      if !ok { return; }
      ok := false;
      attempt := attempt + 1;
    }
  }
}
