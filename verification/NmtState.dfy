/**
 Confirmation of NMT commands: the event loop publishes every remote NMT state with a per-node generation, and a
 command waits for an indication newer than the generation it started from.
 */
module NmtState {
  import opened RemoteNode

  const SLOTS := 128

  /** One published indication. */
  datatype Indication = Indication(node: nat, state: nat)

  datatype Observation = Observation(generation: nat, state: nat, observed: bool)

  /** The answer to a read of 0x1F82. */
  datatype Reading = Shown(state: nat) | Unreadable

  /** What the host asked and sent; a command remembers how much had been published when it was submitted. */
  datatype Act =
    | Managed(node: nat, answer: Reading)
    | Sent(command: NmtCommand, node: nat, at: nat, accepted: bool)

  predicate Addressable(node: nat) {
    0 < node < SLOTS
  }

  /** How often a node has been heard, and what it said last. */
  function Count(history: seq<Indication>, node: nat): nat {
    if history == [] then 0
    else
      var m := |history| - 1;
      Count(history[..m], node) + if history[m].node == node then 1 else 0
  }

  function Latest(history: seq<Indication>, node: nat): nat
    requires Count(history, node) > 0
  {
    var m := |history| - 1;
    if history[m].node == node then history[m].state else Latest(history[..m], node)
  }

  /** A count that grew shows an indication of the node after the old history, and none of it follows that one. */
  lemma {:induction false} FreshIndication(sent: seq<Indication>, now: seq<Indication>, node: nat) returns (i: nat)
    requires sent <= now && Count(sent, node) < Count(now, node)
    ensures |sent| <= i < |now| && now[i] == Indication(node, Latest(now, node))
    ensures forall j | i < j < |now| :: now[j].node != node
  {
    var m := |now| - 1;
    assert now[..|now|] == now && sent == now[..|sent|];
    assert |sent| < |now|;
    assert sent <= now[..m];
    if now[m].node == node {
      i := m;
    } else {
      i := FreshIndication(sent, now[..m], node);
    }
  }

  /** The node has been heard after the first `at` indications, and said this state last. */
  ghost predicate Heard(history: seq<Indication>, at: nat, node: nat, state: nat)
    requires at <= |history|
  {
    Count(history[..at], node) < Count(history, node) && Latest(history, node) == state
  }

  /**
   The acts of one command: 0x1F82 is read, the command is submitted, and if it is accepted 0x1F82 is read again exactly
   if it already showed the expected state.
   */
  ghost predicate Orderly(acts: seq<Act>, command: NmtCommand, node: nat, expected: nat) {
    && 2 <= |acts| <= 3
    && acts[0].Managed? && acts[0].node == node
    && acts[1].Sent? && acts[1].command == command && acts[1].node == node
    && (|acts| == 3 <==> acts[1].accepted && acts[0].answer == Shown(expected))
    && (|acts| == 3 ==> acts[2].Managed? && acts[2].node == node)
  }

  /** 0x1F82 showed the expected state both before and after the command. */
  ghost predicate Idempotent(acts: seq<Act>, expected: nat) {
    |acts| == 3 && acts[0] == acts[2] && acts[0].Managed? && acts[0].answer == Shown(expected)
  }

  /** The shared table and everything published since the callback was registered. */
  class Observer {
    const table: array<Observation>
    var registered: nat
    ghost var history: seq<Indication>
    ghost var log: seq<Act>

    constructor ()
      ensures Valid() && registered == 0 && history == [] && log == [] && fresh(table)
    {
      table := new Observation[SLOTS](_ => Observation(0, 0, false));
      registered, history, log := 0, [], [];
    }

    /** The table says of every node what the history does. */
    ghost predicate Valid()
      reads this, table
    {
      && table.Length == SLOTS
      && forall n: nat | n < SLOTS :: Agrees(table[n], n)
    }

    ghost predicate Agrees(o: Observation, n: nat)
      reads this
    {
      && o.generation == Count(history, n) && (o.observed <==> Count(history, n) > 0)
      && (o.observed ==> o.state == Latest(history, n))
    }

    /** `registerNmtStateCallback`. */
    method Register(master: nat)
      requires table.Length == SLOTS
      modifies this`registered, this`history, table
      ensures Valid() && registered == master && history == []
    {
      forall i | 0 <= i < SLOTS { table[i] := Observation(0, 0, false); }
      registered, history := master, [];
    }

    /** `nmtStateCallback`: invalid node-IDs leave everything as it is. */
    method Callback(node: nat, state: nat)
      requires Valid()
      modifies this`history, table
      ensures Valid() && (!Addressable(node) ==> history == old(history) && table[..] == old(table[..]))
      ensures Addressable(node) ==> history == old(history) + [Indication(node, state)]
      ensures forall n | 0 <= n < SLOTS && n != node :: table[n] == old(table[n])
      ensures forall n | 0 <= n < SLOTS :: old(table[n]).generation <= table[n].generation
    {
      if !Addressable(node) { return; }
      var o := table[node];
      ghost var before := history;
      table[node] := Observation(o.generation + 1, state, true);
      history := history + [Indication(node, state)];
      assert history[..|before|] == before;
      forall n: nat | n < SLOTS ensures Agrees(table[n], n) {
        assert n != node ==> table[n] == old(table[n]);
      }
    }

    /** Whatever callbacks run while the mutex is free. */
    method Callbacks()
      requires Valid()
      modifies this`history, table
      ensures Valid() && old(history) <= history
    {
      var turns: nat := *;
      while turns > 0
        invariant Valid() && old(history) <= history
      {
        turns := turns - 1;
        var node: nat, state: nat := *, *;
        Callback(node, state);
      }
    }

    /** `wait_for` with the freshness predicate, evaluated under the mutex. */
    method AwaitFresh(node: nat, expected: nat, baseline: nat) returns (reached: bool)
      requires Valid() && Addressable(node)
      modifies this`history, table
      ensures Valid() && old(history) <= history
      ensures reached <==>
        Count(history, node) > baseline && Count(history, node) > 0 && Latest(history, node) == expected
    {
      var turns: nat := *;
      Callbacks();
      while turns > 0 && !(table[node].generation > baseline && table[node].state == expected)
        invariant Valid() && old(history) <= history
      {
        turns := turns - 1;
        Callbacks();
      }
      assert Agrees(table[node], node);
      reached := table[node].generation > baseline && table[node].state == expected;
    }

    /** A read of 0x1F82; meanwhile callbacks run. */
    method ReadManaged(node: nat) returns (answer: Reading)
      requires Valid()
      modifies this`history, this`log, table
      ensures Valid() && old(history) <= history && log == old(log) + [Managed(node, answer)]
    {
      Callbacks();
      answer := *;
      log := log + [Managed(node, answer)];
    }

    /** `issueNmtCommand`, under the mutex. */
    method Command(command: NmtCommand, node: nat) returns (accepted: bool)
      modifies this`log
      ensures log == old(log) + [Sent(command, node, |history|, accepted)]
    {
      accepted := *;
      log := log + [Sent(command, node, |history|, accepted)];
    }

    /**
     `issueNmtCommandAndWaitForState`. For an addressable node 0x1F82 is read, and once the callback is registered the
     command is submitted. Success means exactly that it was accepted and that either 0x1F82 showed the expected state
     before and after it, or the node has been heard since it was submitted, and said the expected state last.
     */
    method IssueAndWait(master: nat, command: NmtCommand, node: nat, expected: nat) returns (ok: bool)
      requires Valid()
      modifies this`history, this`log, table
      ensures Valid() && old(history) <= history && old(log) <= log
      ensures var acts := log[|old(log)|..];
        if !Addressable(node) then !ok && acts == []
        else if registered != master then !ok && |acts| == 1 && acts[0].Managed? && acts[0].node == node
        else
          && Orderly(acts, command, node, expected) && |old(history)| <= acts[1].at <= |history|
          && (ok <==>
            && acts[1].accepted
            && (Idempotent(acts, expected) || Heard(history, acts[1].at, node, expected)))
    {
      ok := false;
      if !Addressable(node) { return; }
      var before := ReadManaged(node);
      if registered != master { return; }
      assert Agrees(table[node], node);
      var baseline := table[node].generation;
      ghost var sent := history;
      var accepted := Command(command, node);
      if !accepted { return; }
      if before == Shown(expected) {
        var after := ReadManaged(node);
        if after == before { return true; }
      }
      ok := AwaitFresh(node, expected, baseline);
      assert history[..|sent|] == sent;
    }
  }
}
