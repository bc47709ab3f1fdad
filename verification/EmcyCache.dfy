/**
 The EMCY events kept by the host: a bounded history written by the event loop under a mutex, and the searches other
 threads run over it.
 */
module EmcyCache {
  import opened Bits

  const CAPACITY: nat := 32

  /** `CanopenEmcyEvent`, without its timestamp. */
  datatype Event = Event(
    sequence: nat, node: Byte, errorCode: Half, errorRegister: Byte, manufacturer: seq<Byte>)

  predicate Matches(e: Event, after: nat, node: Byte, errorCode: Half) {
    e.sequence > after && e.node == node && e.errorCode == errorCode
  }

  /** The events of one node, in order. */
  function OfNode(events: seq<Event>, node: Byte): seq<Event> {
    if events == [] then []
    else (if events[0].node == node then [events[0]] else []) + OfNode(events[1..], node)
  }

  /** The event is the first one in the sequence that matches. */
  ghost predicate First(events: seq<Event>, after: nat, node: Byte, errorCode: Half, e: Event) {
    exists i ::
      && 0 <= i < |events| && events[i] == e && Matches(e, after, node, errorCode)
      && forall j | 0 <= j < i :: !Matches(events[j], after, node, errorCode)
  }

  /** The events of one node that are newer than a sequence number. */
  function Select(events: seq<Event>, after: nat, node: Byte): seq<Event> {
    if events == [] then []
    else
      (if events[0].sequence > after && events[0].node == node then [events[0]] else [])
      + Select(events[1..], after, node)
  }

  lemma SelectStep(events: seq<Event>, i: nat, after: nat, node: Byte)
    requires i < |events|
    ensures Select(events[i..], after, node) ==
      (if events[i].sequence > after && events[i].node == node then [events[i]] else [])
      + Select(events[i + 1..], after, node)
  {
    assert events[i..][1..] == events[i + 1..];
  }

  lemma SelectNone(after: nat, node: Byte)
    ensures Select([], after, node) == []
  {}

  ghost predicate Numbered(history: seq<Event>) {
    forall i: nat | i < |history| :: history[i].sequence == i + 1
  }

  /** In a history numbered from one, newer than `after` means from index `after` on. */
  lemma {:induction false} SelectIsSuffix(history: seq<Event>, k: nat, after: nat, node: Byte)
    requires Numbered(history) && k <= |history| && after <= |history|
    ensures Select(history[k..], after, node) == OfNode(history[if after < k then k else after..], node)
    decreases |history| - k
  {
    if k < |history| {
      SelectIsSuffix(history, k + 1, after, node);
      assert history[k..][1..] == history[k + 1..];
    }
  }

  lemma {:induction false} OfNodeConcat(a: seq<Event>, b: seq<Event>, node: Byte)
    ensures OfNode(a + b, node) == OfNode(a, node) + OfNode(b, node)
  {
    if a == [] {
      assert a + b == b;
    } else {
      var head := if a[0].node == node then [a[0]] else [];
      assert (a + b)[0] == a[0] && (a + b)[1..] == a[1..] + b;
      assert OfNode(a, node) == head + OfNode(a[1..], node);
      assert OfNode(a + b, node) == head + OfNode(a[1..] + b, node);
      hide OfNode;
      OfNodeConcat(a[1..], b, node);
    }
  }

  lemma {:induction false} OfNodeEmpty(a: seq<Event>, node: Byte)
    ensures OfNode(a, node) == [] <==> forall e | e in a :: e.node != node
  {
    if a != [] {
      OfNodeEmpty(a[1..], node);
      assert a == [a[0]] + a[1..];
    }
  }

  class Cache {
    var events: seq<Event>
    var sequence: nat
    ghost var history: seq<Event>

    constructor ()
      ensures Valid() && history == []
    {
      events, sequence, history := [], 0, [];
    }

    /** How many of the oldest events are gone. */
    ghost function Evicted(): nat
      reads this
    {
      if |history| <= CAPACITY then 0 else |history| - CAPACITY
    }

    /** The cache is the newest part of a history numbered from one. */
    ghost predicate Valid()
      reads this
    {
      && sequence == |history| && events == history[Evicted()..]
      && Numbered(history)
    }

    /** `emcyCallback`. */
    method Callback(node: Byte, errorCode: Half, errorRegister: Byte, manufacturer: seq<Byte>)
      requires Valid()
      modifies this
      ensures Valid()
      ensures history == old(history) + [Event(|old(history)| + 1, node, errorCode, errorRegister, manufacturer)]
    {
      sequence := sequence + 1;
      var event := Event(sequence, node, errorCode, errorRegister, manufacturer);
      if |events| >= CAPACITY { events := events[1..]; }
      events := events + [event];
      history := history + [event];
    }

    /** Whatever callbacks run while the mutex is free. */
    method Callbacks()
      requires Valid()
      modifies this
      ensures Valid() && old(history) <= history
    {
      var turns: nat := *;
      while turns > 0
        invariant Valid() && old(history) <= history
      {
        turns := turns - 1;
        var node: Byte, errorCode: Half, errorRegister: Byte, manufacturer: seq<Byte> := *, *, *, *;
        Callback(node, errorCode, errorRegister, manufacturer);
      }
    }

    /** `findEmcyEventLocked`: the first match among the events still kept. */
    method Find(after: nat, node: Byte, errorCode: Half) returns (found: bool, event: Event)
      requires Valid()
      ensures found ==> First(events, after, node, errorCode, event)
      ensures !found ==> forall e | e in events :: !Matches(e, after, node, errorCode)
    {
      found, event := false, *;
      var i := 0;
      while i < |events|
        invariant i <= |events| && forall j | 0 <= j < i :: !Matches(events[j], after, node, errorCode)
      {
        if Matches(events[i], after, node, errorCode) { return true, events[i]; }
        i := i + 1;
      }
    }

    /**
     `waitForCanopenEmcyEvent`: the first match among the events still kept, which is the first match of the whole
     history as long as no event after the snapshot has been evicted.
     */
    method WaitFor(after: nat, node: Byte, errorCode: Half) returns (found: bool, event: Event)
      requires Valid()
      modifies this
      ensures Valid() && old(history) <= history
      ensures found ==> First(events, after, node, errorCode, event)
      ensures found && Evicted() <= after ==> First(history, after, node, errorCode, event)
      ensures !found && Evicted() <= after ==> forall e | e in history :: !Matches(e, after, node, errorCode)
    {
      Callbacks();
      found, event := Find(after, node, errorCode);
      var turns: nat := *;
      while turns > 0 && !found
        invariant Valid() && old(history) <= history
        invariant found ==> First(events, after, node, errorCode, event)
        invariant !found ==> forall e | e in events :: !Matches(e, after, node, errorCode)
      {
        turns := turns - 1;
        Callbacks();
        found, event := Find(after, node, errorCode);
      }
      if Evicted() <= after { FirstInHistory(after, node, errorCode, found, event); }
    }

    /** Evicted events at or before the snapshot match nothing. */
    lemma FirstInHistory(after: nat, node: Byte, errorCode: Half, found: bool, event: Event)
      requires Valid() && Evicted() <= after
      requires found ==> First(events, after, node, errorCode, event)
      requires !found ==> forall e | e in events :: !Matches(e, after, node, errorCode)
      ensures found ==> First(history, after, node, errorCode, event)
      ensures !found ==> forall e | e in history :: !Matches(e, after, node, errorCode)
    {
      var n := Evicted();
      assert forall i: nat | i < n :: history[i].sequence == i + 1 <= after;
      if found {
        var i :| 0 <= i < |events| && events[i] == event && Matches(event, after, node, errorCode)
          && forall j | 0 <= j < i :: !Matches(events[j], after, node, errorCode);
        assert history[n + i] == event;
        forall j | 0 <= j < n + i ensures !Matches(history[j], after, node, errorCode) {
          if j >= n { assert history[j] == events[j - n]; }
        }
      } else {
        forall e | e in history ensures !Matches(e, after, node, errorCode) {
          var i: nat :| i < |history| && history[i] == e;
          if i >= n { assert history[i] == events[i - n]; }
        }
      }
    }

    /** The loop of `getCanopenEmcyEventsAfter`. */
    method Collect(after: nat, node: Byte) returns (found: seq<Event>)
      ensures found == Select(events, after, node)
    {
      hide Select;
      found := [];
      var i := 0;
      assert events[0..] == events;
      while i < |events|
        invariant i <= |events| && found + Select(events[i..], after, node) == Select(events, after, node)
      {
        SelectStep(events, i, after, node);
        if events[i].sequence > after && events[i].node == node { found := found + [events[i]]; }
        i := i + 1;
      }
      SelectNone(after, node);
      assert events[i..] == [];
    }

    /**
     `getCanopenEmcyEventsAfter`: all events of the node that are newer than the snapshot and not evicted. Nothing is
     missing exactly if no event of this node after the snapshot has been evicted; at most 32 events since the
     snapshot are enough for that.
     */
    method GetAfter(after: nat, node: Byte) returns (found: seq<Event>)
      requires Valid() && after <= |history|
      ensures found == OfNode(history[if after < Evicted() then Evicted() else after..], node)
      ensures found == OfNode(history[after..], node) <==>
        forall i: nat | after <= i < Evicted() :: history[i].node != node
      ensures |history| <= after + CAPACITY ==> found == OfNode(history[after..], node)
    {
      found := Collect(after, node);
      SelectIsSuffix(history, Evicted(), after, node);
      Complete(after, node, if after < Evicted() then Evicted() else after);
    }

    /** The newer part is the whole exactly if the part before it holds no event of the node. */
    lemma Complete(after: nat, node: Byte, start: nat)
      requires after <= start <= |history|
      ensures OfNode(history[start..], node) == OfNode(history[after..], node) <==>
        forall i: nat | after <= i < start :: history[i].node != node
    {
      var gap := history[after..start];
      assert history[after..] == gap + history[start..];
      OfNodeConcat(gap, history[start..], node);
      OfNodeEmpty(gap, node);
      forall i: nat | after <= i < start ensures history[i] in gap { assert gap[i - after] == history[i]; }
      if OfNode(gap, node) != [] { assert |OfNode(gap, node)| > 0; }
    }
  }
}
