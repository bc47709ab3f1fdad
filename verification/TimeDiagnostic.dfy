/**
 The TIME diagnostic 0x2300: how many TIME frames the node received, and the time of day it keeps. The node counts a
 frame when it arrives and sets its clock to it later, from its main loop. The host reads the fields in five separate
 SDO transfers and accepts them if the count and the day did not move; anything may happen between two transfers.
 */
module TimeDiagnostic {
  import opened Bits
  import opened TimeArith

  const RETRIES := 3
  const COUNTS: nat := 0x1_0000_0000
  const DAYS: nat := 65536

  datatype Stamp = Stamp(milliseconds: nat, days: Half)

  datatype Pending = Nothing | Due(stamp: Stamp)

  /** A frame arrives; the clock is set to the latest one; a millisecond passes. */
  datatype Move = Receive(stamp: Stamp) | Apply | Tick

  datatype Reading = Reading(rxCount: Word, milliseconds: nat, days: Half)

  /** The node's time, with all frames received and all midnights passed so far. */
  datatype Clock = Clock(received: nat, midnights: nat, milliseconds: nat, days: Half, pending: Pending) {
    function Count(): Word {
      received % COUNTS
    }

    function Shown(): Reading {
      Reading(Count(), milliseconds, days)
    }

    function Step(move: Move): Clock {
      match move
      case Receive(stamp) => this.(received := received + 1, pending := Due(stamp))
      case Apply =>
        if pending.Nothing? then this
        else this.(milliseconds := pending.stamp.milliseconds, days := pending.stamp.days, pending := Nothing)
      case Tick =>
        if milliseconds + 1 < DAY then this.(milliseconds := milliseconds + 1)
        else this.(milliseconds := milliseconds + 1 - DAY, days := (days + 1) % DAYS, midnights := midnights + 1)
    }

    function After(moves: seq<Move>): Clock
      decreases |moves|
    {
      if moves == [] then this else Step(moves[0]).After(moves[1..])
    }

    ghost predicate Leads(later: Clock) {
      exists moves :: After(moves) == later
    }
  }

  lemma {:induction false} AfterConcat(c: Clock, a: seq<Move>, b: seq<Move>)
    ensures c.After(a + b) == c.After(a).After(b)
    decreases |a|
  {
    if a == [] {
      assert a + b == b;
    } else {
      AfterConcat(c.Step(a[0]), a[1..], b);
      assert (a + b)[1..] == a[1..] + b;
    }
  }

  lemma LeadsItself(c: Clock)
    ensures c.Leads(c)
  {
    assert c.After([]) == c;
  }

  lemma LeadsOn(a: Clock, b: Clock, c: Clock)
    requires a.Leads(b) && b.Leads(c)
    ensures a.Leads(c)
  {
    var first :| a.After(first) == b;
    var second :| b.After(second) == c;
    AfterConcat(a, first, second);
  }

  lemma LeadsStep(c: Clock, move: Move)
    ensures c.Leads(c.Step(move))
  {
    assert c.After([move]) == c.Step(move).After([]);
  }

  // ------------------------------------------------------------------------------------------------------------
  // What an accepted attempt means
  // ------------------------------------------------------------------------------------------------------------

  /** The clock at the five uploads of an attempt: count, days, milliseconds, days, count. */
  ghost predicate Attempt(s: seq<Clock>) {
    |s| == 5 && s[0].Leads(s[1]) && s[1].Leads(s[2]) && s[2].Leads(s[3]) && s[3].Leads(s[4])
  }

  /** Neither the count nor the day seems to have moved. */
  predicate Coherent(s: seq<Clock>) {
    |s| == 5 && s[0].Count() == s[4].Count() && s[1].days == s[3].days
  }

  /** The conditions of `readTimeDiagnostic`, and what is then published. */
  predicate Accepted(s: seq<Clock>) {
    Coherent(s) && s[2].milliseconds < DAY
  }

  function Published(s: seq<Clock>): Reading
    requires |s| == 5
  {
    Reading(s[4].Count(), s[2].milliseconds, s[3].days)
  }

  /** The reading comes from this attempt, and shows one instant if it can. */
  ghost predicate PublishedFrom(reading: Reading, s: seq<Clock>) {
    && Attempt(s) && Accepted(s) && reading == Published(s)
    && (Short(s) && s[0].pending.Nothing? ==> reading == s[2].Shown())
  }

  /** Neither counter has gone all the way round during the attempt. */
  predicate Short(s: seq<Clock>) {
    |s| == 5 && s[4].received < s[0].received + COUNTS && s[3].midnights < s[1].midnights + DAYS
  }

  /** Nothing is forgotten, and without a frame, new or pending, the clock only ticks. */
  lemma {:induction false} Undisturbed(c: Clock, moves: seq<Move>)
    ensures var d := c.After(moves);
      && c.received <= d.received && c.midnights <= d.midnights
      && (c.received == d.received && c.pending.Nothing? ==>
        d.pending.Nothing? && d.days == (c.days + (d.midnights - c.midnights)) % DAYS)
    decreases |moves|
  {
    if moves != [] {
      Undisturbed(c.Step(moves[0]), moves[1..]);
    } else {
      assert c.After(moves) == c;
    }
  }

  lemma Ticking(c: Clock, d: Clock)
    requires c.Leads(d)
    ensures c.received <= d.received && c.midnights <= d.midnights
    ensures c.received == d.received && c.pending.Nothing? ==>
      d.pending.Nothing? && d.days == (c.days + (d.midnights - c.midnights)) % DAYS
  {
    var moves :| c.After(moves) == d;
    Undisturbed(c, moves);
  }

  lemma SameCount(a: nat, b: nat)
    requires a <= b < a + COUNTS && a % COUNTS == b % COUNTS
    ensures a == b
  {}

  lemma SameDay(days: nat, passed: nat)
    requires passed < DAYS && days % DAYS == (days + passed) % DAYS
    ensures passed == 0
  {}

  /** An accepted attempt with no frame pending at its start shows the one instant of its third upload. */
  lemma OneInstant(s: seq<Clock>)
    requires Attempt(s) && Accepted(s) && Short(s) && s[0].pending.Nothing?
    ensures Published(s) == s[2].Shown()
  {
    Ticking(s[0], s[1]);
    Ticking(s[1], s[2]);
    Ticking(s[2], s[3]);
    Ticking(s[3], s[4]);
    SameCount(s[0].received, s[4].received);
    var passed: nat := s[3].midnights - s[1].midnights;
    assert s[2].days == (s[1].days + (s[2].midnights - s[1].midnights)) % DAYS;
    assert s[3].days == (s[1].days + passed) % DAYS by { SumResidue(s[1].days, s[2], s[3], s[1].midnights); }
    SameDay(s[1].days, passed);
  }

  lemma SumResidue(days: Half, c: Clock, d: Clock, midnights: nat)
    requires midnights <= c.midnights <= d.midnights && c.days == (days + (c.midnights - midnights)) % DAYS
    requires d.days == (c.days + (d.midnights - c.midnights)) % DAYS
    ensures d.days == (days + (d.midnights - midnights)) % DAYS
  {}

  /** Ticks alone. */
  ghost predicate TicksTo(c: Clock, d: Clock) {
    c.Leads(d) && d.received == c.received && d.pending == c.pending
  }

  lemma {:induction false} ToTimeOfDay(c: Clock) returns (d: Clock)
    ensures TicksTo(c, d) && d.milliseconds < DAY
    decreases c.milliseconds
  {
    d := c;
    LeadsItself(c);
    if c.milliseconds >= DAY {
      d := ToTimeOfDay(c.Step(Tick));
      LeadsStep(c, Tick);
      LeadsOn(c, c.Step(Tick), d);
    }
  }

  lemma {:induction false} ToMidnight(c: Clock) returns (d: Clock)
    requires c.milliseconds < DAY
    ensures TicksTo(c, d) && d.milliseconds == 0 && d.days == (c.days + 1) % DAYS && d.midnights == c.midnights + 1
    decreases DAY - c.milliseconds
  {
    d := c.Step(Tick);
    LeadsStep(c, Tick);
    if c.milliseconds + 1 < DAY {
      d := ToMidnight(c.Step(Tick));
      LeadsOn(c, c.Step(Tick), d);
    }
  }

  lemma {:induction false} ToDay(c: Clock, days: Half) returns (d: Clock)
    requires c.milliseconds < DAY
    ensures TicksTo(c, d) && d.milliseconds < DAY && d.days == days
    decreases if days >= c.days then days - c.days else days + DAYS - c.days
  {
    d := c;
    LeadsItself(c);
    if c.days != days {
      var next := ToMidnight(c);
      d := ToDay(next, days);
      LeadsOn(c, next, d);
    }
  }

  /**
   With a frame counted but not applied yet, midnight may pass before the milliseconds are read, and the frame set the
   day back before the day is read again.
   */
  lemma MixedByPendingFrame(c: Clock) returns (s: seq<Clock>)
    requires c.pending.Due?
    ensures Attempt(s) && s[0] == c && Accepted(s) && Short(s)
    ensures Published(s) != s[2].Shown()
  {
    var settled := ToTimeOfDay(c);
    var first := ToDay(settled, c.pending.stamp.days);
    LeadsOn(c, settled, first);
    var midnight := ToMidnight(first);
    var set0 := midnight.Step(Apply);
    LeadsStep(midnight, Apply);
    LeadsItself(set0);
    s := [c, first, midnight, set0, set0];
  }

  /** Accepted attempts that begin here show one instant each, if and only if no frame waits to be applied. */
  lemma CoherentIff(c: Clock)
    ensures (forall s: seq<Clock> | Attempt(s) && s[0] == c && Accepted(s) && Short(s) :: Published(s) == s[2].Shown())
      <==> c.pending.Nothing?
  {
    if c.pending.Due? {
      var s := MixedByPendingFrame(c);
    } else {
      forall s: seq<Clock> | Attempt(s) && s[0] == c && Accepted(s) && Short(s) ensures Published(s) == s[2].Shown() {
        OneInstant(s);
      }
    }
  }

  /**
   One such attempt: it begins a millisecond before midnight of day 4 with a frame pending that says noon of day 4. What
   it publishes, the beginning of day 4, is not shown at any of the five uploads.
   */
  lemma BeginningOfYesterday() returns (s: seq<Clock>)
    ensures Attempt(s) && s[0] == Clock(1, 0, DAY - 1, 4, Due(Stamp(DAY / 2, 4))) && Accepted(s) && Short(s)
    ensures Published(s) == Reading(1, 0, 4)
    ensures forall c | c in s :: c.Shown() != Published(s)
  {
    var evening := Clock(1, 0, DAY - 1, 4, Due(Stamp(DAY / 2, 4)));
    var midnight := evening.Step(Tick);
    var noon := midnight.Step(Apply);
    LeadsItself(evening);
    LeadsStep(evening, Tick);
    LeadsStep(midnight, Apply);
    LeadsItself(noon);
    s := [evening, evening, midnight, noon, noon];
  }

  // ------------------------------------------------------------------------------------------------------------
  // The uploads
  // ------------------------------------------------------------------------------------------------------------

  class Diagnostic {
    var clock: Clock
    /** The clock at every upload that succeeded. */
    ghost var log: seq<Clock>

    /** Nothing but time has passed. */
    twostate predicate Passed()
      reads this
    {
      old(clock).Leads(clock)
    }

    method Run()
      modifies this`clock
      ensures Passed()
    {
      LeadsItself(clock);
      var turns: nat := *;
      while turns > 0
        invariant Passed()
      {
        turns := turns - 1;
        var move: Move := *;
        LeadsStep(clock, move);
        LeadsOn(old(clock), clock, clock.Step(move));
        clock := clock.Step(move);
      }
    }

    /** One upload: `shown` is the clock it finds, of which it returns one field; it may fail. */
    method Upload() returns (ok: bool, shown: Reading)
      modifies this
      ensures Passed()
      ensures log == if ok then old(log) + [clock] else old(log)
      ensures shown == clock.Shown()
    {
      Run();
      ok, shown := *, clock.Shown();
      if ok { log := log + [clock]; }
    }

    /** One attempt of `readTimeDiagnostic`. */
    method ReadOnce() returns (ok: bool, coherent: bool, reading: Reading)
      modifies this
      ensures |old(log)| <= |log| <= |old(log)| + 5 && log[..|old(log)|] == old(log)
      ensures ok ==> |log| == |old(log)| + 5 && Attempt(log[|old(log)|..])
      ensures ok ==> (coherent <==> Coherent(log[|old(log)|..]))
      ensures ok && coherent ==> reading == Published(log[|old(log)|..])
    {
      coherent, reading := false, *;
      var before, daysBefore, sampled, daysAfter, after;
      ghost var c0, c1, c2, c3 := clock, clock, clock, clock;
      ok, before := Upload();
      c0 := clock;
      if ok { ok, daysBefore := Upload(); c1 := clock; assert c0.Leads(c1); }
      if ok { ok, sampled := Upload(); c2 := clock; assert c1.Leads(c2); }
      if ok { ok, daysAfter := Upload(); c3 := clock; assert c2.Leads(c3); }
      if ok { ok, after := Upload(); assert c3.Leads(clock); }
      if !ok { return; }
      assert log[|old(log)|..] == [c0, c1, c2, c3, clock];
      coherent := before.rxCount == after.rxCount && daysBefore.days == daysAfter.days;
      reading := Reading(after.rxCount, sampled.milliseconds, daysAfter.days);
    }

    /**
     `readTimeDiagnostic`, with at most three passes. What it publishes comes from its last five uploads, which the
     guard accepted, so that `CoherentIff` says when it shows one instant. A time beyond the day is refused.
     */
    method ReadTimeDiagnostic() returns (ok: bool, reading: Reading)
      modifies this
      ensures |old(log)| <= |log| <= |old(log)| + 15 && log[..|old(log)|] == old(log)
      ensures ok ==> |log| >= |old(log)| + 5 && PublishedFrom(reading, log[|log| - 5..])
    {
      ok, reading := false, *;
      var attempt := 0;
      while attempt < RETRIES
        invariant 0 <= attempt <= RETRIES && !ok
        invariant |old(log)| <= |log| <= |old(log)| + 5 * attempt && log[..|old(log)|] == old(log)
      {
        var coherent;
        ghost var n := |log|;
        ok, coherent, reading := ReadOnce();
        if !ok { return; }
        assert log[|log| - 5..] == log[n..];
        if coherent {
          ok := reading.milliseconds < DAY;
          if ok && Short(log[n..]) && log[n].pending.Nothing? { OneInstant(log[n..]); }
          return;
        }
        ok := false;
        attempt := attempt + 1;
      }
    }
  }
}
