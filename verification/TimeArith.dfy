/**
 CANopen TIME arithmetic: a timestamp is a position in a cycle of 65536 days, and progress is measured forward through
 midnight and through the wrap of the day counter.
 */
module TimeArith {
  import opened Bits

  const DAY: nat := 86400000
  const CYCLE: nat := 65536 * DAY
  const TOLERANCE: nat := 120
  const WORD64: nat := 0x1_0000_0000_0000_0000

  /** `timePosition`. */
  function TimePosition(milliseconds: Word, days: Half): nat {
    days * DAY + milliseconds
  }

  /** `forwardTimeDelta` on 64-bit numbers. */
  function ForwardTimeDelta(from: nat, to: nat): nat {
    if to >= from then to - from else (CYCLE - from + to) % WORD64
  }

  /** Timestamps within a day correspond one to one to the positions of the cycle. */
  lemma PositionBijective(milliseconds: Word, days: Half, position: nat)
    requires milliseconds < DAY && position < CYCLE
    ensures TimePosition(milliseconds, days) < CYCLE
    ensures TimePosition(milliseconds, days) == position <==>
      milliseconds == position % DAY && days == position / DAY
  {}

  /** The delta is the one step within the cycle that leads from one position to the other. */
  lemma DeltaUnique(from: nat, to: nat, d: nat)
    requires from < CYCLE && to < CYCLE && d < CYCLE
    ensures (from + d) % CYCLE == to <==> d == ForwardTimeDelta(from, to)
  {
    if from + d < CYCLE {
      assert (from + d) % CYCLE == from + d;
    } else {
      assert (from + d) % CYCLE == from + d - CYCLE;
    }
  }

  lemma DeltaBelow(from: nat, to: nat)
    requires from < CYCLE && to < CYCLE
    ensures ForwardTimeDelta(from, to) < CYCLE
    ensures ForwardTimeDelta(from, to) == if to >= from then to - from else CYCLE - from + to
  {}

  lemma OneCycle(sum: nat, z: nat)
    requires z < CYCLE && (sum == z || sum == z + CYCLE)
    ensures sum % CYCLE == z
  {}

  /** Deltas add up around the cycle. */
  lemma DeltaAdditive(a: nat, b: nat, c: nat)
    requires a < CYCLE && b < CYCLE && c < CYCLE
    ensures (ForwardTimeDelta(a, b) + ForwardTimeDelta(b, c)) % CYCLE == ForwardTimeDelta(a, c)
  {
    hide ForwardTimeDelta;
    DeltaBelow(a, b);
    DeltaBelow(b, c);
    DeltaBelow(a, c);
    OneCycle(ForwardTimeDelta(a, b) + ForwardTimeDelta(b, c), ForwardTimeDelta(a, c));
  }

  function Shifted(position: nat, shift: nat): nat {
    (position + shift) % CYCLE
  }

  /** Moving both ends by the same amount changes nothing. */
  lemma DeltaShiftInvariant(from: nat, to: nat, shift: nat)
    requires from < CYCLE && to < CYCLE
    ensures ForwardTimeDelta(Shifted(from, shift), Shifted(to, shift)) == ForwardTimeDelta(from, to)
  {
    var d := ForwardTimeDelta(from, to);
    DeltaBelow(from, to);
    DeltaUnique(from, to, d);
    SumShifted(from, d, shift);
    DeltaUnique(Shifted(from, shift), Shifted(to, shift), d);
  }

  lemma SumShifted(from: nat, d: nat, shift: nat)
    ensures ((from + shift) % CYCLE + d) % CYCLE == ((from + d) % CYCLE + shift) % CYCLE
  {
    var p, q := (from + shift) / CYCLE, (from + d) / CYCLE;
    assert (from + shift) % CYCLE + d == from + shift + d - p * CYCLE;
    assert (from + d) % CYCLE + shift == from + shift + d - q * CYCLE;
    WholeCycles((from + shift) % CYCLE + d, from + shift + d, p);
    WholeCycles((from + d) % CYCLE + shift, from + shift + d, q);
  }

  lemma {:induction false} WholeCycles(a: nat, b: nat, n: nat)
    requires b == a + n * CYCLE
    ensures a % CYCLE == b % CYCLE
  {
    if n > 0 {
      WholeCycles(a, b - CYCLE, n - 1);
      assert b % CYCLE == (b - CYCLE) % CYCLE;
    }
  }

  /** `TimeDiagnostic`; the host's sampling time in milliseconds. */
  datatype TimeDiagnostic = TimeDiagnostic(rxCount: Word, milliseconds: Word, days: Half, sampledAt: nat)

  /** `validateContinuousAdvance`. */
  predicate ValidateContinuousAdvance(before: TimeDiagnostic, after: TimeDiagnostic, expectedDelta: Word)
    requires before.sampledAt <= after.sampledAt
  {
    if (after.rxCount - before.rxCount) % 0x1_0000_0000 != expectedDelta then false
    else
      var elapsed := ForwardTimeDelta(
                       TimePosition(before.milliseconds, before.days), TimePosition(after.milliseconds, after.days));
      var expected := after.sampledAt - before.sampledAt;
      var minimum := if expected > TOLERANCE then expected - TOLERANCE else 0;
      minimum <= elapsed <= expected + TOLERANCE
  }

  /** A diagnostic whose TIME is later by any amount. */
  function Later(d: TimeDiagnostic, shift: nat): (r: TimeDiagnostic)
    requires d.milliseconds < DAY
    ensures r.milliseconds < DAY
    ensures TimePosition(r.milliseconds, r.days) == Shifted(TimePosition(d.milliseconds, d.days), shift)
    ensures r.rxCount == d.rxCount && r.sampledAt == d.sampledAt
  {
    var p := Shifted(TimePosition(d.milliseconds, d.days), shift);
    d.(milliseconds := p % DAY, days := p / DAY)
  }

  /** The verdict does not depend on where in the cycle it is taken: midnight and the day wrap are not special. */
  lemma VerdictShiftInvariant(before: TimeDiagnostic, after: TimeDiagnostic, expectedDelta: Word, shift: nat)
    requires before.sampledAt <= after.sampledAt && before.milliseconds < DAY && after.milliseconds < DAY
    ensures ValidateContinuousAdvance(Later(before, shift), Later(after, shift), expectedDelta)
        <==> ValidateContinuousAdvance(before, after, expectedDelta)
  {
    PositionBijective(before.milliseconds, before.days, 0);
    PositionBijective(after.milliseconds, after.days, 0);
    DeltaShiftInvariant(
      TimePosition(before.milliseconds, before.days), TimePosition(after.milliseconds, after.days), shift);
  }

  /** A clock that stays within 120 ms of the host's is accepted for any span below a cycle. */
  lemma SteadyClockAccepted(before: TimeDiagnostic, elapsed: nat, drift: int)
    requires before.milliseconds < DAY && 0 <= drift + TOLERANCE && drift <= TOLERANCE && 0 <= elapsed + drift < CYCLE
    ensures ValidateContinuousAdvance(
              before, Later(before, elapsed + drift).(sampledAt := before.sampledAt + elapsed), 0)
  {
    PositionBijective(before.milliseconds, before.days, 0);
    var from := TimePosition(before.milliseconds, before.days);
    DeltaUnique(from, Shifted(from, elapsed + drift), elapsed + drift);
  }
}
