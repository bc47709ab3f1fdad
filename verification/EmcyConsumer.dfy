/**
 The host's own EMCY stack during the EMCY consumer test: `pushLocalEmcy` infers whether a failed push still grew the
 stack, and the process clears the stack only while it owns every error in it. Other faults of the host may push
 errors at any time; they never clear.
 */
module EmcyConsumer {
  import opened Bits

  const CODE_A: nat := 0xFF01
  const CODE_B: nat := 0xFF02
  const ERROR_REGISTER: nat := 0x81

  /** One active error; `own` if this test raised it. */
  datatype Entry = Entry(code: nat, register: nat, own: bool)

  /** Lely rejects error code zero and always sets the generic bit of the register. */
  predicate Genuine(e: Entry) {
    e.code != 0 && e.register % 2 == 1
  }

  /** The combined Error Register of 0x1001. */
  function Combined(stack: seq<Entry>): nat {
    if stack == [] then 0 else Or(stack[0].register, Combined(stack[1..]))
  }

  function Own(stack: seq<Entry>): nat {
    if stack == [] then 0 else (if stack[0].own then 1 else 0) + Own(stack[1..])
  }

  function Min(a: nat, b: nat): nat {
    if a < b then a else b
  }

  lemma CombinedNonzero(stack: seq<Entry>)
    requires stack != [] && Genuine(stack[0])
    ensures Combined(stack) != 0
  {}

  lemma {:induction false} OwnBound(stack: seq<Entry>)
    ensures Own(stack) <= |stack|
    ensures Own(stack) == |stack| <==> forall e | e in stack :: e.own
  {
    if stack != [] {
      OwnBound(stack[1..]);
      assert stack == [stack[0]] + stack[1..];
    }
  }

  lemma {:induction false} OwnConcat(a: seq<Entry>, b: seq<Entry>)
    ensures Own(a + b) == Own(a) + Own(b)
  {
    if a == [] {
      assert a + b == b;
    } else {
      OwnConcat(a[1..], b);
      assert (a + b)[1..] == a[1..] + b;
    }
  }

  /** What the test itself pushes. */
  predicate OfTest(e: Entry) {
    (e.code == CODE_A || e.code == CODE_B) && e.register == ERROR_REGISTER
  }

  /** A stack of the test's own errors shows the register of each of them, so the check before a clear lets it pass. */
  lemma {:induction false} CombinedOfTest(stack: seq<Entry>)
    requires stack != [] && forall e | e in stack :: OfTest(e)
    ensures Combined(stack) == ERROR_REGISTER
  {
    assert OfTest(stack[0]);
    if |stack| == 1 {
      assert Combined(stack[1..]) == 0;
    } else {
      CombinedOfTest(stack[1..]);
      OrSelf(ERROR_REGISTER);
    }
  }

  // ------------------------------------------------------------------------------------------------------------
  // The stack and its wrappers
  // ------------------------------------------------------------------------------------------------------------

  /**
   What the test has done, with success or not: an error pushed, the stack cleared, what the node shows compared with
   what it should, and Reset Communication with all that is checked after it.
   */
  datatype Act = Pushed(code: nat, ok: bool) | Cleared(ok: bool) | Observed(ok: bool) | Reset(ok: bool)

  class Host {
    /** Entries of 0x1003, whether that object exists, and whether there is an EMCY service at all. */
    const capacity: nat
    const counted: bool
    const available: bool
    /** Newest error first. */
    var stack: seq<Entry>
    /** 0x1003:00, which Lely first writes when the stack first changes. */
    var history: nat
    ghost var touched: bool
    /** How many errors others have pushed. */
    ghost var others: nat
    /** The stack has been deeper than 0x1003 can show. */
    ghost var crowded: bool
    /** A local read of 0x1003:00 has failed. */
    ghost var unread: bool
    /** The stack when its depth was last read, unless it has been cleared since. */
    ghost var checked: bool
    ghost var seen: seq<Entry>
    /** Errors of others that were cleared although they were there at that check, or without any check. */
    ghost var wronged: nat
    ghost var acts: seq<Act>

    ghost predicate Valid()
      reads this
    {
      && (forall e | e in stack :: Genuine(e))
      && (stack != [] ==> touched) && (touched ==> history == Min(|stack|, capacity))
      && (!crowded ==> |stack| <= capacity)
    }

    /** 0x1003 has shown the whole stack so far. */
    ghost predicate Shown()
      reads this
    {
      counted && !crowded
    }

    /** Lely brings 0x1003 in line with the stack. */
    method Synchronise()
      modifies this`history, this`touched, this`crowded
      ensures touched && history == Min(|stack|, capacity) && crowded == (old(crowded) || |stack| > capacity)
    {
      history, touched := Min(|stack|, capacity), true;
      crowded := crowded || |stack| > capacity;
    }

    /** Other faults push errors. */
    method Foreign()
      requires Valid()
      modifies this`stack, this`history, this`touched, this`others, this`crowded
      ensures Valid() && (old(touched) ==> touched) && (old(crowded) ==> crowded)
      ensures exists late: seq<Entry> ::
        stack == late + old(stack) && Own(late) == 0 && others == old(others) + |late| && forall e | e in late :: !e.own
    {
      ghost var late: seq<Entry> := [];
      var count: nat := *;
      assert stack == late + stack;
      while count > 0
        invariant Valid() && (old(touched) ==> touched) && (old(crowded) ==> crowded)
        invariant stack == late + old(stack) && Own(late) == 0 && others == old(others) + |late|
        invariant forall e | e in late :: !e.own
      {
        count := count - 1;
        var code: nat, register: nat := *, *;
        if code != 0 && register % 2 == 1 {
          late := [Entry(code, register, false)] + late;
          stack := [Entry(code, register, false)] + stack;
          others := others + 1;
          Synchronise();
        }
      }
    }

    /** `COEmcy::push`: it may fail before or after the stack has grown. */
    method Push(code: nat, register: nat) returns (result: int)
      requires Valid() && code != 0 && register % 2 == 1
      modifies this`stack, this`history, this`touched, this`crowded, this`acts
      ensures Valid() && (result == 0 || result == -1) && (old(crowded) ==> crowded)
      ensures stack == old(stack) || stack == [Entry(code, register, true)] + old(stack)
      ensures result == 0 ==> stack != old(stack)
      ensures acts == old(acts) + [Pushed(code, result == 0)]
    {
      var grows: bool := *;
      result := *;
      if result != 0 { result := -1; }
      if grows || result == 0 {
        stack := [Entry(code, register, true)] + stack;
        Synchronise();
      }
      acts := acts + [Pushed(code, result == 0)];
    }

    /** `COEmcy::peek`: zeros for an empty stack. */
    method Peek() returns (code: nat, register: nat)
      requires Valid()
      ensures stack == [] <==> code == 0 && register == 0
      ensures stack != [] ==> code == stack[0].code && register == Combined(stack) != 0
    {
      if stack == [] { return 0, 0; }
      CombinedNonzero(stack);
      return stack[0].code, Combined(stack);
    }

    /**
     `pushLocalEmcy`. `stack_updated` is never claimed wrongly. A growth goes unreported only by a failed push onto a
     non-empty stack: if 0x1003 is full, or, without 0x1003, if the newest error already had this code.
     */
    method PushLocal(code: nat, register: nat) returns (result: int, stackUpdated: bool)
      requires Valid() && code != 0 && register % 2 == 1
      modifies this`stack, this`history, this`touched, this`crowded, this`acts
      ensures Valid() && (result == 0 ==> stackUpdated) && (old(crowded) ==> crowded)
      ensures stack == old(stack) || stack == [Entry(code, register, true)] + old(stack)
      ensures result == 0 ==> acts == old(acts) + [Pushed(code, true)]
      ensures stackUpdated <==>
        && stack != old(stack)
        && (|| result == 0 || old(stack) == []
            || (if counted then |old(stack)| < capacity else old(stack)[0].code != code))
    {
      stackUpdated := false;
      if !available { return -1, false; }
      var previousError, previousRegister := Peek();
      var wasEmpty := previousError == 0 && previousRegister == 0;
      var previousCount, previousValid := history, !wasEmpty && counted;
      result := Push(code, register);
      if result == 0 { return 0, true; }
      var activeError, activeRegister := Peek();
      if wasEmpty {
        stackUpdated := activeError == code && activeRegister != 0;
      } else if previousValid {
        stackUpdated := activeError == code && history == previousCount + 1;
      } else if previousError != code && activeError == code {
        stackUpdated := true;
      }
    }

    /** The local read of 0x1003:00. */
    method ReadHistory() returns (ok: bool, count: nat)
      requires Valid()
      modifies this`checked, this`seen, this`unread
      ensures Valid() && count == history && (ok ==> counted)
      ensures checked && seen == stack && unread == (old(unread) || !ok)
    {
      ok, count := *, history;
      ok := ok && counted;
      checked, seen, unread := true, stack, unread || !ok;
    }

    /** `COEmcy::clear`: the stack is empty even if the recovery message cannot be sent. */
    method ClearAll() returns (result: int)
      requires Valid()
      modifies this`stack, this`history, this`touched, this`checked, this`wronged, this`acts
      ensures Valid() && stack == [] && acts == old(acts) + [Cleared(result != -1)]
      ensures var relied := if old(checked) then old(seen) else old(stack);
        wronged == old(wronged) + |relied| - Own(relied)
    {
      ghost var relied := if checked then seen else stack;
      OwnBound(relied);
      wronged := wronged + |relied| - Own(relied);
      checked := false;
      if stack != [] { touched, history := true, 0; }
      stack := [];
      result := *;
      acts := acts + [Cleared(result != -1)];
    }

    /** What the node shows after a push or a clear; `Snapshot` is about how it is read. */
    method Observe() returns (ok: bool)
      modifies this`acts
      ensures acts == old(acts) + [Observed(ok)]
    {
      ok := *;
      acts := acts + [Observed(ok)];
    }

    /** Reset Communication, the Boot after it, and the comparison of the diagnostic with the one before. */
    method ResetNode() returns (ok: bool)
      modifies this`acts
      ensures acts == old(acts) + [Reset(ok)]
    {
      ok := *;
      acts := acts + [Reset(ok)];
    }
  }

  /** An error has been pushed and seen by the node. */
  function Delivered(acts: seq<Act>, code: nat): seq<Act> {
    acts + [Pushed(code, true)] + [Observed(true)]
  }

  /** The stack has been cleared and the node has seen the recovery. */
  function Recovered(acts: seq<Act>): seq<Act> {
    acts + [Cleared(true)] + [Observed(true)]
  }

  /** Two errors one after the other, twice the same error, and one before and one after a reset. */
  function Script(acts: seq<Act>): seq<Act> {
    var consecutive := Recovered(Delivered(Delivered(acts, CODE_A), CODE_B));
    var duplicate := Recovered(Delivered(Delivered(consecutive, CODE_A), CODE_A));
    Recovered(Delivered(Delivered(duplicate, CODE_A) + [Reset(true)], CODE_B))
  }

  // ------------------------------------------------------------------------------------------------------------
  // Ownership
  // ------------------------------------------------------------------------------------------------------------

  /** The comparison before a clear, for a stack whose own errors are all accounted for. */
  lemma GuardIff(stack: seq<Entry>, capacity: nat)
    ensures Min(|stack|, capacity) == Own(stack) <==>
      (Own(stack) == |stack| <= capacity) || Own(stack) == capacity
  {
    OwnBound(stack);
  }

  /** `EmcyConsumerRuntimeState`, as far as it concerns the host. */
  class Runtime {
    const host: Host
    var hostErrorActive: bool
    var expectedHostErrorCount: nat
    /** How many errors others had pushed when the test began. */
    ghost const others: nat

    constructor (host: Host)
      requires host.Valid() && host.stack == []
      ensures this.host == host && Valid(0) && others == host.others
    {
      this.host, hostErrorActive, expectedHostErrorCount := host, false, 0;
      others := host.others;
    }

    /** Nothing has hindered the test: others pushed nothing, and 0x1003 could be read and showed the whole stack. */
    ghost predicate Unhindered()
      reads this, host
    {
      host.available && host.Shown() && !host.unread && host.others == others
    }

    /** The test never claims more errors than it owns. */
    ghost predicate Claims()
      reads this, host
    {
      && host.Valid() && (hostErrorActive <==> expectedHostErrorCount > 0)
      && expectedHostErrorCount <= Own(host.stack)
    }

    /** Every own error is claimed. */
    ghost predicate Exact()
      reads this, host
    {
      expectedHostErrorCount == Own(host.stack)
    }

    /**
     At every step: `most` bounds what the test owns, the claims are exact as long as 0x1003 has shown the whole stack,
     and the errors of others in the stack are among those pushed since the test began.
     */
    ghost predicate Valid(most: nat)
      reads this, host
    {
      && Claims() && Own(host.stack) <= most && (host.Shown() ==> Exact())
      && others <= host.others && |host.stack| - Own(host.stack) <= host.others - others
      && forall e | e in host.stack && e.own :: OfTest(e)
    }

    method Foreign(ghost most: nat)
      requires Valid(most)
      modifies host`stack, host`history, host`touched, host`others, host`crowded
      ensures Valid(most) && Own(host.stack) == old(Own(host.stack))
      ensures old(host.others) <= host.others && (old(host.crowded) ==> host.crowded)
      ensures host.others == old(host.others) ==> host.stack == old(host.stack)
    {
      host.Foreign();
      ghost var late: seq<Entry> :| host.stack == late + old(host.stack) && Own(late) == 0
        && host.others == old(host.others) + |late| && forall e | e in late :: !e.own;
      OwnConcat(late, old(host.stack));
    }

    /** `emitTestEmcy`: the claims stay exact, after a failed push too, as long as 0x1003 shows the whole stack. */
    method Emit(code: nat, ghost most: nat) returns (ok: bool)
      requires Valid(most) && (code == CODE_A || code == CODE_B)
      modifies this, host`stack, host`history, host`touched, host`others, host`crowded, host`acts
      ensures Valid(most + 1)
      ensures ok ==> hostErrorActive && host.acts == old(host.acts) + [Pushed(code, true)]
      ensures old(Exact()) && (ok || (host.counted && |host.stack| <= host.capacity)) ==> Exact()
    {
      Foreign(most);
      var result, updated := host.PushLocal(code, ERROR_REGISTER);
      if updated {
        hostErrorActive := true;
        expectedHostErrorCount := expectedHostErrorCount + 1;
      }
      ok := result == 0;
    }

    /** Unhindered, every error in the stack is the test's own. */
    lemma UnhinderedOwn(most: nat)
      requires Valid(most) && Unhindered()
      ensures |host.stack| == Own(host.stack) == expectedHostErrorCount <= host.capacity
      ensures forall e | e in host.stack :: OfTest(e)
    {
      OwnBound(host.stack);
    }

    /** The depth check. It refuses no stack of the test's own errors that 0x1003 shows. */
    method CheckDepth(ghost most: nat) returns (ok: bool)
      requires Valid(most)
      modifies host`stack, host`history, host`touched, host`others, host`crowded, host`checked, host`seen, host`unread
      ensures Valid(most) && (old(host.unread) ==> host.unread)
      ensures ok ==> host.checked && (most < host.capacity ==> |host.seen| == Own(host.seen))
      ensures !ok && Unhindered() ==> !hostErrorActive
    {
      Foreign(most);
      var readable, count := host.ReadHistory();
      ok := readable && count == expectedHostErrorCount;
      OwnBound(host.stack);
      if Unhindered() { UnhinderedOwn(most); }
    }

    /** The check of the newest error, likewise. */
    method CheckNewest(ghost most: nat) returns (empty: bool, ok: bool)
      requires Valid(most)
      modifies host`stack, host`history, host`touched, host`others, host`crowded
      ensures Valid(most) && Own(host.stack) == old(Own(host.stack))
      ensures empty ==> host.stack == []
      ensures ok ==> host.available
      ensures !empty && !ok ==> !Unhindered()
    {
      empty, ok := false, false;
      Foreign(most);
      if !host.available { return; }
      var code, register := host.Peek();
      empty := code == 0 && register == 0;
      ok := (code == CODE_A || code == CODE_B) && register == ERROR_REGISTER;
      if Unhindered() && !empty {
        UnhinderedOwn(most);
        CombinedOfTest(host.stack);
        assert OfTest(host.stack[0]);
      }
    }

    /**
     `clearLocalEmcy`. As long as 0x1003 has room for more errors than the test owns, the stack is cleared only if the
     check found no error of others in it; what others push after the check is lost with the stack. And the checks never
     stand in the way of the test's own errors: unhindered, they are gone afterwards even if no recovery could be sent.
     */
    method Clear(ghost most: nat) returns (ok: bool)
      requires Valid(most)
      modifies this, host
      ensures Valid(most)
      ensures most < host.capacity ==> host.wronged == old(host.wronged)
      ensures ok || Unhindered() ==> Own(host.stack) == 0 && !hostErrorActive
      ensures ok && old(hostErrorActive) ==> host.acts == old(host.acts) + [Cleared(true)]
    {
      ok := CheckDepth(most);
      if !ok { return; }
      var empty;
      empty, ok := CheckNewest(most);
      if empty {
        hostErrorActive := false;
        expectedHostErrorCount := 0;
        return true;
      }
      if !ok { return; }
      Foreign(most);
      var result := host.ClearAll();
      hostErrorActive := false;
      expectedHostErrorCount := 0;
      ok := result != -1;
    }

    /** `emitAndValidateVector`; the observation of the MCU may fail. */
    method EmitAndValidate(code: nat, ghost most: nat) returns (ok: bool)
      requires Valid(most) && (code == CODE_A || code == CODE_B)
      modifies this, host`stack, host`history, host`touched, host`others, host`crowded, host`acts
      ensures Valid(most + 1)
      ensures ok ==> hostErrorActive && host.acts == Delivered(old(host.acts), code)
    {
      ok := Emit(code, most);
      if ok { ok := host.Observe(); }
    }

    /** `clearAndValidateRecovery`. */
    method ClearAndValidate(ghost most: nat) returns (ok: bool)
      requires Valid(most)
      modifies this, host
      ensures Valid(most)
      ensures most < host.capacity ==> host.wronged == old(host.wronged)
      ensures ok ==> Valid(0) && !hostErrorActive && host.acts == Recovered(old(host.acts))
    {
      ok := false;
      if !hostErrorActive { return; }
      ok := Clear(most);
      if ok { ok := host.Observe(); }
    }

    /** `validateResetRebind`: one error before the reset, one after it, one clear. */
    method ValidateResetRebind() returns (ok: bool)
      requires Valid(0)
      modifies this, host
      ensures Valid(2)
      ensures 2 < host.capacity ==> host.wronged == old(host.wronged)
      ensures ok ==> Valid(0) && !hostErrorActive
      ensures ok ==> host.acts == Recovered(Delivered(Delivered(old(host.acts), CODE_A) + [Reset(true)], CODE_B))
    {
      ok := false;
      if hostErrorActive { return; }
      ok := EmitAndValidate(CODE_A, 0);
      if !ok { return; }
      ok := host.ResetNode();
      if !ok { return; }
      ok := EmitAndValidate(CODE_B, 1);
      if !ok { return; }
      ok := ClearAndValidate(2);
      var operational: bool := *;
      ok := ok && operational;
    }

    /** `runEmcyConsumerValidation`. */
    method Validate() returns (ok: bool)
      requires Valid(0)
      modifies this, host
      ensures Valid(2)
      ensures 2 < host.capacity ==> host.wronged == old(host.wronged)
      ensures ok ==> Valid(0) && !hostErrorActive && host.acts == Script(old(host.acts))
    {
      var available: bool, healthy: bool := *, *;
      ok := false;
      if !available { return; }
      ok := EmitAndValidate(CODE_A, 0);
      if !ok { return; }
      ok := EmitAndValidate(CODE_B, 1);
      if !ok { return; }
      ok := ClearAndValidate(2);
      if !ok { return; }
      ok := EmitAndValidate(CODE_A, 0);
      if !ok { return; }
      ok := EmitAndValidate(CODE_A, 1);
      if !ok { return; }
      ok := ClearAndValidate(2);
      if !ok || !healthy { return false; }
      ok := ValidateResetRebind();
    }

    /** The validation and the cleanup after it, which clears whatever the test still claims. */
    method ValidateAndCleanUp() returns (result: nat)
      requires Valid(0)
      modifies this, host
      ensures Valid(2)
      ensures 2 < host.capacity ==> host.wronged == old(host.wronged)
      ensures result == 0 ==> host.acts == Script(old(host.acts))
      ensures result == 0 || Unhindered() ==> Own(host.stack) == 0 && !hostErrorActive
    {
      var ok := Validate();
      result := if ok then 0 else 1;
      if hostErrorActive {
        ok := Clear(2);
        if !ok { result := 1; }
      }
      var operational: bool := *;
      if !operational { result := 1; }
    }
  }

  /**
   `emcyConsumerProcess`. The test starts only on an empty stack. An error of others that was there when the test
   checked is never cleared, provided 0x1003 has room for three errors. A result of 0 means that the whole script has
   been played, leaves no error of the test behind, and the stack holds no more errors than others have pushed: it is
   empty if they pushed none. Unhindered, the stack is empty afterwards whatever the result.
   */
  method Process(host: Host) returns (result: nat)
    requires host.Valid()
    modifies host
    ensures host.Valid() && old(host.others) <= host.others
    ensures 2 < host.capacity ==> host.wronged == old(host.wronged)
    ensures result == 0 ==>
      old(host.stack) == [] && Own(host.stack) == 0 && |host.stack| <= host.others - old(host.others)
    ensures result == 0 ==> host.acts == Script(old(host.acts))
    ensures old(host.stack) != [] ==> host.stack == old(host.stack)
    ensures old(host.stack) == [] && host.Shown() && !host.unread && host.others == old(host.others) ==>
      host.stack == []
  {
    result := 1;
    var configured: bool := *;
    if !configured || !host.available { return; }
    var code, register := host.Peek();
    if code != 0 || register != 0 { return; }
    var runtime := new Runtime(host);
    result := runtime.ValidateAndCleanUp();
  }
}
