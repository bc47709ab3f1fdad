/**
 The EEPROM persistence test: raw transfers of one to four bytes through the diagnostic record 0x2305, capture and
 restoration of the raw region, and the five modes built on them.

 The target executes a pending diagnostic command whenever it likes. A save or restore-defaults command that was not
 confirmed may still change the region until a fresh Boot. Nothing else writes the EEPROM.
 */
module Storage {
  import opened Bits
  import Crc
  import RemoteNode

  const SUCCESS: int := 1
  const COMM_SUBINDEX: Byte := 2
  const EEPROM_SIZE: nat := 16384
  const PAGE_SIZE: nat := 64
  const ADDR_INPUT: nat := 1

  datatype Command = Refresh | Backup | Restore | CorruptSignature | CorruptData | RawRead | RawWrite

  /** The request fields of 0x2305. */
  datatype Fields = Fields(command: Command, entry: Byte, offset: nat, size: Byte, value: Word)

  /** What is done to the EEPROM: a diagnostic command, 0x1010:02 save, 0x1011:02 restore defaults, or a Boot. */
  datatype Act =
    | Ran(fields: Fields)
    | Saved(outcome: RemoteNode.Outcome)
    | Defaulted(outcome: RemoteNode.Outcome)
    | Booted

  // ------------------------------------------------------------------------------------------------------------
  // Layout
  // ------------------------------------------------------------------------------------------------------------

  /** `StorageLayout`, without the signature value. */
  datatype Layout = Layout(
    storageOffset: Word, eepromSize: Word, pageSize: Half, addrInput: Byte, signatureAddress: Word,
    dataAddress: Word, dataLength: Word, rawStart: Word, rawLength: Word)

  /** `validateLayout`. */
  predicate ValidateLayout(l: Layout) {
    && l.eepromSize == EEPROM_SIZE && l.pageSize == PAGE_SIZE && l.addrInput == ADDR_INPUT && l.rawLength != 0
    && l.storageOffset == l.signatureAddress && l.rawStart == l.storageOffset
    && l.dataAddress >= l.signatureAddress && l.dataAddress + l.dataLength == l.rawStart + l.rawLength
    && l.rawStart + l.rawLength <= l.eepromSize && l.dataLength <= 0xFFFF
  }

  /**
   A valid layout is a region inside the EEPROM whose tail is the payload. The first payload byte, which the core mode
   flips, lies inside the region exactly if the payload is not empty; the layout check does not require that.
   */
  lemma FirstPayloadByte(l: Layout)
    requires ValidateLayout(l)
    ensures l.rawStart <= l.dataAddress <= l.rawStart + l.rawLength <= EEPROM_SIZE
    ensures l.dataAddress - l.rawStart < l.rawLength <==> l.dataLength > 0
    ensures ValidateLayout(l.(dataAddress := l.rawStart + l.rawLength, dataLength := 0))
  {}

  // ------------------------------------------------------------------------------------------------------------
  // The handshake
  // ------------------------------------------------------------------------------------------------------------

  /** `fields` after the `k`-th field download of a command `f`. */
  function PutField(fields: Fields, f: Fields, k: nat): Fields {
    match k
    case 0 => fields.(entry := f.entry)
    case 1 => fields.(offset := f.offset)
    case 2 => fields.(size := f.size)
    case 3 => fields.(value := f.value)
    case 4 => fields.(command := f.command)
    case _ => fields
  }

  /** The record after the first `k` field downloads. */
  function Mixed(fields: Fields, f: Fields, k: nat): Fields {
    if k == 0 then fields else PutField(Mixed(fields, f, k - 1), f, k - 1)
  }

  lemma MixedAll(fields: Fields, f: Fields)
    ensures Mixed(fields, f, 5) == f
  {
    assert Mixed(fields, f, 1).entry == f.entry;
    assert Mixed(fields, f, 2).offset == f.offset;
    assert Mixed(fields, f, 3).size == f.size;
    assert Mixed(fields, f, 4).value == f.value;
  }

  /** What the handshake consists of, on the side of the target. */
  datatype View = View(fields: Fields, requestSeq: Word, completeSeq: Word, acts: seq<Act>) {
    predicate Pending() { requestSeq != completeSeq }

    /** The target may execute a pending command, if it `runs`. */
    function Turn(runs: bool): View {
      if runs && Pending() then this.(completeSeq := requestSeq, acts := acts + [Ran(fields)]) else this
    }

    /** The `k`-th download: five fields, then the sequence that commits them. */
    function Put(f: Fields, k: nat): View {
      if k < 5 then this.(fields := PutField(fields, f, k))
      else if k == 5 then this.(requestSeq := NextSequence(requestSeq))
      else this
    }

    /** The downloads of `f` in order, with a turn of the target before each of them and, as the seventh, one after. */
    function Played(f: Fields, turns: seq<bool>): View
      decreases |turns|
    {
      if turns == [] then this
      else
        var n := |turns| - 1;
        Played(f, turns[..n]).Turn(turns[n]).Put(f, n)
    }

    /** The poll finds the sequence it waits for. */
    predicate Matched(f: Fields, turns: seq<bool>) {
      |turns| == 7 && Played(f, turns).completeSeq == NextSequence(requestSeq)
    }
  }

  lemma {:induction false} Shape(v: View, f: Fields, turns: seq<bool>)
    requires |turns| <= 7
    ensures var w := v.Played(f, turns);
      && w.fields == Mixed(v.fields, f, if |turns| < 5 then |turns| else 5)
      && w.requestSeq == if |turns| <= 5 then v.requestSeq else NextSequence(v.requestSeq)
    decreases |turns|
  {
    if turns != [] { Shape(v, f, turns[..|turns| - 1]); }
  }

  /** Before the commit a pending command is executed at most once, with the fields downloaded by then. */
  lemma {:induction false} BeforeCommit(v: View, f: Fields, turns: seq<bool>) returns (k: nat)
    requires |turns| <= 6
    ensures k <= 5
    ensures var w := v.Played(f, turns);
      || (w.completeSeq == v.completeSeq && w.acts == v.acts)
      || (v.Pending() && w.completeSeq == v.requestSeq && w.acts == v.acts + [Ran(Mixed(v.fields, f, k))])
    decreases |turns|
  {
    k := 0;
    if turns != [] {
      var n := |turns| - 1;
      k := BeforeCommit(v, f, turns[..n]);
      Shape(v, f, turns[..n]);
      var before := v.Played(f, turns[..n]);
      if before.acts == v.acts && before.completeSeq == v.completeSeq { k := n; }
    }
  }

  /**
   What a matching poll means for a target in any state. From an idle one exactly this command has been executed. A
   pending command may have been executed before it, with some of its fields replaced. And if the completion sequence
   was already the awaited one, either nothing has been executed, or that pending command first.
   */
  lemma Handshake(v: View, f: Fields, turns: seq<bool>) returns (k: nat)
    requires v.Matched(f, turns)
    ensures k <= 5
    ensures var acts := v.Played(f, turns).acts;
      || (acts == v.acts + [Ran(f)] && v.completeSeq != NextSequence(v.requestSeq))
      || (acts == v.acts + [Ran(Mixed(v.fields, f, k)), Ran(f)] && v.Pending())
      || (acts == v.acts && v.completeSeq == NextSequence(v.requestSeq))
  {
    k := BeforeCommit(v, f, turns[..6]);
    Shape(v, f, turns[..6]);
    MixedAll(v.fields, f);
    var committed := v.Played(f, turns[..6]);
    assert v.Played(f, turns) == committed.Turn(turns[6]);
    if committed.acts != v.acts {
      assert committed.acts + [Ran(f)] == v.acts + [Ran(Mixed(v.fields, f, k)), Ran(f)];
    }
  }

  /** Without turns of the target only the downloads happen. */
  lemma {:induction false} Quiet(v: View, f: Fields, turns: seq<bool>, n: nat)
    ensures var before, after := v.Played(f, turns), v.Played(f, turns + seq(n, _ => false));
      after.completeSeq == before.completeSeq && after.acts == before.acts
    decreases n
  {
    if n == 0 {
      assert turns + seq(n, _ => false) == turns;
    } else {
      Quiet(v, f, turns, n - 1);
      var all := turns + seq(n, _ => false);
      assert all[..|all| - 1] == turns + seq(n - 1, _ => false);
    }
  }

  /** The completion sequence is already the awaited one: the poll matches although nothing has been executed. */
  lemma StaleMatch(v: View, f: Fields) returns (turns: seq<bool>)
    requires v.completeSeq == NextSequence(v.requestSeq)
    ensures v.Matched(f, turns) && v.Played(f, turns).acts == v.acts
  {
    turns := [] + seq(7, _ => false);
    Quiet(v, f, [], 7);
  }

  /** A command is pending: it may be executed with the first `k` of its fields replaced, before the right one. */
  lemma HalfWritten(v: View, f: Fields, k: nat) returns (turns: seq<bool>)
    requires v.Pending() && k <= 5
    ensures v.Matched(f, turns) && v.Played(f, turns).acts == v.acts + [Ran(Mixed(v.fields, f, k)), Ran(f)]
  {
    var early := [] + seq(k, _ => false);
    Quiet(v, f, [], k);
    Shape(v, f, early);
    var upTo := early + [true];
    assert upTo[..k] == early;
    assert v.Played(f, upTo).acts == v.acts + [Ran(Mixed(v.fields, f, k))];
    var committed := upTo + seq(5 - k, _ => false);
    Quiet(v, f, upTo, 5 - k);
    Shape(v, f, committed);
    MixedAll(v.fields, f);
    turns := committed + [true];
    assert turns[..6] == committed;
    assert v.acts + [Ran(Mixed(v.fields, f, k))] + [Ran(f)] == v.acts + [Ran(Mixed(v.fields, f, k)), Ran(f)];
  }

  /** However the target runs, a matching poll means exactly the commanded request if and only if nothing is pending. */
  lemma ExactlyThisCommand(v: View, f: Fields)
    ensures (forall turns | v.Matched(f, turns) :: v.Played(f, turns).acts == v.acts + [Ran(f)]) <==> !v.Pending()
  {
    if v.Pending() {
      var turns := HalfWritten(v, f, 0);
      assert |v.Played(f, turns).acts| == |v.acts| + 2;
    } else {
      forall turns | v.Matched(f, turns) ensures v.Played(f, turns).acts == v.acts + [Ran(f)] {
        var k := Handshake(v, f, turns);
      }
    }
  }

  /**
   Two targets for which a matching poll is no proof. In the first a write of other octets is executed at the address
   meant for a read, and then the read; in the second nothing is executed at all.
   */
  lemma MatchWithoutProof() returns (written: seq<bool>, stale: seq<bool>)
    ensures var f := Fields(RawRead, COMM_SUBINDEX, 0, 4, 0);
      var pending := View(Fields(RawWrite, COMM_SUBINDEX, 64, 4, 0xFFFF_FFFF), 5, 4, []);
      && pending.Matched(f, written)
      && pending.Played(f, written).acts ==
        [Ran(Fields(RawWrite, COMM_SUBINDEX, 0, 4, 0xFFFF_FFFF)), Ran(f)]
    ensures var f := Fields(RawRead, COMM_SUBINDEX, 0, 4, 0);
      var ahead := View(f, 5, 6, []);
      ahead.Matched(f, stale) && ahead.Played(f, stale).acts == []
  {
    var f := Fields(RawRead, COMM_SUBINDEX, 0, 4, 0);
    var old0 := Fields(RawWrite, COMM_SUBINDEX, 64, 4, 0xFFFF_FFFF);
    written := HalfWritten(View(old0, 5, 4, []), f, 2);
    assert Mixed(old0, f, 1) == old0;
    stale := StaleMatch(View(f, 5, 6, []), f);
  }

  /** Another turn of the target and another download. */
  lemma PlayedSnoc(v: View, f: Fields, turns: seq<bool>, runs: bool)
    ensures v.Played(f, turns + [runs]) == v.Played(f, turns).Turn(runs).Put(f, |turns|)
  {
    assert (turns + [runs])[..|turns|] == turns;
  }

  /** After the six downloads there is none. */
  lemma SeventhPut(v: View, f: Fields)
    ensures v.Put(f, 6) == v
  {}

  /** Two turns before the first download are like one. */
  lemma {:induction false} EarlyTurn(v: View, f: Fields, early: bool, turns: seq<bool>)
    requires turns != []
    ensures v.Turn(early).Played(f, turns) == v.Played(f, [early || turns[0]] + turns[1..])
    decreases |turns|
  {
    var n := |turns| - 1;
    var merged := [early || turns[0]] + turns[1..];
    if n == 0 {
      assert turns[..0] == merged[..0] == [];
    } else {
      EarlyTurn(v, f, early, turns[..n]);
      assert merged[..n] == [early || turns[..n][0]] + turns[..n][1..];
    }
  }

  // ------------------------------------------------------------------------------------------------------------
  // The target
  // ------------------------------------------------------------------------------------------------------------

  /** `region` with `bytes` written at `offset`. */
  function Spliced(region: seq<Byte>, offset: nat, bytes: seq<Byte>): (r: seq<Byte>)
    requires offset + |bytes| <= |region|
    ensures |r| == |region|
  {
    region[..offset] + bytes + region[offset + |bytes|..]
  }

  class Target {
    /** What the target reports as its layout; the raw region lies inside its EEPROM. */
    const layout: Layout
    const start: nat := layout.rawStart
    const length: nat := layout.rawLength
    var eeprom: seq<Byte>
    var fields: Fields
    var requestSeq: Word
    var completeSeq: Word
    var result: int
    var rawValue: Word
    var backup: seq<Byte>
    var backupCrc: Half
    var backupValid: bool
    /** An unconfirmed save or restore-defaults command may still run. */
    var restless: bool
    /** What has been done to the EEPROM so far. */
    ghost var acts: seq<Act>

    ghost predicate Valid()
      reads this
    {
      start + length <= |eeprom|
    }

    /** How the target appears to the handshake. */
    ghost function Now(): View
      reads this
    {
      View(fields, requestSeq, completeSeq, acts)
    }

    /** The signature table and the communication payload. */
    ghost function Region(): (r: seq<Byte>)
      requires Valid()
      reads this
      ensures |r| == length
    {
      eeprom[start..start + length]
    }

    /** No command is pending and nothing else may still write. */
    ghost predicate Calm()
      reads this
    {
      requestSeq == completeSeq && !restless
    }

    /** Only the region ever changes. */
    twostate predicate Outside()
      requires old(Valid()) && Valid()
      reads this
    {
      |eeprom| == old(|eeprom|) && eeprom[..start] == old(eeprom[..start])
      && eeprom[start + length..] == old(eeprom[start + length..])
    }

    /** A command that reports success on a region that was `before`. */
    ghost predicate Done(f: Fields, before: seq<Byte>)
      requires Valid() && |before| == length
      reads this
    {
      match f.command
      case Refresh => Region() == before
      case Backup => Region() == before && backupValid && backup == before && backupCrc == Crc.Fold(0, before)
      case RawRead =>
        && 1 <= f.size <= 4 && f.offset + f.size <= length && Region() == before
        && rawValue == FromLe(before[f.offset..f.offset + f.size])
      case RawWrite =>
        && 1 <= f.size <= 4 && f.offset + f.size <= length
        && Region() == Spliced(before, f.offset, Le(f.value, f.size))
      case _ => true
    }

    /** Overwrite the region. */
    method Store(region: seq<Byte>)
      requires Valid() && |region| == length
      modifies this`eeprom
      ensures Valid() && Outside() && Region() == region
    {
      eeprom := eeprom[..start] + region + eeprom[start + length..];
    }

    /** Any change of the region. */
    method Scribble()
      requires Valid()
      modifies this`eeprom
      ensures Valid() && Outside()
    {
      var region: seq<Byte> := *;
      if |region| == length { Store(region); }
    }

    /** An access inside the region, of one to four bytes. */
    predicate InRange()
      reads this`fields
    {
      1 <= fields.size <= 4 && fields.offset + fields.size <= length
    }

    method ReadRaw(region: seq<Byte>)
      requires |region| == length
      modifies this`rawValue, this`result
      ensures if InRange() then
          rawValue == FromLe(region[fields.offset..fields.offset + fields.size]) && result == old(result)
        else result == 0
    {
      if InRange() {
        var bytes := region[fields.offset..fields.offset + fields.size];
        LeOfFromLe(bytes);
        Pow2Small(fields.size);
        rawValue := FromLe(bytes);
      } else {
        result := 0;
      }
    }

    method WriteRaw(region: seq<Byte>, works: bool)
      requires Valid() && |region| == length
      modifies this`eeprom, this`result
      ensures Valid() && Outside()
      ensures if works && InRange() then
          Region() == Spliced(region, fields.offset, Le(fields.value, fields.size)) && result == old(result)
        else result == 0
    {
      if works && InRange() {
        Store(Spliced(region, fields.offset, Le(fields.value, fields.size)));
      } else {
        result := 0;
        Scribble();
      }
    }

    /** Execute the pending command; whatever fails may leave the region in any state. */
    method Execute()
      requires Valid()
      modifies this
      ensures Valid() && Outside() && completeSeq == requestSeq == old(requestSeq)
      ensures fields == old(fields) && restless == old(restless) && acts == old(acts) + [Ran(fields)]
      ensures result == SUCCESS ==> Done(fields, old(Region()))
    {
      var works: bool := *;
      result := if works then SUCCESS else 0;
      var region := eeprom[start..start + length];
      match fields.command {
        case Refresh =>
        case Backup =>
          backup := region;
          backupCrc := Crc.Checksum(backup);
          backupValid := works;
        case RawRead =>
          ReadRaw(region);
        case RawWrite =>
          WriteRaw(region, works);
        case _ =>
          Scribble();
      }
      completeSeq := requestSeq;
      acts := acts + [Ran(fields)];
    }

    /** The target may execute a pending command, and whatever was unconfirmed may happen. */
    method Run()
      requires Valid()
      modifies this
      ensures Valid() && Outside() && restless == old(restless)
      ensures Now() == old(Now()).Turn(acts != old(acts))
      ensures old(Calm()) ==> Unchanged()
      ensures !restless ==>
        || Unchanged()
        || (Calm() && acts == old(acts) + [Ran(fields)] && (result == SUCCESS ==> Done(fields, old(Region()))))
    {
      var executes: bool, scribbles: bool := *, *;
      if restless && scribbles { Scribble(); }
      if executes && requestSeq != completeSeq { Execute(); }
    }

    /** Nothing but time has passed. */
    twostate predicate Unchanged()
      reads this
    {
      && eeprom == old(eeprom) && completeSeq == old(completeSeq) && result == old(result)
      && rawValue == old(rawValue) && requestSeq == old(requestSeq) && fields == old(fields)
      && backup == old(backup) && backupCrc == old(backupCrc) && backupValid == old(backupValid)
      && restless == old(restless) && acts == old(acts)
    }

    /** The `k`-th field download of `f`. If it failed it may have landed. */
    method WriteField(f: Fields, k: nat, ghost v: View, ghost turns: seq<bool>)
      returns (ok: bool, ghost more: seq<bool>)
      requires Valid() && |turns| == k < 5 && Now() == v.Played(f, turns)
      modifies this
      ensures Valid() && Outside() && restless == old(restless)
      ensures old(Calm()) ==> Calm() && eeprom == old(eeprom) && acts == old(acts)
      ensures ok ==> |more| == k + 1 && Now() == v.Played(f, more)
    {
      Run();
      more := turns + [acts != old(acts)];
      PlayedSnoc(v, f, turns, acts != old(acts));
      var landed: bool := *;
      ok := *;
      if ok || landed { fields := PutField(fields, f, k); }
    }
  }

  lemma Pow2Small(n: nat)
    requires n <= 4
    ensures Pow2(8 * n) <= 0x1_0000_0000
  {
    Pow2Word();
    if n < 4 { Pow2Sum(8 * n, 8 * (4 - n)); }
  }

  lemma {:induction false} FromLeSnoc(bytes: seq<Byte>, b: Byte)
    ensures FromLe(bytes + [b]) == FromLe(bytes) + Pow2(8 * |bytes|) * b
  {
    if bytes != [] {
      FromLeSnoc(bytes[1..], b);
      assert (bytes + [b])[1..] == bytes[1..] + [b];
      Pow2Word();
      Pow2Sum(8, 8 * (|bytes| - 1));
      hide Pow2;
      var p := Pow2(8 * (|bytes| - 1));
      assert 0x100 * (p * b) == (0x100 * p) * b;
    } else {
      assert [b][1..] == [];
    }
  }

  // ------------------------------------------------------------------------------------------------------------
  // Commands
  // ------------------------------------------------------------------------------------------------------------

  /** The five request fields, each in its own download. */
  method WriteFields(target: Target, f: Fields) returns (ok: bool, ghost turns: seq<bool>)
    requires target.Valid()
    modifies target
    ensures target.Valid() && target.Outside() && target.restless == old(target.restless)
    ensures old(target.Calm()) ==>
      target.Calm() && target.eeprom == old(target.eeprom) && target.acts == old(target.acts)
    ensures ok ==> |turns| == 5 && target.Now() == old(target.Now()).Played(f, turns)
  {
    ghost var v := target.Now();
    ok, turns := target.WriteField(f, 0, v, []);
    if !ok { return; }
    hide View.Played, View.Turn, View.Put;
    ok, turns := target.WriteField(f, 1, v, turns);
    if !ok { return; }
    ok, turns := target.WriteField(f, 2, v, turns);
    if !ok { return; }
    ok, turns := target.WriteField(f, 3, v, turns);
    if !ok { return; }
    ok, turns := target.WriteField(f, 4, v, turns);
  }

  /** Committed, with something else to wait for: still pending, or executed exactly as written. */
  twostate predicate Committed(target: Target, f: Fields)
    requires old(target.Valid()) && target.Valid()
    reads target
  {
    && !target.restless && target.fields == f
    && (target.requestSeq == target.completeSeq ==>
          && target.acts == old(target.acts) + [Ran(f)]
          && (target.result == SUCCESS ==> target.Done(f, old(target.Region()))))
    && (target.requestSeq != target.completeSeq ==>
          target.acts == old(target.acts) && target.eeprom == old(target.eeprom))
  }

  /** The downloads of `runDiagnosticCommand`, after the sequence has been read. */
  method Submit(target: Target, f: Fields, sequence: Word) returns (ok: bool, ghost turns: seq<bool>)
    requires target.Valid() && sequence == NextSequence(target.requestSeq)
    modifies target
    ensures target.Valid() && target.Outside() && target.restless == old(target.restless)
    ensures ok ==> |turns| == 6 && target.Now() == old(target.Now()).Played(f, turns)
    ensures ok && old(target.Calm()) ==>
      target.eeprom == old(target.eeprom) && target.acts == old(target.acts)
  {
    ghost var v := target.Now();
    ok, turns := WriteFields(target, f);
    if !ok { return; }
    Shape(v, f, turns);
    ghost var acts := target.acts;
    target.Run();
    PlayedSnoc(v, f, turns, target.acts != acts);
    turns := turns + [target.acts != acts];
    ok := *;
    var landed: bool := *;
    if ok || landed { target.requestSeq := sequence; }
  }

  /** Everything up to the commit: the sequence to wait for is the awaited one already only if it was so before. */
  method Commit(target: Target, f: Fields) returns (ok: bool, sequence: Word, ghost turns: seq<bool>)
    requires target.Valid()
    modifies target
    ensures target.Valid() && target.Outside() && target.restless == old(target.restless)
    ensures ok ==> |turns| == 6 && target.Now() == old(target.Now()).Played(f, turns)
    ensures ok ==> target.fields == f && target.requestSeq == sequence == NextSequence(old(target.requestSeq))
    ensures ok && target.completeSeq == sequence ==> old(target.completeSeq) == sequence
    ensures ok && old(target.Calm()) ==>
      target.eeprom == old(target.eeprom) && target.acts == old(target.acts)
  {
    hide View.Played, View.Put;
    ghost var v := target.Now();
    target.Run();
    ok := *;
    turns := [];
    sequence := NextSequence(target.requestSeq);
    if !ok { return; }
    ghost var early := target.acts != v.acts;
    ok, turns := Submit(target, f, sequence);
    if !ok { return; }
    EarlyTurn(v, f, early, turns);
    turns := [early || turns[0]] + turns[1..];
    Shape(v, f, turns);
    MixedAll(v.fields, f);
    ghost var k := BeforeCommit(v, f, turns);
  }

  /** The poll for the sequence. */
  method Await(target: Target, f: Fields, sequence: Word) returns (ok: bool, value: Word)
    requires target.Valid() && target.fields == f && target.requestSeq == sequence
    modifies target
    ensures target.Valid() && target.Outside() && target.restless == old(target.restless)
    ensures target.Now() == old(target.Now()).Turn(target.acts != old(target.acts))
    ensures ok ==> target.completeSeq == target.requestSeq == sequence && value == target.rawValue
    ensures ok && !target.restless && old(target.completeSeq) != sequence ==>
      target.acts == old(target.acts) + [Ran(f)] && target.Done(f, old(target.Region()))
  {
    ghost var pending := !target.restless && target.completeSeq != sequence;
    value := 0;
    var polls: nat := *;
    while polls > 0
      invariant target.Valid() && target.Outside() && target.restless == old(target.restless)
      invariant target.Now() == old(target.Now()).Turn(target.acts != old(target.acts))
      invariant pending ==> Committed(target, f)
    {
      polls := polls - 1;
      target.Run();
      ok := *;
      if !ok { return; }
      if target.completeSeq == sequence {
        target.Run();
        if target.result != SUCCESS { return false, value; }
        target.Run();
        ok := *;
        value := target.rawValue;
        return;
      }
    }
    ok := false;
  }

  /** A successful command on a target without stray writers, seen from what the region was just before it. */
  ghost predicate Performed(target: Target, f: Fields, region: seq<Byte>)
    requires target.Valid()
    reads target
  {
    |region| == target.length && target.Done(f, region)
  }

  /**
   `runDiagnosticCommand`. The record is reused without a check that the target is idle. Success means that the poll
   matched in one of the runs that `Handshake` describes. Unless it matched too early, the target is idle again and this
   command, with these fields, was the last one executed, and successful; on a calm target it was the only one.
   */
  method RunCommand(target: Target, f: Fields) returns (ok: bool, value: Word)
    requires target.Valid()
    modifies target
    ensures target.Valid() && target.Outside() && target.restless == old(target.restless)
    ensures ok ==>
      exists turns | old(target.Now()).Matched(f, turns) :: target.Now() == old(target.Now()).Played(f, turns)
    ensures ok && !target.restless && old(target.completeSeq) != NextSequence(old(target.requestSeq)) ==>
      target.Calm() && value == target.rawValue && exists region :: Performed(target, f, region)
    ensures ok && old(target.Calm()) ==>
      && target.Calm() && target.Done(f, old(target.Region())) && value == target.rawValue
      && target.acts == old(target.acts) + [Ran(f)]
  {
    hide View.Played, View.Turn, View.Put, Target.Done;
    ghost var v, turns := target.Now(), [];
    value := 0;
    var sequence;
    ok, sequence, turns := Commit(target, f);
    if !ok { return; }
    ghost var acts, region := target.acts, target.Region();
    ok, value := Await(target, f, sequence);
    PlayedSnoc(v, f, turns, target.acts != acts);
    SeventhPut(v.Played(f, turns).Turn(target.acts != acts), f);
    turns := turns + [target.acts != acts];
    assert ok && !target.restless && v.completeSeq != sequence ==> Performed(target, f, region);
  }

  // ------------------------------------------------------------------------------------------------------------
  // The raw region
  // ------------------------------------------------------------------------------------------------------------

  /** The next transfer: one to four bytes. */
  function Chunk(length: nat, offset: nat): (chunk: Byte)
    requires offset < length
    ensures 1 <= chunk <= 4 && offset + chunk <= length
  {
    if length - offset < 4 then length - offset else 4
  }

  lemma SplicedNone(region: seq<Byte>, offset: nat)
    requires offset <= |region|
    ensures Spliced(region, offset, []) == region
  {}

  lemma SplicedSnoc(region: seq<Byte>, offset: nat, bytes: seq<Byte>, b: Byte)
    requires offset + |bytes| < |region|
    ensures Spliced(region, offset, bytes)[offset + |bytes| := b] == Spliced(region, offset, bytes + [b])
  {}

  /** Take a word apart, lowest byte first. */
  method Unpack(word: Word, raw: array<Byte>, offset: nat, chunk: nat)
    requires offset + chunk <= raw.Length
    modifies raw
    ensures raw[..] == Spliced(old(raw[..]), offset, Le(word, chunk))
  {
    hide Le, Spliced;
    SplicedNone(raw[..], offset);
    var rest, i := word, 0;
    ghost var done: seq<Byte> := [];
    while i < chunk
      invariant i <= chunk && |done| == i && done + Le(rest, chunk - i) == Le(word, chunk)
      invariant raw[..] == Spliced(old(raw[..]), offset, done)
    {
      LeStep(rest, chunk - i);
      SplicedSnoc(old(raw[..]), offset, done, rest % 0x100);
      raw[offset + i] := rest % 0x100;
      done := done + [rest % 0x100];
      rest := rest / 0x100;
      i := i + 1;
    }
    LeNone(rest);
    assert done == Le(word, chunk);
  }

  /** Put a word together. */
  method Pack(bytes: seq<Byte>) returns (word: nat)
    ensures word == FromLe(bytes)
  {
    word := 0;
    var i: nat, scale: nat := 0, 1;
    while i < |bytes|
      invariant i <= |bytes| && word == FromLe(bytes[..i]) && scale == Pow2(8 * i)
    {
      FromLeSnoc(bytes[..i], bytes[i]);
      assert bytes[..i] + [bytes[i]] == bytes[..i + 1];
      Pow2Word();
      Pow2Sum(8 * i, 8);
      word := word + scale * bytes[i];
      scale := scale * 0x100;
      i := i + 1;
    }
    assert bytes[..i] == bytes;
  }

  /** The word that carries the next bytes. */
  function Word32(bytes: seq<Byte>): Word
    requires |bytes| <= 4
  {
    LeOfFromLe(bytes);
    Pow2Small(|bytes|);
    FromLe(bytes)
  }

  /** What has been done after the region was read from `offset` on. */
  function Reads(length: nat, offset: nat): seq<Act>
    decreases length - offset
  {
    if offset >= length then []
    else
      var chunk := Chunk(length, offset);
      [Ran(Fields(RawRead, COMM_SUBINDEX, offset, chunk, 0))] + Reads(length, offset + chunk)
  }

  function Writes(raw: seq<Byte>, offset: nat): seq<Act>
    decreases |raw| - offset
  {
    if offset >= |raw| then []
    else
      var chunk := Chunk(|raw|, offset);
      var word := Word32(raw[offset..offset + chunk]);
      [Ran(Fields(RawWrite, COMM_SUBINDEX, offset, chunk, word))] + Writes(raw, offset + chunk)
  }

  lemma ReadsStep(acts: seq<Act>, length: nat, offset: nat)
    requires offset < length
    ensures var chunk := Chunk(length, offset);
      acts + [Ran(Fields(RawRead, COMM_SUBINDEX, offset, chunk, 0))] + Reads(length, offset + chunk)
      == acts + Reads(length, offset)
  {}

  lemma WritesStep(acts: seq<Act>, raw: seq<Byte>, offset: nat)
    requires offset < |raw|
    ensures var chunk := Chunk(|raw|, offset);
      var word := Word32(raw[offset..offset + chunk]);
      acts + [Ran(Fields(RawWrite, COMM_SUBINDEX, offset, chunk, word))] + Writes(raw, offset + chunk)
      == acts + Writes(raw, offset)
  {}

  lemma ReadsDone(acts: seq<Act>, length: nat)
    ensures acts + Reads(length, length) == acts
  {}

  lemma WritesDone(acts: seq<Act>, raw: seq<Byte>)
    ensures acts + Writes(raw, |raw|) == acts
  {}

  /** After every byte of the region has been written and read back. */
  function Rewritten(acts: seq<Act>, raw: seq<Byte>): seq<Act> {
    acts + Writes(raw, 0) + Reads(|raw|, 0)
  }

  lemma SplicedPrefix(a: seq<Byte>, b: seq<Byte>, offset: nat, chunk: nat)
    requires |a| == |b| && offset + chunk <= |a| && a[..offset] == b[..offset]
    ensures Spliced(a, offset, b[offset..offset + chunk])[..offset + chunk] == b[..offset + chunk]
  {}

  /** `readRawRegion`: every byte of the region, each exactly once. */
  method ReadRawRegion(target: Target) returns (ok: bool, raw: array<Byte>)
    requires target.Valid()
    modifies target
    ensures target.Valid() && target.Outside() && target.restless == old(target.restless)
    ensures fresh(raw) && raw.Length == target.length
    ensures ok && old(target.Calm()) ==>
      && target.Calm() && target.eeprom == old(target.eeprom) && raw[..] == target.Region()
      && target.acts == old(target.acts) + Reads(target.length, 0)
  {
    hide Spliced, Le, FromLe, Reads, Chunk;
    ghost var calm := target.Calm();
    raw := new Byte[target.length](_ => 0);
    ok := true;
    var offset := 0;
    while offset < target.length
      invariant ok && offset <= target.length && target.Valid() && target.Outside()
      invariant target.restless == old(target.restless)
      invariant calm ==> target.Calm() && target.Region() == old(target.Region())
      invariant calm ==> raw[..][..offset] == target.Region()[..offset]
      invariant calm ==> target.acts + Reads(target.length, offset) == old(target.acts) + Reads(target.length, 0)
    {
      var chunk, word := Chunk(target.length, offset), 0;
      ghost var region, before := target.Region(), raw[..];
      ReadsStep(target.acts, target.length, offset);
      ok, word := RunCommand(target, Fields(RawRead, COMM_SUBINDEX, offset, chunk, 0));
      if !ok { return; }
      Unpack(word, raw, offset, chunk);
      if calm {
        LeOfFromLe(region[offset..offset + chunk]);
        SplicedPrefix(before, region, offset, chunk);
      }
      offset := offset + chunk;
    }
    ReadsDone(target.acts, target.length);
    assert raw[..][..offset] == raw[..] && target.Region()[..offset] == target.Region();
    SameEeprom(target);
  }

  /** The region together with everything outside it is the EEPROM. */
  twostate lemma SameEeprom(target: Target)
    requires old(target.Valid()) && target.Valid() && target.Outside()
    ensures target.Region() == old(target.Region()) ==> target.eeprom == old(target.eeprom)
  {
    var a, b, s, e := old(target.eeprom), target.eeprom, target.start, target.start + target.length;
    assert a == a[..s] + a[s..e] + a[e..] && b == b[..s] + b[s..e] + b[e..];
  }

  /** The write loop of `restoreRawRegion`. */
  method WriteRawRegion(target: Target, raw: seq<Byte>) returns (ok: bool)
    requires target.Valid() && |raw| == target.length
    modifies target
    ensures target.Valid() && target.Outside() && target.restless == old(target.restless)
    ensures ok && old(target.Calm()) ==> target.Calm() && target.Region() == raw
    ensures ok && old(target.Calm()) ==> target.acts == old(target.acts) + Writes(raw, 0)
  {
    hide Spliced, Le, FromLe, Writes, Chunk;
    ghost var calm := target.Calm();
    ok := true;
    var offset := 0;
    while offset < target.length
      invariant ok && offset <= target.length && target.Valid() && target.Outside()
      invariant target.restless == old(target.restless)
      invariant calm ==> target.Calm() && target.Region()[..offset] == raw[..offset]
      invariant calm ==> target.acts + Writes(raw, offset) == old(target.acts) + Writes(raw, 0)
    {
      var chunk := Chunk(target.length, offset);
      ghost var region := target.Region();
      var word := Pack(raw[offset..offset + chunk]);
      LeOfFromLe(raw[offset..offset + chunk]);
      Pow2Small(chunk);
      WritesStep(target.acts, raw, offset);
      var ignored;
      ok, ignored := RunCommand(target, Fields(RawWrite, COMM_SUBINDEX, offset, chunk, word));
      if !ok { return; }
      if calm { SplicedPrefix(region, raw, offset, chunk); }
      offset := offset + chunk;
    }
    WritesDone(target.acts, raw);
    assert target.Region()[..offset] == target.Region() && raw[..offset] == raw;
  }

  /** `restoreRawRegion`: afterwards the region is the baseline and nothing else has changed. */
  method RestoreRawRegion(target: Target, raw: seq<Byte>) returns (ok: bool)
    requires target.Valid() && |raw| == target.length
    modifies target
    ensures target.Valid() && target.Outside() && target.restless == old(target.restless)
    ensures ok && old(target.Calm()) ==> target.Calm() && target.Region() == raw
    ensures ok && old(target.Calm()) ==> target.acts == Rewritten(old(target.acts), raw)
  {
    ok := WriteRawRegion(target, raw);
    if !ok { return; }
    var verify;
    ok, verify := ReadRawRegion(target);
    ok := ok && verify[..] == raw;
  }

  // ------------------------------------------------------------------------------------------------------------
  // Baseline
  // ------------------------------------------------------------------------------------------------------------

  const REFRESH := Ran(Fields(Refresh, COMM_SUBINDEX, 0, 4, 0))
  const BACKUP := Ran(Fields(Backup, COMM_SUBINDEX, 0, 4, 0))
  const RESTORE := Ran(Fields(Restore, COMM_SUBINDEX, 0, 4, 0))

  const SAVED := Saved(RemoteNode.Success)
  const DEFAULTED := Defaulted(RemoteNode.Success)

  /** After the region has been backed up and read. */
  function Captured(acts: seq<Act>, length: nat): seq<Act> {
    acts + [REFRESH] + [BACKUP] + Reads(length, 0)
  }

  /** Any upload that only observes: its transfer or the comparison after it may fail. */
  method Observe(target: Target) returns (ok: bool)
    requires target.Valid()
    modifies target
    ensures target.Valid() && target.Outside() && target.restless == old(target.restless)
    ensures old(target.Calm()) ==> target.Unchanged()
  {
    target.Run();
    ok := *;
  }

  /** `readLayout`, with the signature it also reads. */
  method ReadLayout(target: Target) returns (ok: bool, signature: Word)
    requires target.Valid()
    modifies target
    ensures target.Valid() && target.Outside()
    ensures ok && old(target.Calm()) ==> target.Calm() && target.eeprom == old(target.eeprom)
    ensures ok && old(target.Calm()) ==> target.acts == old(target.acts) + [REFRESH]
  {
    var ignored;
    ok, ignored := RunCommand(target, Fields(Refresh, COMM_SUBINDEX, 0, 4, 0));
    SameEeprom(target);
    signature := *;
    if ok { ok := Observe(target); }
  }

  /**
   `captureBaseline`: success on a calm target means that the returned bytes are the region and that nothing has
   changed.
   */
  method CaptureBaseline(target: Target) returns (ok: bool, raw: array<Byte>)
    requires target.Valid()
    modifies target
    ensures target.Valid() && target.Outside() && fresh(raw) && raw.Length == target.length
    ensures ok ==> ValidateLayout(target.layout)
    ensures ok && old(target.Calm()) ==>
      && target.Calm() && target.eeprom == old(target.eeprom) && raw[..] == target.Region()
      && target.acts == Captured(old(target.acts), target.length)
  {
    raw := new Byte[target.length](_ => 0);
    var signature, ignored;
    ok, signature := ReadLayout(target);
    if !ok || !ValidateLayout(target.layout) { return false, raw; }
    ok := Observe(target);
    if !ok { return; }
    ok, ignored := RunCommand(target, Fields(Backup, COMM_SUBINDEX, 0, 4, 0));
    if !ok { return; }
    SameEeprom(target);
    ok := Observe(target);
    if !ok || !target.backupValid { return false, raw; }
    var targetCrc := target.backupCrc;
    ok, raw := ReadRawRegion(target);
    if !ok { return; }
    var hostCrc := Crc.Checksum(raw[..]);
    ok := hostCrc == targetCrc;
  }

  /** A fresh Boot: the record is idle again, the RAM copy is gone, and nothing unconfirmed can still run. */
  method Boot(target: Target) returns (ok: bool)
    requires target.Valid()
    modifies target
    ensures target.Valid() && target.Outside() && (ok ==> target.Calm())
    ensures ok && old(target.Calm()) ==> target.eeprom == old(target.eeprom)
    ensures ok && !old(target.Now()).Pending() ==> target.acts == old(target.acts) + [Booted]
  {
    target.Run();
    ok := *;
    if ok {
      target.acts := target.acts + [Booted];
      target.restless, target.backupValid := false, false;
      target.requestSeq := *;
      target.completeSeq := target.requestSeq;
    }
    var supervised: bool := *;
    ok := ok && supervised;
  }

  /** `0x1010:02` save or `0x1011:02` restore defaults: the region changes in a way only the target knows. */
  method Rewrite(target: Target, defaults: bool) returns (outcome: RemoteNode.Outcome)
    requires target.Valid()
    modifies target
    ensures target.Valid() && target.Outside()
    ensures !old(target.Now()).Pending() ==> !target.Now().Pending()
    ensures !old(target.Now()).Pending() ==>
      target.acts == old(target.acts) + [if defaults then Defaulted(outcome) else Saved(outcome)]
    ensures outcome != RemoteNode.WaitTimeout && old(target.Calm()) ==> target.Calm()
  {
    target.Run();
    target.Scribble();
    outcome := *;
    target.acts := target.acts + [if defaults then Defaulted(outcome) else Saved(outcome)];
    if outcome == RemoteNode.WaitTimeout { target.restless := true; }
  }

  /** `saveProbe` and `stageValidImage`. */
  method SaveProbe(target: Target) returns (ok: bool)
    requires target.Valid()
    modifies target
    ensures target.Valid() && target.Outside() && (ok && old(target.Calm()) ==> target.Calm())
    ensures ok && old(target.Calm()) ==> target.acts == old(target.acts) + [SAVED]
  {
    ok := Observe(target);
    if !ok { return; }
    var outcome := Rewrite(target, false);
    ok := outcome == RemoteNode.Success;
  }

  /** `cleanupBaseline`. */
  method CleanupBaseline(target: Target, raw: seq<Byte>) returns (ok: bool)
    requires target.Valid() && |raw| == target.length
    modifies target
    ensures target.Valid() && target.Outside()
    ensures ok && old(target.Calm()) ==> target.Calm() && target.Region() == raw
    ensures ok && old(target.Calm()) ==> target.acts == Rewritten(old(target.acts), raw) + [Booted]
  {
    ok := RestoreRawRegion(target, raw);
    if !ok { return; }
    ok := Boot(target);
    if !ok { return; }
    ok := Observe(target);
    if !ok { return; }
    ok := Observe(target);
  }

  // ------------------------------------------------------------------------------------------------------------
  // Modes
  // ------------------------------------------------------------------------------------------------------------

  /**
   What every mode promises: nothing outside the region changes. From a target found calm a result of 0 leaves it as it
   was, and is only given after every step of the test has been made.
   */
  twostate predicate Returned(target: Target, result: nat, acts: seq<Act>)
    requires old(target.Valid()) && target.Valid()
    reads target
  {
    && target.Outside()
    && (result == 0 && old(target.Calm()) ==>
          target.Calm() && target.eeprom == old(target.eeprom) && target.acts == acts)
  }

  /** After the first payload byte has been flipped, the target has restored its copy, and the region has been read. */
  function RamBackedUp(acts: seq<Act>, l: Layout, raw: seq<Byte>): seq<Act>
    requires ValidateLayout(l) && |raw| == l.rawLength && l.dataLength > 0
  {
    var offset := l.dataAddress - l.rawStart;
    acts + [Ran(Fields(RawWrite, COMM_SUBINDEX, offset, 1, XorByte(raw[offset], 0x01)))] + [RESTORE]
    + Reads(|raw|, 0)
  }

  /**
   The RAM backup check of the core mode: one byte is flipped and the target restores its own copy. Without a payload
   the byte is read past the end of the baseline, where it may be anything, and a calm target rejects its address.
   */
  method CheckRamBackup(target: Target, raw: array<Byte>) returns (ok: bool)
    requires target.Valid() && raw.Length == target.length && ValidateLayout(target.layout)
    modifies target
    ensures target.Valid() && target.Outside()
    ensures ok && old(target.Calm()) ==>
      && target.Calm() && target.Region() == raw[..] && target.layout.dataLength > 0
      && target.acts == RamBackedUp(old(target.acts), target.layout, raw[..])
  {
    var dataOffset := target.layout.dataAddress - target.layout.rawStart;
    var original: Byte := *;
    if dataOffset < raw.Length { original := raw[dataOffset]; }
    var mutated := XorByte(original, 0x01);
    var ignored;
    ok, ignored := RunCommand(target, Fields(RawWrite, COMM_SUBINDEX, dataOffset, 1, mutated));
    if !ok { return; }
    ok, ignored := RunCommand(target, Fields(Restore, COMM_SUBINDEX, 0, 4, 0));
    if !ok { return; }
    var restored;
    ok, restored := ReadRawRegion(target);
    ok := ok && restored[..] == raw[..];
  }

  /** Boot and the startup snapshot expected after it. */
  method BootAndExpect(target: Target) returns (ok: bool)
    requires target.Valid()
    modifies target
    ensures target.Valid() && target.Outside() && (ok ==> target.Calm())
    ensures ok && !old(target.Now()).Pending() ==> target.acts == old(target.acts) + [Booted]
  {
    ok := Boot(target);
    if ok { ok := Observe(target); }
  }

  /** Flip and restore, save and Boot twice, write the region back. */
  function CoreScript(acts: seq<Act>, l: Layout, region: seq<Byte>): seq<Act>
    requires ValidateLayout(l) && |region| == l.rawLength && l.dataLength > 0
  {
    var captured := RamBackedUp(Captured(acts + [REFRESH], |region|), l, region);
    Rewritten(captured + [SAVED] + [REFRESH] + [Booted] + [SAVED] + [Booted], region) + [Booted]
  }

  /** `runCoreMode`. A layout without payload, which the layout check accepts, never passes it. */
  method CoreMode(target: Target) returns (result: nat)
    requires target.Valid()
    modifies target
    ensures target.Valid()
    ensures result == 0 && old(target.Calm()) ==> ValidateLayout(target.layout) && target.layout.dataLength > 0
    ensures Returned(target, result, if ValidateLayout(target.layout) && target.layout.dataLength > 0
      then CoreScript(old(target.acts), target.layout, old(target.Region())) else old(target.acts))
  {
    hide Captured, Rewritten, RamBackedUp;
    result := 1;
    var passed, signature := ReadLayout(target);
    if !passed || !ValidateLayout(target.layout) { return; }
    passed := Observe(target);
    if !passed { return; }
    var raw;
    passed, raw := CaptureBaseline(target);
    if !passed { return; }
    ghost var before := raw[..];
    passed := CheckRamBackup(target, raw);
    if passed { passed := SaveProbe(target); }
    if passed {
      passed, signature := ReadLayout(target);
      passed := passed && signature % 0x1_0000 == target.layout.dataLength;
    }
    if passed { passed := BootAndExpect(target); }
    if passed { passed := SaveProbe(target); }
    if passed { passed := BootAndExpect(target); }
    var cleaned := CleanupBaseline(target, raw[..]);
    SameEeprom(target);
    if passed && cleaned { result := 0; }
  }

  /** Save, restore defaults, Boot, write the region back. */
  function RestoreScript(acts: seq<Act>, region: seq<Byte>): seq<Act> {
    Rewritten(Captured(acts, |region|) + [SAVED] + [DEFAULTED] + [REFRESH] + [Booted], region) + [Booted]
  }

  /** `runRestoreMode`. */
  method RestoreMode(target: Target) returns (result: nat)
    requires target.Valid()
    modifies target
    ensures target.Valid()
    ensures Returned(target, result, RestoreScript(old(target.acts), old(target.Region())))
  {
    hide Captured, Rewritten, RamBackedUp, Target.Calm;
    result := 1;
    var passed, raw := CaptureBaseline(target);
    if !passed { return; }
    passed := SaveProbe(target);
    if passed {
      var outcome := Rewrite(target, true);
      passed := outcome == RemoteNode.Success;
    }
    if passed {
      var signature;
      passed, signature := ReadLayout(target);
      passed := passed && signature == 0xFFFF_FFFF;
    }
    if passed { passed := BootAndExpect(target); }
    var cleaned := CleanupBaseline(target, raw[..]);
    SameEeprom(target);
    if passed && cleaned { result := 0; }
  }

  /** A corruption command between a valid image and the Boot that has to detect it. */
  method Corrupt(target: Target, command: Command, offset: nat, size: Byte) returns (ok: bool)
    requires target.Valid()
    modifies target
    ensures target.Valid() && target.Outside() && (ok ==> target.Calm())
    ensures ok && old(target.Calm()) ==>
      target.acts == old(target.acts) + [Ran(Fields(command, COMM_SUBINDEX, offset, size, 0))] + [Booted]
  {
    var ignored;
    ok, ignored := RunCommand(target, Fields(command, COMM_SUBINDEX, offset, size, 0));
    if ok { ok := BootAndExpect(target); }
  }

  /** Save, spoil the signature, Boot, write the region back; save, spoil the payload, Boot, write the region back. */
  function CorruptionScript(acts: seq<Act>, l: Layout, region: seq<Byte>): seq<Act>
    requires ValidateLayout(l)
  {
    var signature := Ran(Fields(CorruptSignature, COMM_SUBINDEX, 0, 4, 0));
    var data := Ran(Fields(CorruptData, COMM_SUBINDEX, l.dataAddress - l.rawStart, 1, 0));
    var first := Rewritten(Captured(acts, |region|) + [SAVED] + [signature] + [Booted], region);
    Rewritten(first + [SAVED] + [REFRESH] + [data] + [Booted], region) + [Booted]
  }

  /** `runCorruptionMode`. */
  method CorruptionMode(target: Target) returns (result: nat)
    requires target.Valid()
    modifies target
    ensures target.Valid()
    ensures result == 0 ==> ValidateLayout(target.layout)
    ensures Returned(target, result, if ValidateLayout(target.layout)
      then CorruptionScript(old(target.acts), target.layout, old(target.Region())) else old(target.acts))
  {
    hide Captured, Rewritten, RamBackedUp, Target.Calm;
    result := 1;
    var passed, raw := CaptureBaseline(target);
    if !passed { return; }
    passed := SaveProbe(target);
    if passed { passed := Corrupt(target, CorruptSignature, 0, 4); }
    if passed { passed := RestoreRawRegion(target, raw[..]); }
    if passed { passed := SaveProbe(target); }
    if passed {
      var signature;
      passed, signature := ReadLayout(target);
      if passed {
        passed := Corrupt(target, CorruptData, target.layout.dataAddress - target.layout.rawStart, 1);
      }
    }
    var cleaned := CleanupBaseline(target, raw[..]);
    SameEeprom(target);
    if passed && cleaned { result := 0; }
  }

  /** Save, power-cycle, write the region back, power-cycle, and write it once more. */
  function PowerCycleScript(acts: seq<Act>, region: seq<Byte>): seq<Act> {
    var first := Rewritten(Captured(acts, |region|) + [SAVED] + [Booted], region);
    Rewritten(first + [Booted], region) + [Booted]
  }

  /** `runPowerCycleMode`: the operator power-cycles the target twice. */
  method PowerCycleMode(target: Target) returns (result: nat)
    requires target.Valid()
    modifies target
    ensures target.Valid()
    ensures Returned(target, result, PowerCycleScript(old(target.acts), old(target.Region())))
  {
    hide Captured, Rewritten, RamBackedUp, Target.Calm;
    result := 1;
    var passed, raw := CaptureBaseline(target);
    if !passed { return; }
    passed := SaveProbe(target);
    if passed { passed := BootAndExpect(target); }
    if passed { passed := RestoreRawRegion(target, raw[..]); }
    if passed { passed := BootAndExpect(target); }
    var cleaned := CleanupBaseline(target, raw[..]);
    SameEeprom(target);
    if passed && cleaned { result := 0; }
  }

  /** Save, save again without success, Boot, write the region back. */
  function InterruptionScript(acts: seq<Act>, region: seq<Byte>, outcome: RemoteNode.Outcome): seq<Act> {
    Rewritten(Captured(acts, |region|) + [SAVED] + [Saved(outcome)] + [Booted], region) + [Booted]
  }

  /** `runPowerInterruptionMode`: the save has to fail, and the Boot after it proves that it is over. */
  method PowerInterruptionMode(target: Target) returns (result: nat)
    requires target.Valid()
    modifies target
    ensures target.Valid()
    ensures exists outcome | outcome != RemoteNode.Success ::
      Returned(target, result, InterruptionScript(old(target.acts), old(target.Region()), outcome))
  {
    hide Captured, Rewritten, RamBackedUp;
    result := 1;
    ghost var interrupted := RemoteNode.Failed;
    assert Returned(target, result, InterruptionScript(old(target.acts), old(target.Region()), interrupted));
    var passed, raw := CaptureBaseline(target);
    if !passed {
      assert Returned(target, result, InterruptionScript(old(target.acts), old(target.Region()), interrupted));
      return;
    }
    passed := SaveProbe(target);
    if passed { passed := Observe(target); }
    if passed {
      var suspended: bool := *;
      if !suspended {
        passed := false;
      } else {
        var outcome := Rewrite(target, false);
        if outcome == RemoteNode.Success {
          passed := false;
        } else {
          interrupted := outcome;
          passed := Boot(target);
        }
      }
    }
    if passed { passed := Observe(target); }
    var cleaned := CleanupBaseline(target, raw[..]);
    SameEeprom(target);
    if passed && cleaned { result := 0; }
    assert Returned(target, result, InterruptionScript(old(target.acts), old(target.Region()), interrupted));
  }
}
