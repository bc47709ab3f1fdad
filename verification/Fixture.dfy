/**
 `HostSdoServerFixture`: three temporary objects in the master's own object dictionary. Every library call may fail;
 nothing may be lost, destroyed twice, or left in the dictionary.
 */
module Fixture {

  const U32_INDEX: nat := 0x2F00
  const OCTETS_INDEX: nat := 0x2F01
  const READ_ONLY_INDEX: nat := 0x2F02

  const INDICES: set<nat> := {U32_INDEX, OCTETS_INDEX, READ_ONLY_INDEX}

  datatype Option<T> = None | Some(value: T)

  /** A dynamic handle: its sub-objects belong to it, and so does its place in the dictionary. */
  datatype Object = Object(index: nat, subs: set<nat>, inserted: bool)

  /** Lely's dynamic objects. Handles are never reused, and only what is alive may be passed to the library. */
  class Library {
    /** Living objects, living sub-objects that belong to no object, and the device dictionary. */
    var objects: map<nat, Object>
    var loose: set<nat>
    var device: map<nat, nat>
    var next: nat

    ghost predicate Valid()
      reads this
    {
      && (forall h | h in objects :: h < next && forall s | s in objects[h].subs :: s < next)
      && (forall s | s in loose :: s < next)
      && (forall i | i in device ::
            device[i] in objects && objects[device[i]].index == i && objects[device[i]].inserted)
      && (forall h | h in objects && objects[h].inserted :: objects[h].index in device && device[objects[h].index] == h)
    }

    /** `co_obj_create`. */
    method CreateObject(index: nat) returns (handle: Option<nat>)
      requires Valid()
      modifies this
      ensures Valid() && loose == old(loose) && device == old(device)
      ensures handle.None? ==> objects == old(objects)
      ensures handle.Some? ==>
        handle.value !in old(objects) && objects == old(objects)[handle.value := Object(index, {}, false)]
    {
      handle := None;
      var works: bool := *;
      if works {
        handle := Some(next);
        objects := objects[next := Object(index, {}, false)];
        next := next + 1;
      }
    }

    /** `co_sub_create`. */
    method CreateSub() returns (sub: Option<nat>)
      requires Valid()
      modifies this
      ensures Valid() && objects == old(objects) && device == old(device)
      ensures sub.None? ==> loose == old(loose)
      ensures sub.Some? ==> sub.value !in old(loose) && loose == old(loose) + {sub.value}
    {
      sub := None;
      var works: bool := *;
      if works {
        sub := Some(next);
        loose := loose + {next};
        next := next + 1;
      }
    }

    /** `co_obj_insert_sub`. */
    method InsertSub(handle: nat, sub: nat) returns (ok: bool)
      requires Valid() && handle in objects && sub in loose
      modifies this`objects, this`loose
      ensures Valid()
      ensures !ok ==> objects == old(objects) && loose == old(loose)
      ensures ok ==>
        && loose == old(loose) - {sub}
        && objects == old(objects)[handle := old(objects)[handle].(subs := old(objects)[handle].subs + {sub})]
    {
      ok := *;
      if ok {
        var o := objects[handle];
        objects := objects[handle := o.(subs := o.subs + {sub})];
        loose := loose - {sub};
      }
    }

    /** `co_sub_destroy` of a sub-object that was never inserted. */
    method DestroySub(sub: nat)
      requires Valid() && sub in loose
      modifies this`loose
      ensures Valid() && loose == old(loose) - {sub}
    {
      loose := loose - {sub};
    }

    /** `co_dev_insert_obj`. */
    method Insert(handle: nat) returns (ok: bool)
      requires Valid() && handle in objects && !objects[handle].inserted
      modifies this`objects, this`device
      ensures Valid()
      ensures ok ==>
        && old(objects)[handle].index !in old(device)
        && device == old(device)[old(objects)[handle].index := handle]
        && objects == old(objects)[handle := old(objects)[handle].(inserted := true)]
      ensures !ok ==> objects == old(objects) && device == old(device)
    {
      ok := *;
      if objects[handle].index in device { ok := false; }
      if ok {
        device := device[objects[handle].index := handle];
        objects := objects[handle := objects[handle].(inserted := true)];
      }
    }

    /** `co_obj_destroy`: with its sub-objects, and out of the dictionary. */
    method DestroyObject(handle: nat)
      requires Valid() && handle in objects
      modifies this`objects, this`device
      ensures Valid() && objects == old(objects) - {handle}
      ensures device ==
        if old(objects)[handle].inserted then old(device) - {old(objects)[handle].index} else old(device)
    {
      if objects[handle].inserted { device := device - {objects[handle].index}; }
      objects := objects - {handle};
    }
  }

  class HostSdoServer {
    const library: Library
    var u32: Option<nat>
    var octets: Option<nat>
    var readOnly: Option<nat>
    var installed: bool

    constructor (library: Library)
      requires library.Valid()
      ensures Settled(library.objects, library.device) && this.library == library
    {
      this.library := library;
      u32, octets, readOnly, installed := None, None, None, false;
    }

    ghost predicate Unused()
      reads this
    {
      u32 == None && octets == None && readOnly == None && !installed
    }

    /** All three objects are in the dictionary. */
    ghost predicate Complete()
      reads this, library
    {
      && u32.Some? && octets.Some? && readOnly.Some?
      && U32_INDEX in library.device && library.device[U32_INDEX] == u32.value
      && OCTETS_INDEX in library.device && library.device[OCTETS_INDEX] == octets.value
      && READ_ONLY_INDEX in library.device && library.device[READ_ONLY_INDEX] == readOnly.value
    }

    /**
     Between calls: everything is installed, or nothing exists. `objects` and `device` are what the library holds
     without the fixture.
     */
    ghost predicate Settled(objects: map<nat, Object>, device: map<nat, nat>)
      reads this, library
    {
      && library.Valid()
      && if installed then Complete() && Over(objects, device)
         else Unused() && library.objects == objects && library.device == device
    }

    /** The sub-object of a new object; whatever fails, both are destroyed. */
    method Fill(candidate: nat) returns (ok: bool)
      requires library.Valid() && candidate in library.objects
      requires library.objects[candidate].subs == {} && !library.objects[candidate].inserted
      modifies library
      ensures library.Valid() && library.device == old(library.device) && library.loose == old(library.loose)
      ensures !ok ==> library.objects == old(library.objects) - {candidate}
      ensures ok ==> exists s ::
        library.objects == old(library.objects)[candidate := old(library.objects)[candidate].(subs := {s})]
    {
      var sub := library.CreateSub();
      var accessSet: bool := *;
      ok := false;
      if sub.Some? && accessSet { ok := library.InsertSub(candidate, sub.value); }
      if !ok {
        if sub.Some? { library.DestroySub(sub.value); }
        library.DestroyObject(candidate);
        return;
      }
      assert {} + {sub.value} == {sub.value};
      var valueSet: bool := *;
      if !valueSet {
        library.DestroyObject(candidate);
        ok := false;
      }
    }

    /** `createU32Object` and `createOctetObject`: one new object with one sub-object, or nothing. */
    method Create(index: nat) returns (handle: Option<nat>)
      requires library.Valid()
      modifies library
      ensures library.Valid() && library.device == old(library.device) && library.loose == old(library.loose)
      ensures handle.None? ==> library.objects == old(library.objects)
      ensures handle.Some? ==>
        && handle.value !in old(library.objects)
        && exists s :: library.objects == old(library.objects)[handle.value := Object(index, {s}, false)]
    {
      handle := library.CreateObject(index);
      if handle.None? { return; }
      var filled := Fill(handle.value);
      if !filled {
        assert library.objects == old(library.objects);
        handle := None;
      }
    }

    /** The library holds `objects` and `device`, and besides only what the fixture owns. */
    ghost predicate Over(objects: map<nat, Object>, device: map<nat, nat>)
      reads this, library
    {
      library.Valid() && Sum(library.objects, library.device, Own(u32, octets, readOnly), objects, device)
    }

    /** A new object joins those owned. */
    method CreateOwned(index: nat, ghost own: map<nat, nat>,
                       ghost objects: map<nat, Object>, ghost device: map<nat, nat>)
      returns (handle: Option<nat>)
      requires library.Valid() && Sum(library.objects, library.device, own, objects, device)
      requires index in INDICES && index !in own && index !in device
      modifies library
      ensures library.Valid() && library.device == old(library.device) && library.loose == old(library.loose)
      ensures Sum(library.objects, library.device, if handle.Some? then own[index := handle.value] else own,
                  objects, device)
    {
      handle := Create(index);
      if handle.Some? {
        ghost var s :| library.objects == old(library.objects)[handle.value := Object(index, {s}, false)];
        Added(old(library.objects), library.device, own, index, handle.value, Object(index, {s}, false),
              objects, device);
      }
    }

    /** An owned object enters the dictionary. */
    method InsertOwned(handle: nat, index: nat, ghost own: map<nat, nat>,
                       ghost objects: map<nat, Object>, ghost device: map<nat, nat>)
      returns (ok: bool)
      requires library.Valid() && Sum(library.objects, library.device, own, objects, device)
      requires index in own && own[index] == handle && index !in library.device
      modifies library`objects, library`device
      ensures library.Valid() && Sum(library.objects, library.device, own, objects, device)
      ensures library.device == if ok then old(library.device)[index := handle] else old(library.device)
    {
      ok := library.Insert(handle);
    }

    /** The three creations of `install`. */
    method CreateAll(ghost objects: map<nat, Object>, ghost device: map<nat, nat>) returns (ok: bool)
      requires Unused() && Over(objects, device) && library.device == device && device.Keys !! INDICES
      modifies this`u32, this`octets, this`readOnly, library
      ensures Over(objects, device) && library.device == device && library.loose == old(library.loose)
      ensures ok ==> u32.Some? && octets.Some? && readOnly.Some?
    {
      hide Sum, Library.Valid;
      assert forall i | i in INDICES :: i !in device;
      u32 := CreateOwned(U32_INDEX, map[], objects, device);
      assert Own(u32, None, None) == if u32.Some? then map[U32_INDEX := u32.value] else map[];
      if u32.None? { return false; }
      octets := CreateOwned(OCTETS_INDEX, Own(u32, None, None), objects, device);
      assert octets.Some? ==> Own(u32, octets, None) == Own(u32, None, None)[OCTETS_INDEX := octets.value];
      if octets.None? { return false; }
      readOnly := CreateOwned(READ_ONLY_INDEX, Own(u32, octets, None), objects, device);
      assert readOnly.Some? ==> Own(u32, octets, readOnly) == Own(u32, octets, None)[READ_ONLY_INDEX := readOnly.value];
      ok := readOnly.Some?;
    }

    /** The three insertions of `install`. */
    method InsertAll(ghost objects: map<nat, Object>, ghost device: map<nat, nat>) returns (ok: bool)
      requires u32.Some? && octets.Some? && readOnly.Some? && Over(objects, device)
      requires library.device == device && device.Keys !! INDICES
      modifies library`objects, library`device
      ensures Over(objects, device) && (ok ==> Complete())
    {
      hide Sum, Own, Library.Valid;
      ghost var own := Own(u32, octets, readOnly);
      OwnAll(u32, octets, readOnly);
      ok := InsertOwned(u32.value, U32_INDEX, own, objects, device);
      if ok { ok := InsertOwned(octets.value, OCTETS_INDEX, own, objects, device); }
      if ok { ok := InsertOwned(readOnly.value, READ_ONLY_INDEX, own, objects, device); }
    }

    /** `install`: all three objects, or the dictionary and all objects as they were. */
    method Install(ghost objects: map<nat, Object>, ghost device: map<nat, nat>) returns (ok: bool)
      requires Settled(objects, device)
      modifies this, library
      ensures Settled(objects, device) && ok == installed && library.loose == old(library.loose)
      ensures old(installed) ==> ok
      ensures ok ==> device.Keys !! INDICES
    {
      hide Sum, Own, Library.Valid;
      if installed {
        OwnAll(u32, octets, readOnly);
        OwnedApart(library.objects, library.device, Own(u32, octets, readOnly), objects, device);
        return true;
      }
      var available: bool := *;
      if !available { return false; }
      if U32_INDEX in library.device || OCTETS_INDEX in library.device || READ_ONLY_INDEX in library.device {
        return false;
      }
      NothingOwned(objects, device);
      ok := CreateAll(objects, device);
      if ok { ok := InsertAll(objects, device); }
      if !ok {
        UninstallLocked(objects, device);
        return;
      }
      installed := true;
    }

    /** `uninstall`, also run by the destructor. */
    method Uninstall(ghost objects: map<nat, Object>, ghost device: map<nat, nat>)
      requires Settled(objects, device)
      modifies this, library`objects, library`device
      ensures Settled(objects, device) && !installed
    {
      UninstallLocked(objects, device);
    }

    /** Destroy one owned object, if there is one. */
    method Destroy(handle: Option<nat>, index: nat, ghost own: map<nat, nat>, ghost rest: map<nat, nat>,
                   ghost objects: map<nat, Object>, ghost device: map<nat, nat>)
      requires library.Valid() && Sum(library.objects, library.device, own, objects, device)
      requires Step(own, handle, index, rest)
      modifies library`objects, library`device
      ensures library.Valid() && Sum(library.objects, library.device, rest, objects, device)
    {
      if handle.Some? {
        Removed(library.objects, library.device, own, index, objects, device);
        assert !library.objects[handle.value].inserted ==> library.device - {index} == library.device;
        library.DestroyObject(handle.value);
      }
    }

    /** `uninstallLocked`, from any stage of an installation. */
    method UninstallLocked(ghost objects: map<nat, Object>, ghost device: map<nat, nat>)
      requires Over(objects, device)
      modifies this, library`objects, library`device
      ensures library.Valid() && Unused() && library.objects == objects && library.device == device
    {
      ghost var own0, own1, own2, own3 := OwnParts(u32, octets, readOnly);
      hide Sum, Own;
      Destroy(readOnly, READ_ONLY_INDEX, own0, own1, objects, device);
      readOnly := None;
      Destroy(octets, OCTETS_INDEX, own1, own2, objects, device);
      octets := None;
      Destroy(u32, U32_INDEX, own2, own3, objects, device);
      u32 := None;
      Empty(library.objects, library.device, objects, device);
      installed := false;
    }
  }

  /** The handles the fixture owns, by index. */
  ghost function Own(u32: Option<nat>, octets: Option<nat>, readOnly: Option<nat>): map<nat, nat> {
    (if u32.Some? then map[U32_INDEX := u32.value] else map[])
    + (if octets.Some? then map[OCTETS_INDEX := octets.value] else map[])
    + (if readOnly.Some? then map[READ_ONLY_INDEX := readOnly.value] else map[])
  }

  /** What is owned before, between and after the three steps of `uninstallLocked`. */
  lemma OwnParts(u32: Option<nat>, octets: Option<nat>, readOnly: Option<nat>)
    returns (own0: map<nat, nat>, own1: map<nat, nat>, own2: map<nat, nat>, own3: map<nat, nat>)
    ensures own0 == Own(u32, octets, readOnly) && own3 == map[]
    ensures Step(own0, readOnly, READ_ONLY_INDEX, own1)
    ensures Step(own1, octets, OCTETS_INDEX, own2)
    ensures Step(own2, u32, U32_INDEX, own3)
  {
    own0, own1, own2, own3 := Own(u32, octets, readOnly), Own(u32, octets, None), Own(u32, None, None), map[];
  }

  ghost predicate Step(own: map<nat, nat>, handle: Option<nat>, index: nat, rest: map<nat, nat>) {
    if handle.Some? then index in own && own[index] == handle.value && rest == own - {index} else rest == own
  }

  /** `objects` and `device` are `objects0` and `device0` together with the owned handles. */
  ghost predicate Sum(objects: map<nat, Object>, device: map<nat, nat>, own: map<nat, nat>,
                      objects0: map<nat, Object>, device0: map<nat, nat>) {
    && (forall h | h in objects0 :: h in objects && objects[h] == objects0[h])
    && (forall h | h in objects :: h in objects0 || h in own.Values)
    && (forall i | i in own :: i in INDICES && own[i] !in objects0 && own[i] in objects && objects[own[i]].index == i)
    && (forall i | i in device0 :: i !in own && i in device && device[i] == device0[i])
    && (forall i | i in device :: i in device0 || (i in own && device[i] == own[i]))
  }

  lemma Added(objects: map<nat, Object>, device: map<nat, nat>, own: map<nat, nat>, index: nat, handle: nat, o: Object,
              objects0: map<nat, Object>, device0: map<nat, nat>)
    requires Sum(objects, device, own, objects0, device0) && index in INDICES && index !in own && index !in device0
    requires handle !in objects && o.index == index
    ensures Sum(objects[handle := o], device, own[index := handle], objects0, device0)
  {
    var own1 := own[index := handle];
    forall h | h in objects[handle := o] ensures h in objects0 || h in own1.Values {
      if h == handle {
        assert own1[index] == h;
      } else if h !in objects0 {
        var i :| i in own && own[i] == h;
        assert own1[i] == h;
      }
    }
  }

  lemma Removed(objects: map<nat, Object>, device: map<nat, nat>, own: map<nat, nat>, index: nat,
                objects0: map<nat, Object>, device0: map<nat, nat>)
    requires Sum(objects, device, own, objects0, device0) && index in own
    ensures Sum(objects - {own[index]}, device - {index}, own - {index}, objects0, device0)
  {
    forall h | h in objects - {own[index]} ensures h in objects0 || h in (own - {index}).Values {
      if h !in objects0 {
        var i :| i in own && own[i] == h;
        assert i in own - {index} && (own - {index})[i] == h;
      }
    }
  }

  lemma Empty(objects: map<nat, Object>, device: map<nat, nat>, objects0: map<nat, Object>, device0: map<nat, nat>)
    requires Sum(objects, device, map[], objects0, device0)
    ensures objects == objects0 && device == device0
  {}

  lemma OwnAll(u32: Option<nat>, octets: Option<nat>, readOnly: Option<nat>)
    requires u32.Some? && octets.Some? && readOnly.Some?
    ensures var own := Own(u32, octets, readOnly);
      && own.Keys == INDICES && own[U32_INDEX] == u32.value
      && own[OCTETS_INDEX] == octets.value && own[READ_ONLY_INDEX] == readOnly.value
  {}

  lemma OwnedApart(objects: map<nat, Object>, device: map<nat, nat>, own: map<nat, nat>,
                   objects0: map<nat, Object>, device0: map<nat, nat>)
    requires Sum(objects, device, own, objects0, device0)
    ensures device0.Keys !! own.Keys
  {}

  lemma NothingOwned(objects: map<nat, Object>, device: map<nat, nat>)
    ensures Sum(objects, device, Own(None, None, None), objects, device)
  {}

  /**
   Any sequence of installations (`true`) and removals followed by the destructor: the library ends exactly as it
   began, so every object and sub-object created on the way has been destroyed, once.
   */
  method Session(library: Library, calls: seq<bool>)
    requires library.Valid()
    modifies library
    ensures library.Valid() && library.objects == old(library.objects)
    ensures library.device == old(library.device) && library.loose == old(library.loose)
  {
    ghost var objects, device := library.objects, library.device;
    var fixture := new HostSdoServer(library);
    var i := 0;
    while i < |calls|
      invariant i <= |calls| && fixture.library == library && fixture.Settled(objects, device)
      invariant library.loose == old(library.loose) && fresh(fixture)
    {
      if calls[i] {
        var ok := fixture.Install(objects, device);
      } else {
        fixture.Uninstall(objects, device);
      }
      i := i + 1;
    }
    fixture.Uninstall(objects, device);
  }
}
