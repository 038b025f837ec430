/**
 * The property interface (`src/api/pdc_prop.c`): registering the two
 * property type classes, creating, duplicating and closing property
 * handles, emptying and destroying the classes, and taking snapshots of a
 * stored property.  Every operation works on the process-wide registry,
 * passed here as `reg`.
 */
module PropApi {
  import opened Common
  import opened Props
  import opened AtomTable

  /** `PDC_prop_type`: what `PropCreate` is asked to build; any other code is ignored. */
  datatype PropType = ContCreate | ObjCreate | OtherPropType(code: int)

  /** The registry invariant every property operation keeps. */
  ghost predicate Ready(reg: Registry)
    reads reg, reg.Objects()
  {
    reg.Valid() && reg.RecordsWellFormed()
  }

  /** `pdcid` names a live service instance record. */
  predicate OwnerLive(reg: Registry, pdcid: Handle)
    reads reg
  {
    pdcid in reg.entries && reg.entries[pdcid].rec.ClassRec?
  }

  /** If `id` is live, it names an object property (the library casts without checking). */
  predicate ObjPropOrDead(reg: Registry, id: Handle)
    reads reg
  {
    id in reg.entries ==> reg.entries[id].rec.ObjRec?
  }

  /** If `id` is live, it names a container property. */
  predicate ContPropOrDead(reg: Registry, id: Handle)
    reads reg
  {
    id in reg.entries ==> reg.entries[id].rec.ContRec?
  }

  /** `entries` is `entries0` plus one new handle `h`, nonzero, with a single reference. */
  ghost predicate AddsOne(entries0: map<Handle, Entry>, entries: map<Handle, Entry>, h: Handle)
  {
    h != 0 && h !in entries0 && h in entries &&
    entries == entries0[h := entries[h]] && entries[h].refCount == 1
  }

  /**
   * `PDC_prop_init`: register the container property class, then the object
   * property class, each with its close routine; stop at the first failure.
   */
  method PropInit(reg: Registry) returns (status: Status)
    requires Ready(reg)
    modifies reg
    ensures Ready(reg)
    ensures reg.entries == old(reg.entries) && reg.closed == old(reg.closed)
    ensures status == Succeed <==> ContPropType !in old(reg.types) && ObjPropType !in old(reg.types)
    ensures ContPropType in old(reg.types) ==> reg.types == old(reg.types)
    ensures ContPropType !in old(reg.types) && ObjPropType in old(reg.types) ==>
      reg.types == old(reg.types)[ContPropType := ContPropCloseRoutine]
    ensures status == Succeed ==>
      reg.types == old(reg.types)[ContPropType := ContPropCloseRoutine][ObjPropType := ObjPropCloseRoutine]
  {
    status := reg.RegisterType(ContPropType, ContPropCloseRoutine);
    if status == Fail {
      return;
    }
    status := reg.RegisterType(ObjPropType, ObjPropCloseRoutine);
  }

  /**
   * `PDCprop_create`: build a container property (persistent) or an object
   * property (transient, no extents, unknown type, in client memory), each
   * with its own copy of the owner's service record, and register it.  Any
   * other creation type yields handle 0 and changes nothing.
   */
  method PropCreate(reg: Registry, ptype: PropType, pdcid: Handle) returns (h: Handle)
    requires Ready(reg)
    requires ptype.ContCreate? ==> ContPropType in reg.types && OwnerLive(reg, pdcid)
    requires ptype.ObjCreate? ==> ObjPropType in reg.types && OwnerLive(reg, pdcid)
    modifies reg
    ensures Ready(reg)
    ensures reg.types == old(reg.types) && reg.closed == old(reg.closed)
    ensures ptype.OtherPropType? ==> h == 0 && reg.entries == old(reg.entries)
    ensures ptype.ContCreate? ==> ContCreated(reg, pdcid, h)
    ensures ptype.ObjCreate? ==> ObjCreated(reg, pdcid, h)
  {
    h := 0;
    if ptype == ContCreate {
      h := CreateContProp(reg, pdcid);
    }
    if ptype == ObjCreate {
      h := CreateObjProp(reg, pdcid);
    }
  }

  /** A fresh container property for the owner `pdcid` was registered under `h`. */
  twostate predicate ContCreated(reg: Registry, pdcid: Handle, h: Handle)
    reads *
  {
    pdcid in old(reg.entries) && old(reg.entries[pdcid].rec).ClassRec? &&
    AddsOne(old(reg.entries), reg.entries, h) && reg.entries[h].rec.ContRec? &&
    fresh(reg.entries[h].rec.cont) && reg.entries[h].rec.cont.WellFormed() &&
    fresh(reg.entries[h].rec.cont.pdc) &&
    reg.entries[h].rec.cont.Value() == NewContValue(old(reg.entries[pdcid].rec.cls.Value()), h)
  }

  /** A fresh object property for the owner `pdcid`, with no extents, was registered under `h`. */
  twostate predicate ObjCreated(reg: Registry, pdcid: Handle, h: Handle)
    reads *
  {
    pdcid in old(reg.entries) && old(reg.entries[pdcid].rec).ClassRec? &&
    AddsOne(old(reg.entries), reg.entries, h) && reg.entries[h].rec.ObjRec? &&
    fresh(reg.entries[h].rec.obj) && reg.entries[h].rec.obj.WellFormed() &&
    fresh(reg.entries[h].rec.obj.pdc) && reg.entries[h].rec.obj.dims == null &&
    reg.entries[h].rec.obj.Value() == NewObjValue(old(reg.entries[pdcid].rec.cls.Value()), h)
  }

  /** A fresh copy of the service record `owner`, as create, duplicate and get-info make it. */
  method CopyService(owner: PdcClass) returns (service: PdcClass)
    ensures fresh(service) && service.Value() == owner.Value()
  {
    service := CallocPdcClass();
    if owner.name.Some? {
      service.name := owner.name;
    }
    service.localId := owner.localId;
  }

  /** The container branch of `PropCreate`. */
  method CreateContProp(reg: Registry, pdcid: Handle) returns (h: Handle)
    requires Ready(reg) && ContPropType in reg.types && OwnerLive(reg, pdcid)
    modifies reg
    ensures Ready(reg)
    ensures reg.types == old(reg.types) && reg.closed == old(reg.closed)
    ensures ContCreated(reg, pdcid, h)
  {
    var p := StartContProp();
    h := reg.Register(ContPropType, ContRec(p));
    var owner := reg.Find(pdcid).value.cls;
    CompleteContProp(p, h, owner);
  }

  /** The part of the container branch of `PropCreate` before registration. */
  method StartContProp() returns (p: ContProp)
    ensures fresh(p) && p.contLife == Persist
  {
    p := MallocContProp();
    p.contLife := Persist;
  }

  /** The part of the container branch of `PropCreate` after registration. */
  method CompleteContProp(p: ContProp, h: Handle, owner: PdcClass)
    requires p.contLife == Persist
    modifies p
    ensures p.WellFormed() && fresh(p.pdc)
    ensures p.Value() == NewContValue(owner.Value(), h)
  {
    p.contPropId := h;
    p.pdc := CopyService(owner);
  }

  /** The object branch of `PropCreate`. */
  method CreateObjProp(reg: Registry, pdcid: Handle) returns (h: Handle)
    requires Ready(reg) && ObjPropType in reg.types && OwnerLive(reg, pdcid)
    modifies reg
    ensures Ready(reg)
    ensures reg.types == old(reg.types) && reg.closed == old(reg.closed)
    ensures ObjCreated(reg, pdcid, h)
  {
    var q := StartObjProp();
    h := reg.Register(ObjPropType, ObjRec(q));
    var owner := reg.Find(pdcid).value.cls;
    CompleteObjProp(q, h, owner);
  }

  /** The part of the object branch of `PropCreate` before registration. */
  method StartObjProp() returns (q: ObjProp)
    ensures fresh(q)
    ensures q.objLife == Transient && q.ndim == 0 && q.dims == null && q.varType == UnknownType
    ensures q.dataLoc == None && q.appName == None && q.tags == None && q.timeStep == 0 && q.buf == None
  {
    q := MallocObjProp();
    q.objLife := Transient;
    q.ndim := 0;
    q.dims := null;
    q.dataLoc := None;
    q.varType := UnknownType;
    q.appName := None;
    q.timeStep := 0;
    q.tags := None;
    q.buf := None;
  }

  /** The part of the object branch of `PropCreate` after registration. */
  method CompleteObjProp(q: ObjProp, h: Handle, owner: PdcClass)
    requires q.objLife == Transient && q.ndim == 0 && q.dims == null && q.varType == UnknownType
    requires q.dataLoc == None && q.appName == None && q.tags == None && q.timeStep == 0 && q.buf == None
    modifies q
    ensures q.WellFormed() && fresh(q.pdc) && q.dims == null
    ensures q.Value() == NewObjValue(owner.Value(), h)
  {
    q.objPropId := h;
    q.pdc := CopyService(owner);
    q.typeExtent := 0;
    q.dataState := 0;
    q.locus := ClientMemory;
    q.transform := ZeroTransform;
  }

  /**
   * `PDCprop_obj_dup`: register a deep copy of a stored object property that
   * keeps its configuration (lifetime, extents, service record, application
   * name, tags, time step) and resets its materialisation state.  A handle
   * that is not live yields 0 and changes nothing; the source is untouched.
   */
  method PropObjDup(reg: Registry, propId: Handle) returns (h: Handle)
    requires Ready(reg) && ObjPropOrDead(reg, propId)
    modifies reg
    ensures Ready(reg)
    ensures reg.types == old(reg.types) && reg.closed == old(reg.closed)
    ensures propId !in old(reg.entries) ==> h == 0 && reg.entries == old(reg.entries)
    ensures propId in old(reg.entries) ==>
      AddsOne(old(reg.entries), reg.entries, h) && reg.entries[h].rec.ObjRec? &&
      reg.entries[propId] == old(reg.entries[propId])
    ensures propId in old(reg.entries) ==>
      var q := reg.entries[h].rec.obj;
      fresh(q) && fresh(q.pdc) && q.dims != null && fresh(q.dims) &&
      q.Value() == DupValue(old(reg.entries[propId].rec.obj.Value()), h)
    ensures propId in old(reg.entries) ==>
      reg.entries[propId].rec.obj.Value() == old(reg.entries[propId].rec.obj.Value())
  {
    var found := reg.Find(propId);
    if found.None? {
      return 0;
    }
    var info := found.value.obj;
    assert found.value.Kind() in reg.types;
    var q := StartDup(info);
    ghost var others := reg.Objects();
    h := reg.Register(ObjPropType, ObjRec(q));
    CompleteDup(q, h, info);
    assert unchanged(others);
    forall h' | h' in reg.entries
      ensures reg.entries[h'].rec.WellFormed()
    {
      if h' != h {
        assert reg.entries[h'].rec.Ref() in others;
      }
    }
  }

  /**
   * `q` is a zero-filled record into which the configuration of `info` has
   * been copied, with extents of its own; it has no service record yet.
   */
  ghost predicate DupStarted(q: ObjProp, info: ObjProp)
    reads q, q.dims, info, info.dims, info.pdc
  {
    info.WellFormed() && q != info && q.dims != null && q.dims != info.dims &&
    q.objLife == info.objLife && q.ndim == info.ndim && q.dims.Length == q.ndim &&
    q.dims[..] == (if info.dims == null then [] else info.dims[..]) &&
    q.appName == info.appName && q.tags == info.tags && q.timeStep == info.timeStep &&
    q.typeExtent == 0 && q.locus == ZeroLocus && q.dataState == 0 && q.transform == ZeroTransform
  }

  /** The part of `PropObjDup` before registration. */
  method StartDup(info: ObjProp) returns (q: ObjProp)
    requires info.WellFormed()
    ensures fresh(q) && fresh(q.dims) && DupStarted(q, info)
  {
    q := CallocObjProp();
    q.objLife := info.objLife;
    q.ndim := info.ndim;
    q.dims := CopyDims(info.dims, info.ndim);
    if info.appName.Some? {
      q.appName := info.appName;
    }
    q.timeStep := info.timeStep;
    if info.tags.Some? {
      q.tags := info.tags;
    }
  }

  /** The part of `PropObjDup` after registration under `h`. */
  method CompleteDup(q: ObjProp, h: Handle, info: ObjProp)
    requires DupStarted(q, info)
    modifies q
    ensures q.WellFormed() && fresh(q.pdc) && q.dims == old(q.dims)
    ensures q.Value() == DupValue(info.Value(), h)
  {
    q.objPropId := h;
    q.pdc := CopyService(info.pdc);
    q.dataLoc := None;
    q.varType := UnknownType;
    q.buf := None;
  }

  /**
   * What emptying class `k` promises: nothing changes when the class was
   * already empty or the clearing failed; after a success the class is
   * empty, every other handle is untouched, the close routine bound to `k`
   * ran once on each released record and every released record owns nothing.
   */
  twostate predicate Emptied(reg: Registry, k: TypeClass, status: Status)
    reads *
  {
    reg.types == old(reg.types) &&
    (old(reg.Count(k)) == 0 ==> status == Succeed) &&
    (old(reg.Count(k)) == 0 || status == Fail ==>
       reg.entries == old(reg.entries) && reg.closed == old(reg.closed) && unchanged(old(reg.ClassObjects(k)))) &&
    (status == Succeed ==> reg.Count(k) == 0 && reg.entries == Without(old(reg.entries), old(reg.HandlesOf(k)))) &&
    (status == Succeed ==>
       LogsEach(old(reg.closed), reg.closed, old(reg.HandlesOf(k)), old(reg.entries), old(reg.types)) &&
       AllReleased(old(reg.HandlesOf(k)), old(reg.entries)))
  }

  /** Count the live handles of `k`; if there are any, clear the class. */
  method EmptyClass(reg: Registry, k: TypeClass) returns (status: Status)
    requires Ready(reg)
    modifies reg, reg.ClassObjects(k)
    ensures Ready(reg)
    ensures Emptied(reg, k, status)
  {
    var n := reg.Count(k);
    status := Succeed;
    if n > 0 {
      status := reg.ClearClass(k);
    }
  }

  /** `PDC_prop_cont_list_null`: release every live container property. */
  method PropContListNull(reg: Registry) returns (status: Status)
    requires Ready(reg)
    modifies reg, reg.ClassObjects(ContPropType)
    ensures Ready(reg)
    ensures Emptied(reg, ContPropType, status)
  {
    status := EmptyClass(reg, ContPropType);
  }

  /** `PDC_prop_obj_list_null`: release every live object property. */
  method PropObjListNull(reg: Registry) returns (status: Status)
    requires Ready(reg)
    modifies reg, reg.ClassObjects(ObjPropType)
    ensures Ready(reg)
    ensures Emptied(reg, ObjPropType, status)
  {
    status := EmptyClass(reg, ObjPropType);
  }

  /**
   * `PDCprop_close`: drop one reference to a property handle; the last one
   * runs the close routine and removes the handle.  Fails exactly on a
   * handle that is not live.
   */
  method PropClose(reg: Registry, id: Handle) returns (status: Status)
    requires Ready(reg)
    modifies reg, reg.Target(id)
    ensures Ready(reg)
    ensures reg.types == old(reg.types)
    ensures status == Fail <==> id !in old(reg.entries)
    ensures id !in old(reg.entries) ==> reg.entries == old(reg.entries) && reg.closed == old(reg.closed)
    ensures id in old(reg.entries) && old(reg.entries[id].refCount) > 1 ==>
      reg.entries == old(reg.entries)[id := old(reg.entries[id]).(refCount := old(reg.entries[id].refCount) - 1)] &&
      reg.closed == old(reg.closed) && unchanged(old(reg.entries[id].rec.Ref()))
    ensures id in old(reg.entries) && old(reg.entries[id].refCount) == 1 ==>
      reg.entries == old(reg.entries) - {id} &&
      reg.closed == old(reg.closed) + [Closed(id, old(reg.types[reg.entries[id].rec.Kind()]), old(reg.entries[id].rec))] &&
      old(reg.entries[id].rec).Released()
  {
    status := reg.DecRef(id);
  }

  /**
   * `PDC_prop_end`: destroy the container property class, then the object
   * property class, releasing whatever handles they still hold; stop at the
   * first failure.  Only the records of the two property classes change.
   */
  method PropEnd(reg: Registry) returns (status: Status)
    requires Ready(reg)
    modifies reg, reg.ClassObjects(ContPropType) + reg.ClassObjects(ObjPropType)
    ensures Ready(reg)
    ensures ContPropType !in old(reg.types) ==>
      status == Fail && reg.types == old(reg.types) &&
      reg.entries == old(reg.entries) && reg.closed == old(reg.closed) &&
      unchanged(old(reg.ClassObjects(ContPropType) + reg.ClassObjects(ObjPropType)))
    ensures ObjPropType !in old(reg.types) ==> status == Fail
    ensures status == Fail ==> unchanged(old(reg.ClassObjects(ObjPropType)))
    ensures status == Fail ==>
      (reg.types == old(reg.types) && reg.entries == old(reg.entries) && reg.closed == old(reg.closed)) ||
      (reg.types == old(reg.types) - {ContPropType} &&
       reg.entries == Without(old(reg.entries), old(reg.HandlesOf(ContPropType))) &&
       LogsEach(old(reg.closed), reg.closed, old(reg.HandlesOf(ContPropType)), old(reg.entries), old(reg.types)) &&
       AllReleased(old(reg.HandlesOf(ContPropType)), old(reg.entries)))
    ensures status == Succeed ==>
      reg.types == old(reg.types) - {ContPropType, ObjPropType} &&
      reg.entries == Without(old(reg.entries), old(reg.HandlesOf(ContPropType)) + old(reg.HandlesOf(ObjPropType))) &&
      reg.Count(ContPropType) == 0 && reg.Count(ObjPropType) == 0
    ensures status == Succeed ==>
      var doomed := old(reg.HandlesOf(ContPropType)) + old(reg.HandlesOf(ObjPropType));
      LogsEach(old(reg.closed), reg.closed, doomed, old(reg.entries), old(reg.types)) &&
      AllReleased(doomed, old(reg.entries))
  {
    ghost var contHandles, objHandles := reg.HandlesOf(ContPropType), reg.HandlesOf(ObjPropType);
    status := EndContainers(reg);
    if status == Fail {
      return;
    }
    status := EndObjects(reg, old(reg.entries), old(reg.types), old(reg.closed), contHandles, objHandles);
  }

  /**
   * The first round of `PropEnd`: destroy the container property class,
   * leaving the object properties and their handles as they were.
   */
  method EndContainers(reg: Registry) returns (status: Status)
    requires Ready(reg)
    modifies reg, reg.ClassObjects(ContPropType)
    ensures Ready(reg)
    ensures unchanged(old(reg.ClassObjects(ObjPropType)))
    ensures ContPropType !in old(reg.types) ==> status == Fail
    ensures status == Fail ==>
      reg.types == old(reg.types) && reg.entries == old(reg.entries) && reg.closed == old(reg.closed) &&
      unchanged(old(reg.ClassObjects(ContPropType)))
    ensures status == Succeed ==>
      reg.types == old(reg.types) - {ContPropType} &&
      reg.HandlesOf(ContPropType) == {} && reg.HandlesOf(ObjPropType) == old(reg.HandlesOf(ObjPropType)) &&
      reg.ClassObjects(ObjPropType) == old(reg.ClassObjects(ObjPropType)) &&
      reg.entries == Without(old(reg.entries), old(reg.HandlesOf(ContPropType))) &&
      LogsEach(old(reg.closed), reg.closed, old(reg.HandlesOf(ContPropType)), old(reg.entries), old(reg.types)) &&
      AllReleased(old(reg.HandlesOf(ContPropType)), old(reg.entries))
    ensures forall h :: h in old(reg.HandlesOf(ContPropType)) ==> h in old(reg.entries) && old(reg.entries[h].rec).ContRec?
  {
    ghost var objObjects := reg.ClassObjects(ObjPropType);
    reg.ClassesDisjoint(ContPropType, ObjPropType);
    status := reg.DestroyType(ContPropType);
    assert unchanged(objObjects);
    if status == Succeed {
      assert reg.HandlesOf(ObjPropType) == old(reg.HandlesOf(ObjPropType));
      assert reg.ClassObjects(ObjPropType) == objObjects;
    }
  }

  /**
   * The second round of `PropEnd`: with the container property class gone,
   * destroy the object property class.
   */
  method EndObjects(reg: Registry, ghost entries0: map<Handle, Entry>, ghost types0: map<TypeClass, CloseRoutine>,
                    ghost log0: seq<Closed>, ghost contHandles: set<Handle>, ghost objHandles: set<Handle>)
    returns (status: Status)
    requires Ready(reg)
    requires forall h :: h in contHandles ==> h in entries0 && entries0[h].rec.ContRec?
    requires reg.HandlesOf(ContPropType) == {} && reg.HandlesOf(ObjPropType) == objHandles
    requires reg.types == types0 - {ContPropType} && reg.entries == Without(entries0, contHandles)
    requires LogsEach(log0, reg.closed, contHandles, entries0, types0) && AllReleased(contHandles, entries0)
    modifies reg, reg.ClassObjects(ObjPropType)
    ensures Ready(reg)
    ensures ObjPropType !in types0 ==> status == Fail
    ensures status == Fail ==> unchanged(old(reg.ClassObjects(ObjPropType)))
    ensures status == Fail ==> reg.types == old(reg.types) && reg.entries == old(reg.entries) && reg.closed == old(reg.closed)
    ensures status == Succeed ==>
      reg.types == types0 - {ContPropType, ObjPropType} &&
      reg.entries == Without(entries0, contHandles + objHandles) &&
      reg.Count(ContPropType) == 0 && reg.Count(ObjPropType) == 0
    ensures status == Succeed ==>
      LogsEach(log0, reg.closed, contHandles + objHandles, entries0, types0) &&
      AllReleased(contHandles + objHandles, entries0)
  {
    ghost var entries1, types1, log1 := reg.entries, reg.types, reg.closed;
    ghost var contObjects := set h | h in contHandles && h in entries0 :: entries0[h].rec.Ref();
    assert contObjects !! reg.ClassObjects(ObjPropType) by {
      forall h, h' | h in contHandles && h in entries0 && h' in reg.entries && reg.entries[h'].rec.Kind() == ObjPropType
        ensures entries0[h].rec.Ref() != reg.entries[h'].rec.Ref()
      {
        assert entries0[h].rec.ContRec? && reg.entries[h'].rec.ObjRec?;
      }
    }
    status := reg.DestroyType(ObjPropType);
    assert unchanged(contObjects);
    if status == Succeed {
      EndLogs(log0, log1, reg.closed, contHandles, objHandles, entries0, types0, entries1, types1);
      EndReleased(contHandles, objHandles, entries0, entries1);
      EndMaps(entries0, contHandles, objHandles, types0);
    }
  }

  /**
   * The two rounds of `PropEnd` log as one: every handle of either property
   * class was logged once, with its own class's routine.
   */
  lemma EndLogs(log0: seq<Closed>, log1: seq<Closed>, log2: seq<Closed>,
                contHandles: set<Handle>, objHandles: set<Handle>,
                entries0: map<Handle, Entry>, types0: map<TypeClass, CloseRoutine>,
                entries1: map<Handle, Entry>, types1: map<TypeClass, CloseRoutine>)
    requires contHandles !! objHandles
    requires entries1 == Without(entries0, contHandles) && types1 == types0 - {ContPropType}
    requires LogsEach(log0, log1, contHandles, entries0, types0)
    requires LogsEach(log1, log2, objHandles, entries1, types1)
    ensures LogsEach(log0, log2, contHandles + objHandles, entries0, types0)
  {
    LogsEachConcat(log0, log1, log2, contHandles, objHandles, entries0, types0, entries1, types1);
  }

  /** Removing the two classes one after the other removes both. */
  lemma EndMaps(entries0: map<Handle, Entry>, contHandles: set<Handle>, objHandles: set<Handle>,
                types0: map<TypeClass, CloseRoutine>)
    ensures Without(Without(entries0, contHandles), objHandles) == Without(entries0, contHandles + objHandles)
    ensures (types0 - {ContPropType}) - {ObjPropType} == types0 - {ContPropType, ObjPropType}
  {
  }

  /** Records released in either round of `PropEnd` are released. */
  lemma EndReleased(contHandles: set<Handle>, objHandles: set<Handle>,
                    entries0: map<Handle, Entry>, entries1: map<Handle, Entry>)
    requires entries1 == Without(entries0, contHandles)
    requires AllReleased(contHandles, entries0) && AllReleased(objHandles, entries1)
    ensures AllReleased(contHandles + objHandles, entries0)
  {
  }

  /**
   * `PDCcont_prop_get_info`: a fresh snapshot of a stored container property,
   * with its own service record; null when the handle is not live.
   */
  method ContPropGetInfo(reg: Registry, id: Handle) returns (r: ContProp?)
    requires Ready(reg) && ContPropOrDead(reg, id)
    ensures r == null <==> id !in reg.entries
    ensures r != null ==>
      fresh(r) && fresh(r.pdc) && r.WellFormed() &&
      r.Value() == reg.entries[id].rec.cont.Value()
  {
    var found := reg.Find(id);
    if found.None? {
      return null;
    }
    var info := found.value.cont;
    r := CallocContProp();
    r.contLife := info.contLife;
    r.contPropId := info.contPropId;
    var service := CallocPdcClass();
    r.pdc := service;
    if info.pdc.name.Some? {
      service.name := info.pdc.name;
    }
    service.localId := info.pdc.localId;
  }

  /**
   * `PDCobj_prop_get_info`: a fresh snapshot of a stored object property —
   * every field copied, with its own service record, extents and strings;
   * null when the handle is not live.  The data buffer is shared, not copied.
   */
  method ObjPropGetInfo(reg: Registry, id: Handle) returns (r: ObjProp?)
    requires Ready(reg) && ObjPropOrDead(reg, id)
    ensures r == null <==> id !in reg.entries
    ensures r != null ==>
      fresh(r) && fresh(r.pdc) && r.dims != null && fresh(r.dims) && r.WellFormed() &&
      r.Value() == reg.entries[id].rec.obj.Value()
  {
    var found := reg.Find(id);
    if found.None? {
      return null;
    }
    var info := found.value.obj;
    r := ShallowCopy(info);
    if info.appName.Some? {
      r.appName := info.appName;
    }
    OwnCopies(r, info);
  }

  /**
   * The part of `ObjPropGetInfo` after the byte copy: give the snapshot its
   * own service record, extents and strings.
   */
  method OwnCopies(r: ObjProp, info: ObjProp)
    requires info.WellFormed() && r != info
    requires r.Unowned() == info.Unowned() && r.pdc == info.pdc && r.dims == info.dims
    requires r.dataLoc == info.dataLoc && r.appName == info.appName && r.tags == info.tags
    modifies r
    ensures fresh(r.pdc) && r.dims != null && fresh(r.dims) && r.WellFormed()
    ensures r.Value() == info.Value()
  {
    r.pdc := CopyService(info.pdc);
    r.dims := CopyDims(info.dims, info.ndim);
    CopyStrings(r, info);
  }

  /** Give `r` its own copies of the strings `info` holds. */
  method CopyStrings(r: ObjProp, info: ObjProp)
    requires r != info
    modifies r
    ensures r.appName == (if info.appName.Some? then info.appName else old(r.appName))
    ensures r.dataLoc == (if info.dataLoc.Some? then info.dataLoc else old(r.dataLoc))
    ensures r.tags == (if info.tags.Some? then info.tags else old(r.tags))
    ensures r.Unowned() == old(r.Unowned()) && r.pdc == old(r.pdc) && r.dims == old(r.dims)
  {
    if info.appName.Some? {
      r.appName := info.appName;
    }
    if info.dataLoc.Some? {
      r.dataLoc := info.dataLoc;
    }
    if info.tags.Some? {
      r.tags := info.tags;
    }
  }

  /**
   * A zero-filled record overwritten byte for byte with `info` (`memcpy`):
   * it shares the service record and the extents of `info`.
   */
  method ShallowCopy(info: ObjProp) returns (r: ObjProp)
    ensures fresh(r)
    ensures r.Unowned() == info.Unowned() && r.pdc == info.pdc && r.dims == info.dims
    ensures r.dataLoc == info.dataLoc && r.appName == info.appName && r.tags == info.tags
  {
    r := CallocObjProp();
    CopyUnowned(r, info);
    r.dims, r.pdc, r.dataLoc, r.appName, r.tags := info.dims, info.pdc, info.dataLoc, info.appName, info.tags;
  }

  /** Copy into `r` the fields of `info` that refer to nothing `info` owns. */
  method CopyUnowned(r: ObjProp, info: ObjProp)
    modifies r
    ensures r.Unowned() == info.Unowned()
  {
    r.objPropId, r.objLife, r.ndim, r.varType, r.typeExtent := info.objPropId, info.objLife, info.ndim, info.varType, info.typeExtent;
    r.locus, r.timeStep, r.dataState, r.transform, r.buf := info.locus, info.timeStep, info.dataState, info.transform, info.buf;
  }

  /** `PDC_obj_prop_free`: run the object property close routine on a record the caller holds. */
  method ObjPropFree(cp: ObjProp) returns (status: Status)
    requires cp.pdc != null
    modifies cp
    ensures status == Succeed
    ensures cp.OwnsNothing()
    ensures cp.Unowned() == old(cp.Unowned())
  {
    status := ObjPropClose(cp);
  }
}
