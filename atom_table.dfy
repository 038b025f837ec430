/**
 * The process-wide handle registry (the "atom table") as far as the property
 * code relies on it.  Its implementation is not part of this model: the
 * class below keeps the smallest contract the callers use — a map from
 * handle to (reference count, record), one close routine bound per type
 * class, registration of a handle that is not live, lookup, decrement with
 * the close routine run at zero, and clearing of a whole type class.
 */
module AtomTable {
  import opened Common
  import opened Props

  /** The type classes the property code touches (`PDC_CLASS`, `PDC_CONT_PROP`, `PDC_OBJ_PROP`). */
  datatype TypeClass = PdcClassType | ContPropType | ObjPropType

  /**
   * The close routines a type class can be bound to.  The routine for the
   * service instance class is defined outside this model and does nothing
   * here beyond being logged.
   */
  datatype CloseRoutine = PdcClassClose | ContPropCloseRoutine | ObjPropCloseRoutine

  /** The type class whose records a close routine accepts. */
  function Destroys(c: CloseRoutine): TypeClass
  {
    match c
    case PdcClassClose => PdcClassType
    case ContPropCloseRoutine => ContPropType
    case ObjPropCloseRoutine => ObjPropType
  }

  /** A registered object: the untyped `obj_ptr` together with its concrete kind. */
  datatype Record = ClassRec(cls: PdcClass) | ContRec(cont: ContProp) | ObjRec(obj: ObjProp)
  {
    function Kind(): TypeClass
    {
      match this
      case ClassRec(_) => PdcClassType
      case ContRec(_) => ContPropType
      case ObjRec(_) => ObjPropType
    }

    function Ref(): object
    {
      match this
      case ClassRec(c) => c
      case ContRec(c) => c
      case ObjRec(o) => o
    }

    predicate WellFormed()
      reads Ref()
    {
      match this
      case ClassRec(_) => true
      case ContRec(c) => c.WellFormed()
      case ObjRec(o) => o.WellFormed()
    }

    /** The close routine has released everything the record owned. */
    predicate Released()
      reads Ref()
    {
      match this
      case ClassRec(_) => true
      case ContRec(c) => c.pdc == null
      case ObjRec(o) => o.OwnsNothing()
    }
  }

  datatype Entry = Entry(refCount: nat, rec: Record)

  /** One run of a close routine: on which handle, which routine, on which record. */
  datatype Closed = Closed(handle: Handle, routine: CloseRoutine, rec: Record)

  /** `entries` without the handles in `hs`. */
  function Without(entries: map<Handle, Entry>, hs: set<Handle>): (r: map<Handle, Entry>)
    ensures r.Keys == entries.Keys - hs
    ensures forall h :: h in r ==> r[h] == entries[h]
  {
    map h | h in entries && h !in hs :: entries[h]
  }

  /**
   * `log` extends `log0` by exactly one run for each handle of `hs`: the run
   * is on the record `entries` held under the handle, with the routine
   * `types` binds to that record's type class.
   */
  ghost predicate LogsEach(log0: seq<Closed>, log: seq<Closed>, hs: set<Handle>,
                           entries: map<Handle, Entry>, types: map<TypeClass, CloseRoutine>)
  {
    |log0| <= |log| && log[..|log0|] == log0 &&
    |log| - |log0| == |hs| &&
    (forall i :: |log0| <= i < |log| ==>
       log[i].handle in hs && log[i].handle in entries &&
       log[i].rec == entries[log[i].handle].rec &&
       log[i].rec.Kind() in types && log[i].routine == types[log[i].rec.Kind()]) &&
    (forall i, j :: |log0| <= i < j < |log| ==> log[i].handle != log[j].handle)
  }

  lemma LogsEachStep(log0: seq<Closed>, log: seq<Closed>, hs: set<Handle>,
                     entries: map<Handle, Entry>, types: map<TypeClass, CloseRoutine>, h: Handle)
    requires LogsEach(log0, log, hs, entries, types)
    requires h !in hs && h in entries && entries[h].rec.Kind() in types
    ensures LogsEach(log0, log + [Closed(h, types[entries[h].rec.Kind()], entries[h].rec)], hs + {h}, entries, types)
  {
    var log' := log + [Closed(h, types[entries[h].rec.Kind()], entries[h].rec)];
    assert log'[..|log0|] == log[..|log0|];
    assert |hs + {h}| == |hs| + 1;
  }

  /**
   * Two logged rounds of runs over disjoint handle sets make one round over
   * their union, provided the second round saw the same records and the
   * same routines as the first.
   */
  lemma {:induction false} LogsEachConcat(log0: seq<Closed>, log1: seq<Closed>, log2: seq<Closed>,
                                          hs1: set<Handle>, hs2: set<Handle>,
                                          e1: map<Handle, Entry>, t1: map<TypeClass, CloseRoutine>,
                                          e2: map<Handle, Entry>, t2: map<TypeClass, CloseRoutine>)
    requires LogsEach(log0, log1, hs1, e1, t1) && LogsEach(log1, log2, hs2, e2, t2)
    requires hs1 !! hs2
    requires forall h :: h in hs2 && h in e2 ==> h in e1 && e1[h] == e2[h]
    requires forall k :: k in t2 ==> k in t1 && t1[k] == t2[k]
    ensures LogsEach(log0, log2, hs1 + hs2, e1, t1)
  {
    assert log2[..|log0|] == log1[..|log0|];
    assert |hs1 + hs2| == |hs1| + |hs2|;
    forall i | |log0| <= i < |log1|
      ensures log2[i] == log1[i]
    {
      assert log2[..|log1|][i] == log1[i];
    }
  }

  lemma WithoutStep(entries: map<Handle, Entry>, hs: set<Handle>, h: Handle)
    ensures Without(entries, hs) - {h} == Without(entries, hs + {h})
  {
  }

  /** The close routine has released every record `entries` holds under a handle of `hs`. */
  ghost predicate AllReleased(hs: set<Handle>, entries: map<Handle, Entry>)
    reads set h | h in hs && h in entries :: entries[h].rec.Ref()
  {
    forall h :: h in hs && h in entries ==> entries[h].rec.Released()
  }

  class Registry {
    /** Registered type classes and the close routine bound to each. */
    var types: map<TypeClass, CloseRoutine>
    /** Live handles. */
    var entries: map<Handle, Entry>
    /** Source of handles; callers rely only on a new handle being nonzero and not live. */
    var nextId: nat
    /** Every close routine run so far, in order. */
    ghost var closed: seq<Closed>

    ghost function Objects(): set<object>
      reads this
    {
      set h | h in entries :: entries[h].rec.Ref()
    }

    /**
     * Every live handle is nonzero, has a positive count and a registered
     * type class; each type class is bound to a routine that accepts its
     * records; no record is registered under two handles.
     */
    ghost predicate Valid()
      reads this
    {
      0 < nextId &&
      (forall h :: h in entries ==> 0 < h < nextId && entries[h].refCount >= 1 && entries[h].rec.Kind() in types) &&
      (forall k :: k in types ==> Destroys(types[k]) == k) &&
      (forall h1, h2 :: h1 in entries && h2 in entries && h1 != h2 ==> entries[h1].rec.Ref() != entries[h2].rec.Ref())
    }

    ghost predicate RecordsWellFormed()
      reads this, Objects()
    {
      forall h :: h in entries ==> entries[h].rec.WellFormed()
    }

    constructor ()
      ensures Valid() && RecordsWellFormed()
      ensures types == map[] && entries == map[] && closed == []
    {
      types := map[];
      entries := map[];
      nextId := 1;
      closed := [];
    }

    /** `PDC_register_type`: bind a type class to its close routine; fails if it is already registered. */
    method RegisterType(k: TypeClass, routine: CloseRoutine) returns (status: Status)
      requires Valid() && Destroys(routine) == k
      modifies this
      ensures Valid()
      ensures status == Fail <==> k in old(types)
      ensures types == if status == Fail then old(types) else old(types)[k := routine]
      ensures entries == old(entries) && closed == old(closed)
    {
      if k in types {
        return Fail;
      }
      types := types[k := routine];
      status := Succeed;
    }

    /** `PDC_id_register`: store `rec` under a handle that is not live, with count 1. */
    method Register(k: TypeClass, rec: Record) returns (h: Handle)
      requires Valid() && k in types && rec.Kind() == k
      requires rec.Ref() !in Objects()
      modifies this
      ensures Valid()
      ensures h != 0 && h !in old(entries)
      ensures entries == old(entries)[h := Entry(1, rec)]
      ensures types == old(types) && closed == old(closed)
    {
      h := nextId;
      nextId := nextId + 1;
      entries := entries[h := Entry(1, rec)];
    }

    /** `PDC_find_id`: the record of a live handle, or nothing. */
    function Find(h: Handle): (r: Option<Record>)
      reads this
      ensures r.Some? <==> h in entries
      ensures r.Some? ==> r.value == entries[h].rec
    {
      if h in entries then Some(entries[h].rec) else None
    }

    function HandlesOf(k: TypeClass): (hs: set<Handle>)
      reads this
      ensures forall h :: h in hs <==> h in entries && entries[h].rec.Kind() == k
    {
      set h | h in entries && entries[h].rec.Kind() == k
    }

    /** `PDC_id_list_null`: how many handles of a type class are live. */
    function Count(k: TypeClass): (n: nat)
      reads this
      ensures n == 0 <==> forall h :: h in entries ==> entries[h].rec.Kind() != k
    {
      var hs := HandlesOf(k);
      assert hs == {} <==> forall h :: h in entries ==> entries[h].rec.Kind() != k;
      |hs|
    }

    /** The records of the live handles of class `k`. */
    ghost function ClassObjects(k: TypeClass): set<object>
      reads this
    {
      set h | h in entries && entries[h].rec.Kind() == k :: entries[h].rec.Ref()
    }

    /** Two type classes never share a record. */
    lemma ClassesDisjoint(k1: TypeClass, k2: TypeClass)
      requires Valid() && k1 != k2
      ensures ClassObjects(k1) !! ClassObjects(k2)
    {
      forall h1, h2 | h1 in entries && entries[h1].rec.Kind() == k1 && h2 in entries && entries[h2].rec.Kind() == k2
        ensures entries[h1].rec.Ref() != entries[h2].rec.Ref()
      {
      }
    }

    ghost function Target(h: Handle): set<object>
      reads this
    {
      if h in entries then {entries[h].rec.Ref()} else {}
    }

    /** Run the close routine bound to `rec`'s type class. */
    static method RunClose(rec: Record)
      requires rec.WellFormed()
      modifies rec.Ref()
      ensures rec.Released()
    {
      match rec
      case ClassRec(_) =>
      case ContRec(c) =>
        var _ := ContPropClose(c);
      case ObjRec(o) =>
        var _ := ObjPropClose(o);
    }

    /** Run the close routine of the live handle `h`, log it and remove the handle. */
    method ReleaseOne(h: Handle)
      requires Valid() && RecordsWellFormed() && h in entries
      modifies this, entries[h].rec.Ref()
      ensures Valid() && RecordsWellFormed()
      ensures types == old(types)
      ensures entries == old(entries) - {h}
      ensures closed == old(closed) + [Closed(h, old(types[entries[h].rec.Kind()]), old(entries[h].rec))]
      ensures old(entries[h].rec).Released()
    {
      var rec := entries[h].rec;
      closed := closed + [Closed(h, types[rec.Kind()], rec)];
      entries := entries - {h};
      assert rec.Ref() !in Objects();
      RunClose(rec);
    }

    /** One round of clearing class `k`: release `h`, one of its live handles. */
    method ReleaseStep(k: TypeClass, h: Handle, ghost log0: seq<Closed>,
                       ghost entries0: map<Handle, Entry>, ghost done: set<Handle>)
      requires Valid() && RecordsWellFormed() && k in types
      requires h in entries && entries[h].rec.Kind() == k && h !in done
      requires entries == Without(entries0, done)
      requires entries0[h] == entries[h]
      requires LogsEach(log0, closed, done, entries0, types)
      requires forall d :: d in done ==> d in entries0 && entries0[d].rec.Ref() != entries[h].rec.Ref()
      requires AllReleased(done, entries0)
      modifies this, entries[h].rec.Ref()
      ensures Valid() && RecordsWellFormed() && types == old(types)
      ensures entries == Without(entries0, done + {h})
      ensures LogsEach(log0, closed, done + {h}, entries0, types)
      ensures AllReleased(done + {h}, entries0)
    {
      LogsEachStep(log0, closed, done, entries0, types, h);
      WithoutStep(entries0, done, h);
      ghost var earlier := set d | d in done && d in entries0 :: entries0[d].rec.Ref();
      ReleaseOne(h);
      assert unchanged(earlier);
    }

    /**
     * `PDC_dec_ref`: fails on a handle that is not live; otherwise drops one
     * reference, and when that was the last one runs the type class's close
     * routine on the record and removes the handle.
     */
    method DecRef(h: Handle) returns (status: Status)
      requires Valid() && RecordsWellFormed()
      modifies this, Target(h)
      ensures Valid() && RecordsWellFormed()
      ensures types == old(types)
      ensures status == Fail <==> h !in old(entries)
      ensures h !in old(entries) ==> entries == old(entries) && closed == old(closed)
      ensures h in old(entries) && old(entries[h].refCount) > 1 ==>
        entries == old(entries)[h := old(entries[h]).(refCount := old(entries[h].refCount) - 1)] &&
        closed == old(closed) && unchanged(old(entries[h].rec.Ref()))
      ensures h in old(entries) && old(entries[h].refCount) == 1 ==>
        entries == old(entries) - {h} &&
        closed == old(closed) + [Closed(h, old(types[entries[h].rec.Kind()]), old(entries[h].rec))] &&
        old(entries[h].rec).Released()
    {
      if h !in entries {
        return Fail;
      }
      var e := entries[h];
      if e.refCount > 1 {
        entries := entries[h := e.(refCount := e.refCount - 1)];
      } else {
        ReleaseOne(h);
      }
      status := Succeed;
    }

    /** The state part-way through clearing class `k`: the handles of `doomed` not in `todo` are released. */
    ghost predicate Clearing(k: TypeClass, doomed: set<Handle>, todo: set<Handle>, entries0: map<Handle, Entry>,
                             log0: seq<Closed>, types0: map<TypeClass, CloseRoutine>, objects0: set<object>)
      reads this, Objects(), objects0
    {
      Valid() && RecordsWellFormed() && types == types0 && k in types &&
      todo <= doomed &&
      (forall h :: h in doomed ==> h in entries0 && entries0[h].rec.Kind() == k && entries0[h].rec.Ref() in objects0) &&
      (forall h1, h2 :: h1 in doomed && h2 in doomed && h1 != h2 ==> entries0[h1].rec.Ref() != entries0[h2].rec.Ref()) &&
      entries == Without(entries0, doomed - todo) &&
      LogsEach(log0, closed, doomed - todo, entries0, types0) &&
      AllReleased(doomed - todo, entries0)
    }

    /** Before any release, the registry is part-way through clearing class `k` with every handle still to do. */
    lemma ClearingStarts(k: TypeClass)
      requires Valid() && RecordsWellFormed() && k in types
      ensures Clearing(k, HandlesOf(k), HandlesOf(k), entries, closed, types, ClassObjects(k))
    {
      assert entries == Without(entries, {});
      assert closed[..|closed|] == closed;
      forall h | h in HandlesOf(k)
        ensures entries[h].rec.Ref() in ClassObjects(k)
      {
      }
    }

    /**
     * Once no handle is left to do, class `k` has no live handle, each handle
     * of `doomed` was released once and is gone, and nothing else changed.
     */
    lemma ClearingEnds(k: TypeClass, doomed: set<Handle>, entries0: map<Handle, Entry>,
                       log0: seq<Closed>, types0: map<TypeClass, CloseRoutine>, objects0: set<object>)
      requires Clearing(k, doomed, {}, entries0, log0, types0, objects0)
      requires forall h :: h in entries0 && entries0[h].rec.Kind() == k ==> h in doomed
      ensures Valid() && RecordsWellFormed() && types == types0
      ensures HandlesOf(k) == {}
      ensures entries == Without(entries0, doomed)
      ensures LogsEach(log0, closed, doomed, entries0, types0)
      ensures AllReleased(doomed, entries0)
    {
      assert doomed - {} == doomed;
      forall h | h in entries
        ensures entries[h].rec.Kind() != k
      {
        assert h in entries0 && h !in doomed;
      }
    }

    /** One step of clearing: release `h`, one of the handles of `doomed` still to do. */
    method ClearOne(k: TypeClass, h: Handle, ghost todo: set<Handle>, ghost doomed: set<Handle>,
                    ghost entries0: map<Handle, Entry>, ghost log0: seq<Closed>,
                    ghost types0: map<TypeClass, CloseRoutine>, ghost objects0: set<object>)
      requires Clearing(k, doomed, todo, entries0, log0, types0, objects0) && h in todo
      modifies this, objects0
      ensures Clearing(k, doomed, todo - {h}, entries0, log0, types0, objects0)
    {
      assert entries0[h] == entries[h];
      ReleaseStep(k, h, log0, entries0, doomed - todo);
      assert (doomed - todo) + {h} == doomed - (todo - {h});
    }

    /** Release every handle of `todo`, completing the clearing of class `k`. */
    method ClearAll(k: TypeClass, todo: set<Handle>, ghost doomed: set<Handle>, ghost entries0: map<Handle, Entry>,
                    ghost log0: seq<Closed>, ghost types0: map<TypeClass, CloseRoutine>, ghost objects0: set<object>)
      requires Clearing(k, doomed, todo, entries0, log0, types0, objects0)
      modifies this, objects0
      ensures Clearing(k, doomed, {}, entries0, log0, types0, objects0)
    {
      var rest := todo;
      while rest != {}
        invariant Clearing(k, doomed, rest, entries0, log0, types0, objects0)
        decreases rest
      {
        var h :| h in rest;
        ClearOne(k, h, rest, doomed, entries0, log0, types0, objects0);
        rest := rest - {h};
      }
    }

    /**
     * `PDC_id_list_clear`: run the close routine on every live handle of a
     * type class and remove them all.  Callers rely only on this: a failure
     * changes nothing, a success leaves the class empty.  This model fails
     * exactly when the class is not registered.
     */
    method ClearClass(k: TypeClass) returns (status: Status)
      requires Valid() && RecordsWellFormed()
      modifies this, ClassObjects(k)
      ensures Valid() && RecordsWellFormed()
      ensures types == old(types)
      ensures status == Fail ==> entries == old(entries) && closed == old(closed) && unchanged(old(ClassObjects(k)))
      ensures status == Succeed ==>
        k in old(types) && HandlesOf(k) == {} &&
        entries == Without(old(entries), old(HandlesOf(k))) &&
        LogsEach(old(closed), closed, old(HandlesOf(k)), old(entries), old(types)) &&
        AllReleased(old(HandlesOf(k)), old(entries))
    {
      if k !in types {
        return Fail;
      }
      var todo := HandlesOf(k);
      ClearingStarts(k);
      ClearAll(k, todo, todo, old(entries), old(closed), old(types), old(ClassObjects(k)));
      ClearingEnds(k, todo, old(entries), old(closed), old(types), old(ClassObjects(k)));
      status := Succeed;
    }

    /**
     * `PDC_destroy_type`: clear a registered type class, then unregister it.
     * A class left non-empty by its users is cleared, not refused.
     */
    method DestroyType(k: TypeClass) returns (status: Status)
      requires Valid() && RecordsWellFormed()
      modifies this, ClassObjects(k)
      ensures Valid() && RecordsWellFormed()
      ensures status == Fail ==>
        entries == old(entries) && closed == old(closed) && types == old(types) && unchanged(old(ClassObjects(k)))
      ensures k !in old(types) ==> status == Fail
      ensures status == Succeed ==>
        types == old(types) - {k} && HandlesOf(k) == {} &&
        entries == Without(old(entries), old(HandlesOf(k))) &&
        LogsEach(old(closed), closed, old(HandlesOf(k)), old(entries), old(types)) &&
        AllReleased(old(HandlesOf(k)), old(entries))
    {
      if k !in types {
        return Fail;
      }
      ghost var hs, e0 := HandlesOf(k), entries;
      status := ClearClass(k);
      if status == Fail {
        return;
      }
      Unregister(k, hs, e0);
    }

    /** Drop the binding of a type class that has no live handle left. */
    method Unregister(k: TypeClass, ghost hs: set<Handle>, ghost e0: map<Handle, Entry>)
      requires Valid() && RecordsWellFormed() && HandlesOf(k) == {}
      requires AllReleased(hs, e0)
      modifies this
      ensures Valid() && RecordsWellFormed()
      ensures AllReleased(hs, e0)
      ensures types == old(types) - {k}
      ensures entries == old(entries) && closed == old(closed)
    {
      types := types - {k};
    }
  }
}
