/**
 * The two property records (`struct PDC_cont_prop`, `struct PDC_obj_prop`),
 * the service record they each own a copy of (`struct PDC_class`), their
 * value views, and the close routines that release what a record owns.
 *
 * Records are heap objects, as in the library: a duplicate or a snapshot is
 * a fresh object with a fresh service record and a fresh `dims` array.
 * Strings are values here, so an owned string copy (`strdup`) is simply the
 * same string value; a string cannot be aliased.
 */
module Props {
  import opened Common

  newtype uint64 = x: int | 0 <= x < 0x1_0000_0000_0000_0000

  /** `PDC_lifetime`. */
  datatype Lifetime = Persist | Transient

  /** `PDC_var_type_t`: only PDC_UNKNOWN is named by the property code. */
  datatype VarType = UnknownType | KnownType(code: nat)

  /**
   * The object's materialisation locus.  The numeric value of CLIENT_MEMORY
   * is defined outside this model, so a zero-filled locus is kept apart as
   * `RawLocus(0)`; the two stand for the same C value if CLIENT_MEMORY is 0.
   */
  datatype Locus = ClientMemory | RawLocus(bits: nat)

  const ZeroLocus: Locus := RawLocus(0)

  /** `PDC_transform_state_t`, whose fields are outside this model, as one bit pattern. */
  datatype TransformState = TransformState(bits: nat)

  const ZeroTransform: TransformState := TransformState(0)

  /** The value of a service record: its owned name (NULL when absent) and local id. */
  datatype ServiceValue = ServiceValue(name: Option<string>, localId: int)

  datatype ContPropValue = ContPropValue(contPropId: Handle, contLife: Lifetime, service: ServiceValue)

  /**
   * The value of an object property.  `dims` holds the `ndim` extents; an
   * absent `dims` pointer reads as the empty sequence.  `buf` is the address
   * of a buffer the record refers to but does not own.
   */
  datatype ObjPropValue = ObjPropValue(
    objPropId: Handle,
    objLife: Lifetime,
    ndim: nat,
    dims: seq<uint64>,
    service: ServiceValue,
    varType: VarType,
    typeExtent: nat,
    locus: Locus,
    dataLoc: Option<string>,
    appName: Option<string>,
    tags: Option<string>,
    timeStep: int,
    dataState: int,
    transform: TransformState,
    buf: Option<nat>)

  /**
   * What a duplicate carries over from its source: the configuration of the
   * object to be created.
   */
  datatype Configuration = Configuration(
    objLife: Lifetime, ndim: nat, dims: seq<uint64>, service: ServiceValue,
    appName: Option<string>, tags: Option<string>, timeStep: int)

  /** What describes data already materialised for an object. */
  datatype Materialization = Materialization(
    varType: VarType, typeExtent: nat, locus: Locus, dataLoc: Option<string>,
    dataState: int, transform: TransformState, buf: Option<nat>)

  function ConfigurationOf(v: ObjPropValue): Configuration
  {
    Configuration(v.objLife, v.ndim, v.dims, v.service, v.appName, v.tags, v.timeStep)
  }

  function MaterializationOf(v: ObjPropValue): Materialization
  {
    Materialization(v.varType, v.typeExtent, v.locus, v.dataLoc, v.dataState, v.transform, v.buf)
  }

  /** Materialisation state with every field unknown, absent or zero. */
  const NoMaterialization: Materialization :=
    Materialization(UnknownType, 0, ZeroLocus, None, 0, ZeroTransform, None)

  /** Handle, configuration and materialisation together determine an object property. */
  lemma ObjPropValueDetermined(v: ObjPropValue, w: ObjPropValue)
    requires v.objPropId == w.objPropId
    requires ConfigurationOf(v) == ConfigurationOf(w)
    requires MaterializationOf(v) == MaterializationOf(w)
    ensures v == w
  {
  }

  /** `struct PDC_class`: the service instance record. */
  class PdcClass {
    var name: Option<string>
    var localId: int

    function Value(): ServiceValue
      reads this
    {
      ServiceValue(name, localId)
    }
  }

  /** `struct PDC_cont_prop`. */
  class ContProp {
    var contPropId: Handle
    var contLife: Lifetime
    var pdc: PdcClass?

    /** A live record owns a service record. */
    predicate WellFormed()
      reads this
    {
      pdc != null
    }

    ghost function Value(): ContPropValue
      reads this, pdc
      requires WellFormed()
    {
      ContPropValue(contPropId, contLife, pdc.Value())
    }
  }

  /** `struct PDC_obj_prop`. */
  class ObjProp {
    var objPropId: Handle
    var objLife: Lifetime
    var ndim: nat
    var dims: array?<uint64>
    var pdc: PdcClass?
    var varType: VarType
    var typeExtent: nat
    var locus: Locus
    var dataLoc: Option<string>
    var appName: Option<string>
    var tags: Option<string>
    var timeStep: int
    var dataState: int
    var transform: TransformState
    var buf: Option<nat>

    /**
     * A live record owns a service record, and `dims` is either absent with
     * `ndim == 0` or holds exactly `ndim` extents.
     */
    predicate WellFormed()
      reads this
    {
      pdc != null &&
      (dims == null ==> ndim == 0) &&
      (dims != null ==> dims.Length == ndim)
    }

    ghost function Value(): ObjPropValue
      reads this, pdc, dims
      requires WellFormed()
    {
      ObjPropValue(objPropId, objLife, ndim, if dims == null then [] else dims[..], pdc.Value(),
                   varType, typeExtent, locus, dataLoc, appName, tags, timeStep, dataState, transform, buf)
    }

    /** The fields that refer to nothing the record owns. */
    ghost function Unowned(): (Handle, Lifetime, nat, VarType, nat, Locus, int, int, TransformState, Option<nat>)
      reads this
    {
      (objPropId, objLife, ndim, varType, typeExtent, locus, timeStep, dataState, transform, buf)
    }

    /** Nothing the record owned is still referenced: service record, extents and strings are released. */
    predicate OwnsNothing()
      reads this
    {
      pdc == null && dims == null && dataLoc.None? && appName.None? && tags.None?
    }
  }

  /** The container property a create call builds for the owner whose service record is `owner`. */
  function NewContValue(owner: ServiceValue, id: Handle): ContPropValue
  {
    ContPropValue(id, Persist, owner)
  }

  /** The object property a create call builds for the owner whose service record is `owner`. */
  function NewObjValue(owner: ServiceValue, id: Handle): (v: ObjPropValue)
    ensures v.objPropId == id
    ensures ConfigurationOf(v) == Configuration(Transient, 0, [], owner, None, None, 0)
    ensures MaterializationOf(v) == NoMaterialization.(locus := ClientMemory)
  {
    ObjPropValue(id, Transient, 0, [], owner, UnknownType, 0, ClientMemory, None, None, None, 0, 0, ZeroTransform, None)
  }

  /**
   * The duplicate of `src` registered under `id`: the configuration is
   * carried over, the materialisation state is reset.
   */
  function DupValue(src: ObjPropValue, id: Handle): (v: ObjPropValue)
    ensures v.objPropId == id
    ensures ConfigurationOf(v) == ConfigurationOf(src)
    ensures MaterializationOf(v) == NoMaterialization
  {
    ObjPropValue(id, src.objLife, src.ndim, src.dims, src.service, UnknownType, 0, ZeroLocus,
                 None, src.appName, src.tags, src.timeStep, 0, ZeroTransform, None)
  }

  /** Duplicating a duplicate gives what duplicating the original gives. */
  lemma DupOfDup(v: ObjPropValue, a: Handle, b: Handle)
    ensures DupValue(DupValue(v, a), b) == DupValue(v, b)
  {
    ObjPropValueDetermined(DupValue(DupValue(v, a), b), DupValue(v, b));
  }

  /** A duplicate of a freshly created object property differs from a fresh one at most in its locus. */
  lemma DupOfNew(owner: ServiceValue, a: Handle, b: Handle)
    ensures DupValue(NewObjValue(owner, a), b) == NewObjValue(owner, b).(locus := ZeroLocus)
  {
  }

  /**
   * `pdc_prop_cont_close`: release the service record (and its name).
   * The library frees memory; the model drops the reference.
   */
  method ContPropClose(cp: ContProp) returns (status: Status)
    requires cp.pdc != null
    modifies cp
    ensures status == Succeed
    ensures cp.pdc == null
    ensures cp.contPropId == old(cp.contPropId) && cp.contLife == old(cp.contLife)
  {
    cp.pdc := null;
    status := Succeed;
  }

  /**
   * `pdc_prop_obj_close`: release the service record, the extents and the
   * three owned strings.  The data buffer is not owned and is left alone.
   */
  method ObjPropClose(cp: ObjProp) returns (status: Status)
    requires cp.pdc != null
    modifies cp
    ensures status == Succeed
    ensures cp.OwnsNothing()
    ensures cp.Unowned() == old(cp.Unowned())
  {
    cp.pdc := null;
    if cp.dims != null {
      cp.dims := null;
    }
    cp.appName := None;
    cp.tags := None;
    cp.dataLoc := None;
    status := Succeed;
  }

  /**
   * `PDC_MALLOC(struct PDC_cont_prop)`: a fresh record whose contents the
   * caller must set; the model promises nothing about them.
   */
  method MallocContProp() returns (p: ContProp)
    ensures fresh(p)
  {
    p := new ContProp;
  }

  /** `PDC_MALLOC(struct PDC_obj_prop)`: a fresh record whose contents the caller must set. */
  method MallocObjProp() returns (q: ObjProp)
    ensures fresh(q)
  {
    q := new ObjProp;
  }

  /** `PDC_CALLOC(struct PDC_class)`: a zero-filled service record. */
  method CallocPdcClass() returns (c: PdcClass)
    ensures fresh(c) && c.Value() == ServiceValue(None, 0)
  {
    c := new PdcClass;
    c.name := None;
    c.localId := 0;
  }

  /** `PDC_CALLOC(struct PDC_cont_prop)`: a zero-filled container property record. */
  method CallocContProp() returns (p: ContProp)
    ensures fresh(p) && p.pdc == null && p.contPropId == 0
  {
    p := new ContProp;
    p.contPropId := 0;
    p.pdc := null;
  }

  /**
   * `PDC_CALLOC(struct PDC_obj_prop)`: a zero-filled object property record.
   * The zero values of the lifetime and data type enumerations are defined
   * outside this model; those two fields are left unspecified.
   */
  method CallocObjProp() returns (q: ObjProp)
    ensures fresh(q)
    ensures q.objPropId == 0 && q.ndim == 0 && q.dims == null && q.pdc == null
    ensures q.typeExtent == 0 && q.locus == ZeroLocus && q.dataState == 0 && q.transform == ZeroTransform
    ensures q.dataLoc == None && q.appName == None && q.tags == None && q.timeStep == 0 && q.buf == None
  {
    q := new ObjProp;
    q.objPropId, q.ndim, q.dims, q.pdc := 0, 0, null, null;
    q.typeExtent, q.locus, q.dataState, q.transform := 0, ZeroLocus, 0, ZeroTransform;
    q.dataLoc, q.appName, q.tags, q.timeStep, q.buf := None, None, None, 0, None;
  }

  /** A fresh copy of the first `n` extents of `src` (the copy loops of duplicate and get-info). */
  method CopyDims(src: array?<uint64>, n: nat) returns (dst: array<uint64>)
    requires src == null ==> n == 0
    requires src != null ==> n <= src.Length
    ensures fresh(dst) && dst.Length == n
    ensures dst[..] == if src == null then [] else src[..n]
  {
    dst := new uint64[n];
    var i := 0;
    while i < n
      invariant 0 <= i <= n
      invariant forall j :: 0 <= j < i ==> dst[j] == src[j]
    {
      dst[i] := src[i];
      i := i + 1;
    }
  }
}
