/**
 * Client sequences over the property interface: each method runs a short
 * sequence of calls against the registry and states what the caller
 * observes at the end.
 */
module PropScenarios {
  import opened Common
  import opened Props
  import opened AtomTable
  import opened PropApi

  /**
   * Create a container property under a service record named "svc", take a
   * snapshot, close the handle, then try the snapshot and the close again:
   * the snapshot is persistent and carries the owner's name, the handle is
   * gone afterwards, and the registry holds exactly what it held before.
   */
  method ContainerRoundTrip(reg: Registry, owner: Handle)
    returns (life: Lifetime, name: Option<string>, after: ContProp?, second: Status)
    requires Ready(reg) && ContPropType in reg.types && OwnerLive(reg, owner)
    requires reg.entries[owner].rec.cls.name == Some("svc")
    modifies reg
    ensures Ready(reg)
    ensures life == Persist && name == Some("svc")
    ensures after == null && second == Fail
    ensures reg.entries == old(reg.entries) && reg.types == old(reg.types)
    ensures |reg.closed| == |old(reg.closed)| + 1
  {
    var h := PropCreate(reg, ContCreate, owner);
    var snap := ContPropGetInfo(reg, h);
    life, name := snap.contLife, snap.pdc.name;
    ghost var created := reg.entries;
    var first := PropClose(reg, h);
    assert first == Succeed;
    assert reg.entries == created - {h} == old(reg.entries);
    after := ContPropGetInfo(reg, h);
    second := PropClose(reg, h);
  }

  /** Give a registered object property the extents `4, 8`, as a later stage of the library would. */
  method Populate(q: ObjProp) returns (a: array<uint64>)
    requires q.pdc != null
    modifies q
    ensures fresh(a) && q.dims == a && q.ndim == 2 && a[..] == [4, 8]
    ensures q.WellFormed() && q.pdc == old(q.pdc)
  {
    a := new uint64[2];
    a[0], a[1] := 4, 8;
    q.dims := a;
    q.ndim := 2;
  }

  /**
   * Create an object property, give it the extents `4, 8`, duplicate it and
   * then overwrite the source's first extent: a snapshot of the duplicate
   * still shows `4, 8`, because the duplicate's extents are its own.
   */
  method DuplicateIndependence(reg: Registry, owner: Handle) returns (dims: seq<uint64>)
    requires Ready(reg) && ObjPropType in reg.types && OwnerLive(reg, owner)
    modifies reg
    ensures dims == [4, 8]
  {
    var h, a := CreatePopulated(reg, owner);
    var h2 := PropObjDup(reg, h);
    a[0] := 7;
    var snap := ObjPropGetInfo(reg, h2);
    dims := snap.dims[..];
  }

  /** Create an object property under `owner` and give it the extents `4, 8`, held in `a`. */
  method CreatePopulated(reg: Registry, owner: Handle) returns (h: Handle, a: array<uint64>)
    requires Ready(reg) && ObjPropType in reg.types && OwnerLive(reg, owner)
    modifies reg
    ensures Ready(reg) && reg.types == old(reg.types)
    ensures h in reg.entries && reg.entries[h].rec.ObjRec? && fresh(reg.entries[h].rec.obj)
    ensures fresh(a) && reg.entries[h].rec.obj.dims == a && a[..] == [4, 8]
  {
    h := PropCreate(reg, ObjCreate, owner);
    var q := reg.Find(h).value.obj;
    a := Populate(q);
  }
}
