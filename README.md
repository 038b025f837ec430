# PDC property lifecycle and h5boss work partition, in Dafny

This project models two pieces of the Proactive Data Containers (PDC) code base.

1. **The property interface** (`src/api/pdc_prop.c`).
   Two kinds of property record exist: container properties (`struct PDC_cont_prop`) and object properties (`struct PDC_obj_prop`).
   Each record owns a copy of the service record (`struct PDC_class`) of the PDC instance that created it.
   Records live behind integer handles in a process-wide, reference-counted handle registry, the "atom table".
   The model covers:
   - registering the two type classes with their close routines;
   - creating, duplicating and closing property handles;
   - emptying and destroying the two classes;
   - taking independent snapshots of a stored property;
   - the two close routines that release what a record owns.
2. **`assign_work_to_rank`** (`apps/h5boss/h5boss_v1_query_client_read_iter.c`).
   This routine splits `nwork` items into contiguous slices, one per MPI rank.

Layout:

- `common.dfy` (`Common`): `Option`, handles, and the success/failure status.
- `props.dfy` (`Props`): the records as classes, and their value views.
  - `ContPropValue` and `ObjPropValue` are the value views.
  - An object property's value splits into its *configuration* (what a duplicate keeps) and its *materialisation state* (what a duplicate resets).
  - `NewContValue`, `NewObjValue` and `DupValue` state what create and duplicate must produce.
  - The file also holds the close routines and the extent-copy loop.
- `atom_table.dfy` (`AtomTable`): the registry as a class.
  - A map from handle to (reference count, record), plus the close routine bound to each type class.
  - A ghost log of every close-routine run.
  - The registry implementation is not part of this model, so its contract is the smallest one the callers rely on.
- `prop_api.dfy` (`PropApi`): the public and private functions of `pdc_prop.c`.
  - The registry is passed explicitly as `reg`.
  - Each record is a heap object, so a duplicate or a snapshot is a fresh object with its own service record and its own `dims` array.
- `scenarios.dfy` (`PropScenarios`): two client call sequences and what the caller observes.
  - Create, snapshot, close, snapshot again, close again.
  - Duplicate an object property, then mutate the source's extents.
- `work_partition.dfy` (`WorkPartition`): `assign_work_to_rank` as a pure function, and the partition theorems.
  - C's truncating `/` and `%` are written out explicitly.

Freeing memory is modelled as dropping the reference.
After a close routine, the record's service record and extents are `null` and its owned strings are absent.
The data buffer `buf` is referred to but not owned, so it is left alone.

## Model

| member | source | states |
|---|---|---|
| Props.NewObjValue | src/api/pdc_prop.c:85-113 | A created object property carries the new handle, is transient, has no extents, no application name, no tags and time step 0, has the owner's service record, and has an unknown type, zero extent/state/transform, no location, no buffer and locus CLIENT_MEMORY |
| Props.DupValue | src/api/pdc_prop.c:136-159 | A duplicate carries its own handle, the source's whole configuration (lifetime, ndim, every extent, service record, application name, tags, time step), and a reset materialisation state whatever the source's |
| Props.DupOfDup | src/api/pdc_prop.c:136-159 | Duplicating a duplicate yields what duplicating the original yields |
| Props.DupOfNew | src/api/pdc_prop.c:85-159 | A duplicate of a fresh object property equals a fresh one except that its locus is the zero-filled one rather than CLIENT_MEMORY |
| Props.ContPropClose | src/api/pdc_prop.c:202-213 | The container close routine succeeds and releases the service record, keeping handle and lifetime |
| Props.ObjPropClose | src/api/pdc_prop.c:215-233 | The object close routine succeeds and releases the service record, the extents and the three owned strings; the unowned fields, `buf` included, are unchanged |
| Props.CopyDims | src/api/pdc_prop.c:141-143 | The extent copy loop yields a fresh array whose contents equal the first `ndim` source extents (empty for an absent array) |
| AtomTable.Registry.RegisterType | src/api/pdc_prop.c:44-49 | Binding a close routine to a type class fails exactly when the class is already registered, and then changes nothing |
| AtomTable.Registry.Register | src/api/pdc_prop.c:72-73 | Registration returns a nonzero handle that was not live and maps it to the record with count 1; no other entry changes |
| AtomTable.Registry.Find | src/api/pdc_prop.c:131-134 | Lookup yields the record exactly for a live handle |
| AtomTable.Registry.Count | src/api/pdc_prop.c:174-175 | The count of a type class is zero exactly when no live handle has that class |
| AtomTable.Registry.DecRef | src/api/pdc_prop.c:241-243 | Dropping a reference fails exactly on a handle that is not live; otherwise it decrements and leaves the record untouched, or at the last reference runs the bound close routine once on the record, logs that run, removes the handle and leaves the record owning nothing; no other record can change |
| AtomTable.Registry.ClearClass | src/api/pdc_prop.c:176-177 | Clearing a class touches only that class's records. It either fails and changes nothing, or removes exactly that class's handles, leaves every other entry alone, logs one run of the bound close routine per removed handle, and leaves every removed record owning nothing |
| AtomTable.Registry.DestroyType | src/api/pdc_prop.c:255-259 | Destroying a class touches only that class's records and fails for an unregistered class; a failure changes nothing; on success it has cleared the class as above (logged runs, released records) and unregistered it |
| PropApi.PropInit | src/api/pdc_prop.c:38-53 | Init succeeds exactly when neither property class was registered; it registers the container class first and stops at the first failure, and touches no handle |
| PropApi.PropCreate | src/api/pdc_prop.c:55-118 | An unknown creation type yields 0 and leaves the registry unchanged; a container or object create registers one fresh record under a new handle, with the values `NewContValue`/`NewObjValue` give for the owner's service record |
| PropApi.CreateContProp | src/api/pdc_prop.c:67-84 | A created container property is persistent, holds its own handle and a fresh copy of the owner's service record (name and local id) |
| PropApi.CreateObjProp | src/api/pdc_prop.c:85-114 | A created object property has the defaults of `NewObjValue`, no extent array, and a fresh copy of the owner's service record |
| PropApi.PropObjDup | src/api/pdc_prop.c:120-164 | An unresolved handle yields 0 and changes nothing; otherwise a new handle holds a fresh record, with fresh service record and extents, whose value is `DupValue` of the source, and the source entry and its value are unchanged |
| PropApi.EmptyClass | src/api/pdc_prop.c:173-178 | Only the class's own records can change. An empty class is left alone with success; a non-empty class is cleared, and a failed clearing changes nothing; after success the class is empty, its handles alone are gone, the bound close routine ran once on each and each released record owns nothing |
| PropApi.PropContListNull | src/api/pdc_prop.c:166-182 | The container property class is emptied as `EmptyClass` states |
| PropApi.PropObjListNull | src/api/pdc_prop.c:184-200 | The object property class is emptied as `EmptyClass` states |
| PropApi.PropClose | src/api/pdc_prop.c:235-247 | Close is exactly one reference drop and touches no other record: it fails exactly on a handle that is not live, a shared handle only loses a reference, and at the last reference it runs the bound close routine once, removes the handle and leaves the record owning nothing |
| PropApi.PropEnd | src/api/pdc_prop.c:249-263 | Teardown touches only the two property classes' records. It fails without change if the container class is not registered, and fails if the object class is not. A failure either changes nothing, or, when the second round failed, leaves exactly the container class destroyed (its handles removed with one logged run each and their records released, its registration dropped) with every other entry, registration and record as it was; on success both classes are unregistered, every handle of either class is removed with one logged run of its class's close routine and its record left owning nothing, and the other entries are untouched |
| PropApi.ContPropGetInfo | src/api/pdc_prop.c:265-292 | The container snapshot is null exactly for an unresolved handle; otherwise it is a fresh record with its own service record, equal in value to the stored one |
| PropApi.ObjPropGetInfo | src/api/pdc_prop.c:294-338 | The object snapshot is null exactly for an unresolved handle; otherwise it is a fresh record with its own service record and extents, equal in value to the stored one |
| PropApi.ShallowCopy | src/api/pdc_prop.c:308-311 | The byte copy equals the source field for field and shares its service record and extents |
| PropApi.OwnCopies | src/api/pdc_prop.c:313-334 | After the byte copy, the snapshot gets a fresh service record and fresh extents and its value equals the source's |
| PropApi.ObjPropFree | src/api/pdc_prop.c:341-346 | Freeing a caller-held object property runs the object close routine |
| PropScenarios.ContainerRoundTrip | src/api/pdc_prop.c:55-292 | Create, snapshot and close of a container property under a service named "svc": the snapshot is persistent and named "svc", a later snapshot is null, a second close fails, and the registry entries end as they began with one close-routine run logged |
| PropScenarios.DuplicateIndependence | src/api/pdc_prop.c:139-143 | After duplicating an object property with extents 4, 8 and overwriting the source's first extent, a snapshot of the duplicate still shows 4, 8 |
| WorkPartition.CDiv | apps/h5boss/h5boss_v1_query_client_read_iter.c:41 | C's `/` truncates toward zero: it agrees with Dafny's division on non-negative operands and has the sign of the exact quotient |
| WorkPartition.CMod | apps/h5boss/h5boss_v1_query_client_read_iter.c:45 | C's `%` satisfies `a == b*(a/b) + a%b` with a remainder smaller than the divisor in magnitude and the sign of the dividend |
| WorkPartition.AssignWork | apps/h5boss/h5boss_v1_query_client_read_iter.c:27-52 | The routine rejects (returns -1, writes nothing) exactly when `rank > size` or an output pointer is null, and returns 1 otherwise; when `nwork < size` a rank gets one item exactly when `rank < nwork`, starting at `rank`, and none otherwise |
| WorkPartition.CountIsBaseShare | apps/h5boss/h5boss_v1_query_client_read_iter.c:41-48 | When `nwork >= size`, a rank's count is `nwork/size`, plus one exactly for ranks from `size - nwork%size` on |
| WorkPartition.CountsBalanced | apps/h5boss/h5boss_v1_query_client_read_iter.c:33-48 | The counts of any two ranks in `[0, size)` are non-negative and differ by at most one |
| WorkPartition.PrefixCountClosedForm | apps/h5boss/h5boss_v1_query_client_read_iter.c:33-48 | The items given to ranks below `k` total the closed form `min(k, nwork)`, or `k*(nwork/size)` plus the extras handed out below `k` |
| WorkPartition.CountsSumToWork | apps/h5boss/h5boss_v1_query_client_read_iter.c:33-48 | The counts of ranks `0 .. size-1` add up to exactly `nwork` |
| WorkPartition.StartIsPrefixCount | apps/h5boss/h5boss_v1_query_client_read_iter.c:38-47 | A rank with work starts right after all the items of the lower ranks |
| WorkPartition.PrefixCountMonotone | apps/h5boss/h5boss_v1_query_client_read_iter.c:33-48 | The running total of counts never decreases and is never negative |
| WorkPartition.SliceInRange | apps/h5boss/h5boss_v1_query_client_read_iter.c:33-48 | Every non-empty slice of a rank in `[0, size)` lies within `[0, nwork)` |
| WorkPartition.SlicesDisjoint | apps/h5boss/h5boss_v1_query_client_read_iter.c:33-48 | Non-empty slices of distinct ranks do not overlap, the lower rank's slice coming first |
| WorkPartition.OwnerFrom | apps/h5boss/h5boss_v1_query_client_read_iter.c:33-48 | For an item not yet covered by the ranks below `from`, some rank from `from` on has a non-empty slice holding it |
| WorkPartition.EveryItemOwnedOnce | apps/h5boss/h5boss_v1_query_client_read_iter.c:33-48 | Every item of `[0, nwork)` lies in the slice of exactly one rank |
| WorkPartition.NoOverflow | apps/h5boss/h5boss_v1_query_client_read_iter.c:27-48 | For in-range ranks and `int` inputs, the count, the start and the product `rank * (nwork/size)` all fit in an `int` |
| WorkPartition.RankEqualsSizeOverruns | apps/h5boss/h5boss_v1_query_client_read_iter.c:29-47 | The guard admits `rank == size`, and with `nwork >= size` that rank receives `nwork/size + 1` items starting at `nwork`, wholly past the end |
| WorkPartition.RankEqualsSizeExample | apps/h5boss/h5boss_v1_query_client_read_iter.c:29-47 | One rank and five items, asked for rank 1: the slice is 6 items from index 5 |
| WorkPartition.NegativeRankUnderruns | apps/h5boss/h5boss_v1_query_client_read_iter.c:29-47 | The guard admits every negative rank, and with `nwork >= size` such a rank receives a full share `nwork/size` starting before item 0 |
| WorkPartition.NegativeRankExample | apps/h5boss/h5boss_v1_query_client_read_iter.c:29-47 | One rank and five items, asked for rank -1: the slice is 5 items from index -5 |
| WorkPartition.AssignWorkChecked | apps/h5boss/h5boss_v1_query_client_read_iter.c:29-32 | The corrected guard rejects exactly the ranks outside `[0, size)` and null outputs, and otherwise agrees with the routine as written |
| WorkPartition.CheckedSliceInRange | apps/h5boss/h5boss_v1_query_client_read_iter.c:29-48 | Every slice the corrected routine hands out has a non-negative count and, when non-empty, lies within `[0, nwork)` |

## Left out

- Registry internals: `PDC_register_type`, `PDC_id_register`, `PDC_find_id`, `PDC_dec_ref`, `PDC_id_list_null`, `PDC_id_list_clear` and `PDC_destroy_type` are not part of this model. `AtomTable.Registry` keeps only the contract the property code relies on. It claims nothing about handle reuse or generations, and its handle counter is internal. A new handle is only promised to be nonzero and not live.
- AtomTable.Registry.ClearClass: the conditions under which the real clear fails are unknown. The contract says only that a failure changes nothing and a success empties the class. This implementation fails only for an unregistered class.
- Allocation failures: every `malloc`/`calloc` is assumed to succeed. In the library a failure after registration (the service record at src/api/pdc_prop.c:76-78, 102-104 and 151-153) would leave a live handle with a half-built record. The model does not capture that path.
- The result of `malloc(0)` for an object property with no extents is unspecified in C. The model gives the duplicate and the snapshot an empty array.
- The `app_name` string is copied twice when a snapshot is taken, so one copy leaks (src/api/pdc_prop.c:313-314, 329-330). Strings are values in this model, so the leak has no counterpart.
- PropApi.PropCreate: the owner handle must be live and name a service record, as a precondition. The library dereferences the lookup result without a check.
- AtomTable.Registry.Register: the registry is assumed never to issue handle 0. `PropCreate` and `PropObjDup` return 0 for failure, and api/tests/open_cont.c:15 reads any handle above 0 as success. The doc comment at api/src/pdc_prop.h:47 says a create returns 0 for a container, which would clash with that; the registry implementation is not part of this model, so the model takes the callers' reading.
- PropApi.PropCreate requires the type class it registers under to be registered, as a precondition. Before `PDC_prop_init` the registry's behaviour is not known.
- PropApi.PropObjDup, PropApi.ContPropGetInfo and PropApi.ObjPropGetInfo require a live handle to name a record of the right kind. The library casts the stored pointer without a check.
- PropApi.PropClose and AtomTable.Registry.DecRef: only the property close routines are modelled. The routine bound to service instance records (`PDC_CLASS`) is not part of this model; here it only logs.
- The numeric value of `CLIENT_MEMORY` and the zero value of the `PDC_lifetime` and `PDC_var_type_t` enumerations are defined in headers that are not part of this model. `Locus` keeps CLIENT_MEMORY apart from a zero-filled locus. A zero-filled record's lifetime and data type are left unspecified; the duplicate overwrites both.
- `PDC_transform_state_t`, `PDC_var_type_t` and `PDC_lifetime` carry only the fields and values the property code sets or copies. The rest of `struct PDC_obj_prop` beyond the fields these functions touch is not modelled.
- `api/src/pdc_prop.h` declares `PDCprop_init`/`PDCprop_end`, but the definitions are `PDC_prop_init`/`PDC_prop_end`. Its doc comment says the `list_null` functions fail on a non-empty class, but the code clears the class and succeeds. The model follows the code.
- `api/tests/open_cont.c` depends on the container API, which is not part of this model, and asserts nothing.
- The rest of the h5boss file is not modelled: `main`, `clear_read_cache`, the MPI collectives, file I/O and timing.
- WorkPartition.AssignWork: division by zero (`size == 0` with `nwork >= size`) is undefined behaviour in C and is excluded by a precondition. C `int` overflow outside the ranges of `NoOverflow` is not modelled.
- Error messages: the `PGOTO_ERROR` messages of src/api/pdc_prop.c and the `printf` at apps/h5boss/h5boss_v1_query_client_read_iter.c:30 are output only; the model keeps the return value of each failure path and drops the message.
- Concurrency: nothing in the modelled code is concurrent.

## Findings

| source | as written | input that shows it | evidently intended | confidence | as-written member | corrected member |
|---|---|---|---|---|---|---|
| apps/h5boss/h5boss_v1_query_client_read_iter.c:29 | The guard rejects only `rank > size`, so `rank == size` passes. With `nwork >= size` that rank gets `nwork/size + 1` items starting at `nwork`, past the last item. A negative rank passes too, and gets a full share starting before item 0. The one caller passes `MPI_Comm_rank`, which is below `size`, so the defect is latent | `rank = 1, size = 1, nwork = 5` gives count 6 and start 5; `rank = -1, size = 1, nwork = 5` gives count 5 and start -5 | Reject every rank outside `[0, size)`, so every slice handed out lies within `[0, nwork)` | high for the guard reading; not executed | WorkPartition.RankEqualsSizeOverruns | WorkPartition.AssignWorkChecked |
