# hedge: generation-checked element storage, kernels and mesh counts

This project models the storage core of the half-edge mesh library `hedge`.
- **Strong indices.** An index is a slot offset plus a generation. Each element kind (vertex, edge, face, point) has its own index type.
- **Element store.** The store (`element_vector_t`) is a growable sequence with a sentinel in slot 0. Lookup checks the generation. `remove` swaps the last element into the freed slot and bumps the moved element's generation.
- **Kernels.** A kernel holds one store per kind and routes every `get`, `emplace`/`create` and `remove` to the store of the index's kind.
- **Mesh.** The mesh façade reports counts with the sentinel subtracted.

The repository keeps several versions of this code, and each has its own module:

| module | file | what differs |
|---|---|---|
| `Hedge` | hedge/cpp/hedge.hpp | `index_t(offset, generation)`, `==`/`!=`/`bool`, element records with a uint32 generation, `element_fn_t` |
| `HedgeStore` | hedge/cpp/hedge.cpp (identical at hedge/cpp/hedge.cc:16-71) | the store as written, plus the corrected definitions (`…Intended`) |
| `HedgeKernel` | hedge/cpp/hedge.cpp | `basic_kernel_t` over four stores; `mesh_t` counts minus 1 |
| `PointKernel` | hedge/cpp/hedge.cc | points in a raw vector with no sentinel and no generation check; mesh point count not decremented |
| `CompactIndex` | hedge/include/hedge.hpp | uint32 `index_t(generation, offset)`, `bool` over kind and offset, records without generations |
| `GuardedStore` | hedge/src/hedge.cc | `get` that rejects a false index and has an inverted generation test; `create` with an out-slot |
| `MeshKernel` | hedge/src/default_kernel.cc | four plain vectors seeded with sentinels |

How the model represents things:
- **Values and state.** Indices, records and elements are datatypes. Stores and kernels are classes whose `seq` fields their methods reassign.
- **Specifications.** Each state change is specified by a pure function of the old state (`HedgeStore.RemoveAsWritten`, `GuardedStore.RemoveAsWritten`, `PointKernel.RemovePointAt`). The lemmas are stated about those functions.
- **Kernels.** A kernel's stores are `const` references to distinct objects. Each kernel method modifies only the store of its kind and ensures `unchanged` of the other three.
- **Lookups.** C++ pointers returned by lookups become `Option` values. The out-pointer of `create` becomes the slot offset it addresses.
- **Kinds.** Each kind is a separate marker type, so `Index<EdgeKind>` and `Index<FaceKind>` cannot be mixed. A cross-kind comparison is a type error, as it is in the C++ (hedge/src/hedge_test.cc:29).
- **Integer widths.** The uint32 element generation wraps on `generation++` (`HedgeStore.Bump`). The size_t `count - 1` of the mesh wraps at 0 (`HedgeKernel.SizeMinusOne`). That case is reachable, because the as-written `remove` of the null index empties a store. The offset that hedge/src/hedge.cc's `create` returns is modelled as a uint32, the size taken modulo 2^32. The source tree does not fix this index type; see `GuardedStore.GuardedVector.Create` under "## Left out".
- **Defaults.** The body of `element_t()` is not in the source tree. It is taken to start generation and flags at 0. The origin position of `point_t()` comes from its body at hedge/cpp/hedge.cpp:177. Positions are three reals that are only stored and compared.

Where the source's own comments and its sibling variant promise more than the code does, the model follows the code:
- In hedge/cpp, `get` accepts the null index (hedge/cpp/hedge.cpp:33-39). The variant in hedge/src/hedge.cc guards against it with `index &&` at line 39.
- `element_fn_t`'s `bool` does not check that the element exists.
- In hedge/cpp/hedge.cc, the mesh point count subtracts nothing.

The header that hedge/src/hedge.cc compiles against is not in the source tree. That file's `TElementIndex index(collection.size(), 0)` is read as (offset = size, generation = 0), as in hedge/cpp. Read against hedge/include/hedge.hpp:36, whose constructor takes `(generation, offset)`, it would instead give offset 0. `CompactIndex.ConstructorOrderReversed` states the reversal.

## Model

| member | source | states |
|---|---|---|
| `Hedge.Index.IsSet` | hedge/cpp/hedge.hpp:57-59 | an index is truthy iff its offset is non-zero |
| `Hedge.IsSetIgnoresGeneration` | hedge/cpp/hedge.hpp:57-59 | two indices at one offset are both set or both null, whatever their generations |
| `Hedge.Null` | hedge/cpp/hedge.hpp:35-38 | the default index has offset 0 and generation 0 and is false (as hedge/cpp/hedge_test.cpp:13-14 asserts) |
| `Hedge.AtOffset` | hedge/cpp/hedge.hpp:40-43 | the one-argument constructor sets the offset and generation 0; it is truthy iff the offset is non-zero and null iff the offset is 0 |
| `Hedge.Equal` | hedge/cpp/hedge.hpp:53-55 | `==` on offset and generation is exactly value equality of same-kind indices |
| `Hedge.NotEqual` | hedge/cpp/hedge.hpp:50-52 | `!=` is the exact negation of `==` |
| `Hedge.EqualIsEquivalence` | hedge/cpp/hedge_test.cpp:20-27 | `==` is reflexive (so a copy equals its source), symmetric and transitive; `!=` is symmetric |
| `Hedge.Fresh` | hedge/cpp/hedge.hpp:73-77 | a value-initialised element has generation 0, flags 0 and the given payload |
| `Hedge.BlankPoint` | hedge/cpp/hedge.cpp:175-178 | `point_t()` holds the origin position (0, 0, 0) |
| `Hedge.BlankEdge` | hedge/cpp/hedge.cpp:22 | the sentinel `TElement {}` edge has all five indices (vertex, face, next, prev, adjacent) false, taking the default index members as null |
| `Hedge.BlankFace` | hedge/cpp/hedge.cpp:22 | the sentinel face's edge index is false |
| `Hedge.BlankVertex` | hedge/cpp/hedge.cpp:22 | the sentinel vertex's point and edge indices are false |
| `Hedge.NewPoint` | hedge/cpp/hedge.cpp:170-173 | `point_t(x, y, z)` holds position (x, y, z) with generation 0 |
| `Hedge.SetVertexIndex` | hedge/cpp/hedge.hpp:79-85 | assigning an edge's `vertex_index` and reading it back yields that index, equal under `==`; every other field is unchanged (hedge/cpp/hedge_test.cpp:29-34) |
| `Hedge.ElementFn.IsSet` | hedge/cpp/hedge.hpp:119-121 | a proxy is true iff its kernel is non-null and its index offset is non-zero; existence is not checked |
| `Hedge.NullProxyIsFalse` | hedge/cpp/hedge_test.cpp:36-49 | a proxy with a null kernel is false for any index, the default index included |
| `HedgeStore.Bump` | hedge/cpp/hedge.cpp:67 | `generation++` keeps payload and flags and changes the uint32 generation, wrapping to 0 after 2^32-1 |
| `HedgeStore.RemoveAsWritten` | hedge/cpp/hedge.cpp:58-71 | an accepted remove shortens the store by exactly 1; a rejected one leaves it unchanged |
| `HedgeStore.ElementVector.constructor` | hedge/cpp/hedge.cpp:21-23 | a new store holds exactly the sentinel, so its count is 1 |
| `HedgeStore.ElementVector.Count` | hedge/cpp/hedge.cpp:29-31 | the count is the number of stored elements, sentinel included |
| `HedgeStore.ElementVector.GetAt` | hedge/cpp/hedge.cpp:41-47 | lookup by offset succeeds iff offset < count, and yields the element in that slot |
| `HedgeStore.ElementVector.Get` | hedge/cpp/hedge.cpp:33-39 | lookup by index succeeds iff the offset is in range and the stored generation equals the index's; offset 0 is not rejected |
| `HedgeStore.ElementVector.Emplace` | hedge/cpp/hedge.cpp:49-53 | returns (old count, 0) and appends exactly the given element |
| `HedgeStore.ElementVector.Remove` | hedge/cpp/hedge.cpp:58-71 | the new collection is `RemoveAsWritten` of the old one |
| `HedgeStore.EmplaceResolves` | hedge/cpp/hedge.cpp:49-53 | the returned index resolves iff the element arrived with generation 0, it is truthy while a sentinel is present, and earlier slots are unchanged |
| `HedgeStore.EmplaceKeepsResolved` | hedge/cpp/hedge.cpp:49-53 | an index that resolved before an emplace still resolves to the same element |
| `HedgeStore.RemoveRelocatesLast` | hedge/cpp/hedge.cpp:63-68 | removing at k (k ≠ 1, k below the last slot) puts the old last element, generation bumped, into slot k and keeps every other slot; every index for the old last slot then misses, and the moved element resolves under its bumped generation |
| `HedgeStore.RemoveAtOffsetOnePops` | hedge/cpp/hedge.cpp:60-62 | removing at offset 1 pops the last element, so with more than two elements slot 1 survives and its index still resolves |
| `HedgeStore.RemoveLastTruncates` | hedge/cpp/hedge.cpp:58-71 | removing the last slot truncates in either branch, and its index then misses |
| `HedgeStore.RemoveKeepsOtherSlots` | hedge/cpp/hedge.cpp:58-71 | every other accepted index below the new count still resolves to the same element |
| `HedgeStore.RemovedIndexResolvesOnlyByCollision` | hedge/cpp/hedge.cpp:63-68 | away from offset 1, the removed index resolves afterwards iff the moved element's bumped generation equals its own |
| `HedgeStore.RemovedIndexCanResolveAgain` | hedge/cpp/hedge.cpp:63-68 | such a collision exists: a removed index that then resolves to the relocated element |
| `HedgeStore.RemoveAtOffsetOneDropsWrongElement` | hedge/cpp/hedge.cpp:61-62 | in [sentinel, a, b], removing a drops b instead |
| `HedgeStore.RemoveNullIndexDeletesSentinel` | hedge/cpp/hedge.cpp:33-39 | the null index resolves to the sentinel, and removing it empties a fresh store |
| `HedgeStore.RemoveIntended` | hedge/cpp/hedge.cpp:55-57 | corrected remove (null rejected, "is last" test): shortens by 1 exactly when it accepts |
| `HedgeStore.RemoveIntendedKeepsSentinel` | hedge/cpp/hedge.cpp:55-57 | the corrected remove keeps slot 0 and a count of at least 1 |
| `HedgeStore.RemoveIntendedDropsTarget` | hedge/cpp/hedge.cpp:55-57 | the corrected remove leaves exactly the old payloads minus the removed one (as multisets) |
| `HedgeKernel.SizeMinusOne` | hedge/cpp/hedge.cpp:152-163 | size_t `n - 1`: the predecessor for 1 ≤ n ≤ 2^64, and 2^64-1 for n = 0 |
| `HedgeKernel.BasicKernel.constructor` | hedge/cpp/hedge.cpp:76-80 | four distinct stores, each holding only its sentinel; all four counts are 1 |
| `HedgeKernel.BasicKernel.GetEdge` | hedge/cpp/hedge.cpp:83-85 | edge lookup reads only the edge store and succeeds iff the index resolves there |
| `HedgeKernel.BasicKernel.GetFace` | hedge/cpp/hedge.cpp:86-88 | face lookup reads only the face store and succeeds iff the index resolves there |
| `HedgeKernel.BasicKernel.GetVertex` | hedge/cpp/hedge.cpp:89-91 | vertex lookup reads only the vertex store and succeeds iff the index resolves there |
| `HedgeKernel.BasicKernel.GetPoint` | hedge/cpp/hedge.cpp:92-94 | point lookup reads only the point store and succeeds iff the index resolves there |
| `HedgeKernel.BasicKernel.EmplaceEdge` | hedge/cpp/hedge.cpp:96-98 | an edge append returning (old count, 0); the other three stores are unchanged |
| `HedgeKernel.BasicKernel.EmplaceFace` | hedge/cpp/hedge.cpp:99-101 | a face append returning (old count, 0); the other three stores are unchanged |
| `HedgeKernel.BasicKernel.EmplaceVertex` | hedge/cpp/hedge.cpp:102-104 | a vertex append returning (old count, 0); the other three stores are unchanged |
| `HedgeKernel.BasicKernel.EmplacePoint` | hedge/cpp/hedge.cpp:105-107 | a point append returning (old count, 0); the other three stores are unchanged |
| `HedgeKernel.BasicKernel.RemoveEdge` | hedge/cpp/hedge.cpp:109-111 | the edge store becomes `RemoveAsWritten` of itself; the other stores are unchanged |
| `HedgeKernel.BasicKernel.RemoveFace` | hedge/cpp/hedge.cpp:112-114 | the face store becomes `RemoveAsWritten` of itself; the other stores are unchanged |
| `HedgeKernel.BasicKernel.RemoveVertex` | hedge/cpp/hedge.cpp:115-117 | the vertex store becomes `RemoveAsWritten` of itself; the other stores are unchanged |
| `HedgeKernel.BasicKernel.RemovePoint` | hedge/cpp/hedge.cpp:118-120 | the point store becomes `RemoveAsWritten` of itself; the other stores are unchanged |
| `HedgeKernel.BasicKernel.PointCount` | hedge/cpp/hedge.cpp:122-124 | the point store's size |
| `HedgeKernel.BasicKernel.VertexCount` | hedge/cpp/hedge.cpp:126-128 | the vertex store's size |
| `HedgeKernel.BasicKernel.FaceCount` | hedge/cpp/hedge.cpp:130-132 | the face store's size |
| `HedgeKernel.BasicKernel.EdgeCount` | hedge/cpp/hedge.cpp:134-136 | the edge store's size |
| `HedgeKernel.Mesh.constructor` | hedge/cpp/hedge.cpp:144-146 | a new mesh has kernel counts 1 and mesh counts 0 (hedge/cpp/hedge_test.cpp:51-64) |
| `HedgeKernel.Mesh.PointCount` | hedge/cpp/hedge.cpp:152-154 | kernel point count minus one, with size_t wrap |
| `HedgeKernel.Mesh.VertexCount` | hedge/cpp/hedge.cpp:155-157 | kernel vertex count minus one, with size_t wrap |
| `HedgeKernel.Mesh.EdgeCount` | hedge/cpp/hedge.cpp:158-160 | kernel edge count minus one, with size_t wrap |
| `HedgeKernel.Mesh.FaceCount` | hedge/cpp/hedge.cpp:161-163 | kernel face count minus one, with size_t wrap |
| `HedgeKernel.ThreePointScenario` | hedge/cpp/hedge_test.cpp:66-86 | after three point emplaces the kernel count is 4, the mesh count 3, and the second index resolves to (1, 0, 0) |
| `HedgeKernel.RemoveOnlyEdgeScenario` | hedge/cpp/hedge.cpp:58-71 | removing the only edge brings the mesh edge count back to 0; then removing the null index wraps it to 2^64-1 |
| `PointKernel.RemovePointAt` | hedge/cpp/hedge.cc:120-125 | the raw point remove shortens the vector by exactly 1 |
| `PointKernel.PointVectorKernel.constructor` | hedge/cpp/hedge.cc:73-77 | three sentinel stores and an empty point vector: point count 0, other counts 1 (hedge/cpp/hedge_test.cc:51-57) |
| `PointKernel.PointVectorKernel.GetEdge` | hedge/cpp/hedge.cc:79-81 | edge lookup through the shared store, reading only it |
| `PointKernel.PointVectorKernel.GetFace` | hedge/cpp/hedge.cc:82-84 | face lookup through the shared store, reading only it |
| `PointKernel.PointVectorKernel.GetVertex` | hedge/cpp/hedge.cc:85-87 | vertex lookup through the shared store, reading only it |
| `PointKernel.PointVectorKernel.GetPoint` | hedge/cpp/hedge.cc:88-94 | point lookup succeeds iff the offset is in bounds; the generation is not consulted |
| `PointKernel.PointVectorKernel.EmplaceEdge` | hedge/cpp/hedge.cc:96-98 | edge append (old count, 0); nothing else changes |
| `PointKernel.PointVectorKernel.EmplaceFace` | hedge/cpp/hedge.cc:99-101 | face append (old count, 0); nothing else changes |
| `PointKernel.PointVectorKernel.EmplaceVertex` | hedge/cpp/hedge.cc:102-104 | vertex append (old count, 0); nothing else changes |
| `PointKernel.PointVectorKernel.EmplacePoint` | hedge/cpp/hedge.cc:105-109 | point append returning (old size, 0), which is null exactly for the first point |
| `PointKernel.PointVectorKernel.RemoveEdge` | hedge/cpp/hedge.cc:111-113 | the edge store becomes `RemoveAsWritten` of itself; nothing else changes |
| `PointKernel.PointVectorKernel.RemoveFace` | hedge/cpp/hedge.cc:114-116 | the face store becomes `RemoveAsWritten` of itself; nothing else changes |
| `PointKernel.PointVectorKernel.RemoveVertex` | hedge/cpp/hedge.cc:117-119 | the vertex store becomes `RemoveAsWritten` of itself; nothing else changes |
| `PointKernel.PointVectorKernel.RemovePoint` | hedge/cpp/hedge.cc:120-125 | copies the last point into the slot and pops, with no validity check and no generation bump; requires an in-range offset |
| `PointKernel.PointVectorKernel.PointCount` | hedge/cpp/hedge.cc:127-129 | the raw point vector size |
| `PointKernel.PointVectorKernel.VertexCount` | hedge/cpp/hedge.cc:131-133 | the vertex store's size |
| `PointKernel.PointVectorKernel.FaceCount` | hedge/cpp/hedge.cc:135-137 | the face store's size |
| `PointKernel.PointVectorKernel.EdgeCount` | hedge/cpp/hedge.cc:139-141 | the edge store's size |
| `PointKernel.RemovePointRelocatesLast` | hedge/cpp/hedge.cc:120-125 | after the raw point remove at k, slot k holds the old last point with its generation unchanged, and every other slot is kept |
| `PointKernel.PointLookupIgnoresGeneration` | hedge/cpp/hedge.cc:88-94 | two point indices at one offset give the same lookup result |
| `PointKernel.Mesh.constructor` | hedge/cpp/hedge.cc:144-146 | a new mesh has kernel point count 0 and other kernel counts 1, and all mesh counts 0 |
| `PointKernel.Mesh.PointCount` | hedge/cpp/hedge.cc:152-154 | the kernel point count itself, with no sentinel subtracted |
| `PointKernel.Mesh.VertexCount` | hedge/cpp/hedge.cc:155-157 | kernel vertex count minus one, with size_t wrap |
| `PointKernel.Mesh.EdgeCount` | hedge/cpp/hedge.cc:158-160 | kernel edge count minus one, with size_t wrap |
| `PointKernel.Mesh.FaceCount` | hedge/cpp/hedge.cc:161-163 | kernel face count minus one, with size_t wrap |
| `PointKernel.ThreePointScenario` | hedge/cpp/hedge_test.cc:66-91 | after three point emplaces the count is 3, the first index is null, and the second is truthy and resolves to (1, 0, 0) |
| `CompactIndex.Default` | hedge/include/hedge.hpp:31-34 | the default index has generation 0 and offset 0 and is false |
| `CompactIndex.ConstructorOrderReversed` | hedge/include/hedge.hpp:36-39 | `index_t(a, b)` here has the fields of `index_t(b, a)` in hedge/cpp/hedge.hpp:45; the two agree iff a = b |
| `CompactIndex.Equal` | hedge/include/hedge.hpp:44-46 | `==` on offset and generation is value equality |
| `CompactIndex.NotEqual` | hedge/include/hedge.hpp:41-43 | `!=` is its exact negation |
| `CompactIndex.ToBool` | hedge/include/hedge.hpp:48-50 | true iff the kind is supported and the offset is non-zero; for the four kinds iff the offset is non-zero |
| `GuardedStore.RemoveAsWritten` | hedge/src/hedge.cc:58-71 | a remove that `get` accepts shortens the store by 1; any other leaves it unchanged |
| `GuardedStore.GuardedVector.constructor` | hedge/src/hedge.cc:25-27 | a new store holds exactly one default element |
| `GuardedStore.GuardedVector.Count` | hedge/src/hedge.cc:33-35 | the number of stored elements, sentinel included |
| `GuardedStore.GuardedVector.Get` | hedge/src/hedge.cc:37-46 | as written: found iff the index is true, in range, and its generation DIFFERS from the stored one |
| `GuardedStore.GuardedVector.Create` | hedge/src/hedge.cc:48-53 | appends a default element and returns (old size mod 2^32, 0) plus the slot it addresses |
| `GuardedStore.GuardedVector.Remove` | hedge/src/hedge.cc:58-71 | the new collection is `RemoveAsWritten` of the old one |
| `GuardedStore.CreatedIndexMisses` | hedge/src/hedge.cc:41-43 | as written, an index just returned by `create` is not found and cannot be removed |
| `GuardedStore.StaleIndexFound` | hedge/src/hedge.cc:41-43 | as written, a wrong-generation index for a new element is found |
| `GuardedStore.CreatedIndexFoundIntended` | hedge/src/hedge.cc:39-41 | with the equality test, an index just returned by `create` is true and finds the new default element; other generations miss |
| `GuardedStore.RemoveMatchesCppStore` | hedge/src/hedge.cc:61-69 | once found, the remove branches act exactly like hedge/cpp/hedge.cpp's remove given the stored generation |
| `GuardedStore.NullIndexIsHarmless` | hedge/src/hedge.cc:39 | a false index is never found, so removing it is a no-op |
| `GuardedStore.GuardedKernel.constructor` | hedge/src/hedge.cc:74-78 | four distinct stores, points included, each with one default element; all counts 1 (hedge/src/hedge_test.cc:46-51) |
| `GuardedStore.GuardedKernel.GetEdge` | hedge/src/hedge.cc:80-82 | edge lookup reads only the edge store |
| `GuardedStore.GuardedKernel.GetFace` | hedge/src/hedge.cc:83-85 | face lookup reads only the face store |
| `GuardedStore.GuardedKernel.GetVertex` | hedge/src/hedge.cc:86-88 | vertex lookup reads only the vertex store |
| `GuardedStore.GuardedKernel.GetPoint` | hedge/src/hedge.cc:89-91 | point lookup reads only the point store |
| `GuardedStore.GuardedKernel.CreateEdge` | hedge/src/hedge.cc:93-95 | creates in the edge store only |
| `GuardedStore.GuardedKernel.CreateFace` | hedge/src/hedge.cc:96-98 | creates in the face store only |
| `GuardedStore.GuardedKernel.CreateVertex` | hedge/src/hedge.cc:99-101 | creates in the vertex store only |
| `GuardedStore.GuardedKernel.CreatePoint` | hedge/src/hedge.cc:102-104 | creates in the point store only |
| `GuardedStore.GuardedKernel.RemoveEdge` | hedge/src/hedge.cc:106-108 | removes from the edge store only |
| `GuardedStore.GuardedKernel.RemoveFace` | hedge/src/hedge.cc:109-111 | removes from the face store only |
| `GuardedStore.GuardedKernel.RemoveVertex` | hedge/src/hedge.cc:112-114 | removes from the vertex store only |
| `GuardedStore.GuardedKernel.RemovePoint` | hedge/src/hedge.cc:115-117 | removes from the point store only |
| `GuardedStore.GuardedKernel.PointCount` | hedge/src/hedge.cc:119-121 | raw point store size, sentinel included |
| `GuardedStore.GuardedKernel.VertexCount` | hedge/src/hedge.cc:123-125 | raw vertex store size, sentinel included |
| `GuardedStore.GuardedKernel.FaceCount` | hedge/src/hedge.cc:127-129 | raw face store size, sentinel included |
| `GuardedStore.GuardedKernel.EdgeCount` | hedge/src/hedge.cc:131-133 | raw edge store size, sentinel included |
| `GuardedStore.CreateThenRemoveVertexScenario` | hedge/src/hedge.cc:58-60 | creating a vertex and removing it by its index leaves the vertex count at 2, because the index is not found |
| `MeshKernel.SentinelEdge` | hedge/src/default_kernel.cc:16-23 | all five index fields of the sentinel edge are default and false |
| `MeshKernel.MeshKernel.constructor` | hedge/src/default_kernel.cc:12-24 | exactly one element per vector; the sentinel vertex and face hold the default edge index |
| `MeshKernel.MeshKernel.PointCount` | hedge/src/default_kernel.cc:26-28 | the point vector's size |
| `MeshKernel.MeshKernel.VertexCount` | hedge/src/default_kernel.cc:30-32 | the vertex vector's size |
| `MeshKernel.MeshKernel.FaceCount` | hedge/src/default_kernel.cc:34-36 | the face vector's size |
| `MeshKernel.MeshKernel.EdgeCount` | hedge/src/default_kernel.cc:38-40 | the edge vector's size |

## Findings

| source | as written | input that shows it | evidently intended | confidence | as-written member | corrected member |
|---|---|---|---|---|---|---|
| hedge/cpp/hedge.cpp:61 | `remove` pops the last element whenever the offset is 1 | store [sentinel, a, b], remove the index of a at (1, 0): b is dropped and a stays | truncate only when the removed slot is the last one ("swap with the end", hedge/cpp/hedge.cpp:55-56) | not executed | `HedgeStore.RemoveAtOffsetOneDropsWrongElement` | `HedgeStore.RemoveIntendedDropsTarget` |
| hedge/cpp/hedge.cpp:33-39 | `get` accepts the null index, so `remove` can delete the sentinel | fresh store [sentinel], remove (0, 0): the store becomes empty and the mesh count `count() - 1` wraps to 2^64-1 | offset 0 never resolves, as hedge/src/hedge.cc:39 guards it | not executed | `HedgeStore.RemoveNullIndexDeletesSentinel` | `HedgeStore.RemoveIntendedKeepsSentinel` |
| hedge/src/hedge.cc:41 | `get` returns the element only when the generations differ | `create` on any store returns (size, 0) over a slot of generation 0: `get` misses and `remove` is a no-op | return the element when the generations are equal, as hedge/cpp/hedge.cpp:35 does | not executed | `GuardedStore.CreatedIndexMisses` | `GuardedStore.CreatedIndexFoundIntended` |

The classes model the code as written. The corrected definitions stand beside them:
- `HedgeStore.ResolvesIntended`
- `HedgeStore.RemoveIntended`
- `GuardedStore.FindsIntended`

The properties that the doc comment at hedge/cpp/hedge.cpp:55-56, the `index &&` guard at hedge/src/hedge.cc:39 and the equality test at hedge/cpp/hedge.cpp:35 promise are proved about these corrected definitions.

## Left out

- The kernel_t interface is not modelled as an abstraction that other backends could implement. Each kernel class provides the full member set itself.
- Injecting a kernel into a mesh is not modelled. This is `mesh_t(kernel_t::ptr_t&&)` (hedge/cpp/hedge.cpp:148-150, hedge/src/hedge.cc:141-143), and it is a matter of ownership.
- Pointer lifetime is not modelled. This covers the `unique_ptr` deleters, the `mesh_t::kernel()` accessor of hedge/src/hedge.cc and pointer validity across reallocation. Lookups return element values, and `create` returns a slot offset.
- Writing through the pointer that `create` hands back is not modelled, since the model returns the slot offset instead.
- `reserve` is not modelled, because it is only a capacity hint.
- Some functions have no body in the source tree, so there is nothing to model:
  - `mesh_t::edge`, `face`, `vertex`, `point` and `points` (hedge/cpp/hedge.hpp:184-192).
  - The counts of hedge/include/hedge.hpp's `mesh_t`.
  - `element_t()`, whose zero generation and flags are assumed. The origin position of `point_t()` is not assumed: it comes from hedge/cpp/hedge.cpp:175-178.
- The `default_*_index` globals of hedge/src/default_kernel.cc are not defined in the source tree. They are taken to be null indices.
- Proxy navigation (next, prev, adjacent, is_boundary) is not modelled, and neither are the half-edge cycle and reciprocity invariants. No code in the source tree implements or maintains them.
- Float arithmetic on positions is not modelled. Positions are exact reals that are only stored and compared.
- 64-bit wrap-around of offsets and sizes is not modelled, except the mesh's `count - 1`. Stores never approach 2^64 elements.
- The generation width in hedge/src/hedge.cc is not known. Its element types are not in the source tree, so hedge/cpp/hedge.hpp's uint32 generation is used.
- GuardedStore.GuardedVector.Create: the index type that hedge/src/hedge.cc compiles against is not in the source tree. The model mixes the two headers. It takes the uint32 fields and the kind-aware `bool` from `index_t` in hedge/include/hedge.hpp, so the offset is the size modulo 2^32. It takes the `(offset, generation)` argument order from hedge/cpp/hedge.hpp. Read strictly against hedge/include/hedge.hpp:36, `create` would return offset 0, and its out-pointer would address the sentinel.
- CompactIndex.ToBool: hedge/include/hedge.hpp:49 names the member `index_type`, but line 27 comments it out, so the header does not compile as written. The model reads it as the template argument `TIndexType` and passes that kind as an explicit value argument. The argument is not tied to the type parameter.
- Logging and the window, renderer, event-loop and build files are not modelled.
