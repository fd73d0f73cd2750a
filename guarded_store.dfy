/** element_vector_t and basic_kernel_t of hedge/src/hedge.cc: the store
    whose `get` rejects a false index, whose generation test is inverted,
    whose `create` appends a default element and hands back its slot, and a
    kernel that keeps a sentinel in all four stores, points included. */
module GuardedStore {
  import opened Wrappers
  import Hedge
  import opened CompactIndex
  import HedgeStore

  const OffsetModulus: int := 0x1_0000_0000

  /** Whether `get(index)` returns an element, as written
      (hedge/src/hedge.cc:37-46): the index is true, the offset is in bounds,
      and the stored generation DIFFERS from the index's. */
  predicate Finds<T, K>(kind: IndexType, s: seq<Hedge.Element<T>>, index: Index32<K>)
  {
    ToBool(kind, index) && index.offset < |s| && s[index.offset].generation != index.generation
  }

  /** The lookup with the equality test of hedge/cpp/hedge.cpp:35: true index, in bounds, equal
      generation. */
  predicate FindsIntended<T, K>(kind: IndexType, s: seq<Hedge.Element<T>>, index: Index32<K>)
  {
    ToBool(kind, index) && index.offset < |s| && s[index.offset].generation == index.generation
  }

  /** The collection after `remove(index)` (hedge/src/hedge.cc:58-71): a no-op
      unless `get` finds the element; then offset 1 pops and any other offset
      takes a generation-bumped copy of the last element before the pop. */
  function RemoveAsWritten<T, K>(kind: IndexType, s: seq<Hedge.Element<T>>, index: Index32<K>): (r: seq<Hedge.Element<T>>)
    ensures Finds(kind, s, index) ==> |r| == |s| - 1
    ensures !Finds(kind, s, index) ==> r == s
  {
    if !Finds(kind, s, index) then s
    else if index.offset == 1 then s[..|s| - 1]
    else s[index.offset := HedgeStore.Bump(s[|s| - 1])][..|s| - 1]
  }

  class GuardedVector<T, K> {
    /** The kind of this store's indices, which `operator bool` consults. */
    const kind: IndexType
    /** `TElement {}`, what the constructor and `create` append. */
    const blank: T
    var collection: seq<Hedge.Element<T>>

    constructor (kind: IndexType, blank: T)
      ensures this.kind == kind && this.blank == blank
      ensures collection == [Hedge.Fresh(blank)]
      ensures Count() == 1
    {
      this.kind := kind;
      this.blank := blank;
      collection := [Hedge.Fresh(blank)];
    }

    function Count(): (r: nat)
      reads this
      ensures r == |collection|
    {
      |collection|
    }

    /** `get(index)`, as written. */
    function Get(index: Index32<K>): (r: Option<Hedge.Element<T>>)
      reads this
      ensures r.Some? <==> Finds(kind, collection, index)
      ensures r.Some? <==> ToBool(kind, index) && index.offset < Count() && collection[index.offset].generation != index.generation
      ensures r.Some? ==> r.value == collection[index.offset]
    {
      if ToBool(kind, index) && index.offset < |collection| then
        var element := collection[index.offset];
        if element.generation == index.generation then None else Some(element)
      else
        None
    }

    /** `create(&element)`: appends `TElement {}` and returns the index
        `(old size, 0)` together with the slot the out-pointer addresses
        (`collection.data() + index.offset`). The offset is a uint32_t, so the
        size is taken modulo 2^32. */
    method Create() returns (index: Index32<K>, slot: nat)
      modifies this
      ensures index.generation == 0
      ensures index.offset == old(|collection|) % OffsetModulus
      ensures old(|collection|) < OffsetModulus ==> index.offset == old(|collection|)
      ensures slot == index.offset && slot < |collection|
      ensures collection == old(collection) + [Hedge.Fresh(blank)]
    {
      index := Index32(0, |collection| % OffsetModulus);
      collection := collection + [Hedge.Fresh(blank)];
      slot := index.offset;
    }

    /** `remove(index)`. */
    method Remove(index: Index32<K>)
      modifies this
      ensures collection == RemoveAsWritten(kind, old(collection), index)
    {
      var elementAtIndex := Get(index);
      if elementAtIndex.Some? {
        if index.offset == 1 {
          collection := collection[..|collection| - 1];
        } else {
          var elementAtBack := collection[|collection| - 1];
          collection := collection[index.offset := HedgeStore.Bump(elementAtBack)];
          collection := collection[..|collection| - 1];
        }
      }
    }
  }

  /** As written, the index just returned by `create` is never found (its
      generation 0 equals the stored generation 0), so it cannot be removed
      either. */
  lemma CreatedIndexMisses<T, K>(kind: IndexType, s: seq<Hedge.Element<T>>, blank: T)
    requires |s| < OffsetModulus
    ensures var index: Index32<K> := Index32(0, |s|);
      && !Finds(kind, s + [Hedge.Fresh(blank)], index)
      && RemoveAsWritten(kind, s + [Hedge.Fresh(blank)], index) == s + [Hedge.Fresh(blank)]
  {
  }

  /** As written, a stale index is the one that is found: after `create`, the
      index with the wrong generation 1 resolves to the new element. */
  lemma StaleIndexFound<T, K>(kind: IndexType, s: seq<Hedge.Element<T>>, blank: T)
    requires kind != Unsupported && 1 <= |s| < OffsetModulus
    ensures var stale: Index32<K> := Index32(1, |s|);
      Finds(kind, s + [Hedge.Fresh(blank)], stale)
  {
  }

  /** With the intended test, the index returned by `create` on a store that
      holds its sentinel is true and finds the new element, and its stale
      variants with any other generation miss. */
  lemma CreatedIndexFoundIntended<T, K>(kind: IndexType, s: seq<Hedge.Element<T>>, blank: T, g: u32)
    requires kind != Unsupported && 1 <= |s| < OffsetModulus
    ensures var index: Index32<K> := Index32(0, |s|);
      && ToBool(kind, index)
      && FindsIntended(kind, s + [Hedge.Fresh(blank)], index)
      && (s + [Hedge.Fresh(blank)])[index.offset] == Hedge.Fresh(blank)
    ensures var stale: Index32<K> := Index32(g, |s|);
      g != 0 ==> !FindsIntended(kind, s + [Hedge.Fresh(blank)], stale)
  {
  }

  /** Apart from the lookup, `remove` makes the same moves as the
      hedge/cpp/hedge.cpp store: once the element is found, the result is what
      that store's `remove` does with the element's own generation. */
  lemma RemoveMatchesCppStore<T, K>(kind: IndexType, s: seq<Hedge.Element<T>>, index: Index32<K>)
    requires Finds(kind, s, index)
    ensures var same: Hedge.Index<K> := Hedge.Index(index.offset, s[index.offset].generation);
      RemoveAsWritten(kind, s, index) == HedgeStore.RemoveAsWritten(s, same)
  {
  }

  /** A false index is never found, so `remove` of it changes nothing: unlike
      hedge/cpp/hedge.cpp, this store cannot lose its sentinel through the
      default index. */
  lemma NullIndexIsHarmless<T, K>(kind: IndexType, s: seq<Hedge.Element<T>>, index: Index32<K>)
    requires index.offset == 0
    ensures !Finds(kind, s, index) && !FindsIntended(kind, s, index)
    ensures RemoveAsWritten(kind, s, index) == s
  {
  }

  class GuardedKernel {
    const points: GuardedVector<Hedge.Position, Hedge.PointKind>
    const vertices: GuardedVector<VertexRecord, Hedge.VertexKind>
    const faces: GuardedVector<FaceRecord, Hedge.FaceKind>
    const edges: GuardedVector<EdgeRecord, Hedge.EdgeKind>

    ghost predicate Valid()
    {
      && (vertices as object) != (faces as object)
      && (vertices as object) != (edges as object)
      && (vertices as object) != (points as object)
      && (faces as object) != (edges as object)
      && (faces as object) != (points as object)
      && (edges as object) != (points as object)
      && points.kind == Point && vertices.kind == Vertex && faces.kind == Face && edges.kind == Edge
    }

    /** Every store, points included, starts with one default element. */
    constructor ()
      ensures Valid()
      ensures fresh(points) && fresh(vertices) && fresh(faces) && fresh(edges)
      ensures points.collection == [Hedge.Fresh(Hedge.Position(0.0, 0.0, 0.0))]
      ensures vertices.collection == [Hedge.Fresh(VertexRecord(Default()))]
      ensures faces.collection == [Hedge.Fresh(FaceRecord(Default()))]
      ensures edges.collection == [Hedge.Fresh(EdgeRecord(Default(), Default(), Default(), Default(), Default()))]
      ensures PointCount() == 1 && VertexCount() == 1 && FaceCount() == 1 && EdgeCount() == 1
    {
      points := new GuardedVector(Point, Hedge.Position(0.0, 0.0, 0.0));
      vertices := new GuardedVector(Vertex, VertexRecord(Default()));
      faces := new GuardedVector(Face, FaceRecord(Default()));
      edges := new GuardedVector(Edge, EdgeRecord(Default(), Default(), Default(), Default(), Default()));
    }

    function GetEdge(index: EdgeIndex): (r: Option<Hedge.Element<EdgeRecord>>)
      reads edges
      ensures r.Some? <==> Finds(edges.kind, edges.collection, index)
      ensures r.Some? ==> r.value == edges.collection[index.offset]
    {
      edges.Get(index)
    }

    function GetFace(index: FaceIndex): (r: Option<Hedge.Element<FaceRecord>>)
      reads faces
      ensures r.Some? <==> Finds(faces.kind, faces.collection, index)
      ensures r.Some? ==> r.value == faces.collection[index.offset]
    {
      faces.Get(index)
    }

    function GetVertex(index: VertexIndex): (r: Option<Hedge.Element<VertexRecord>>)
      reads vertices
      ensures r.Some? <==> Finds(vertices.kind, vertices.collection, index)
      ensures r.Some? ==> r.value == vertices.collection[index.offset]
    {
      vertices.Get(index)
    }

    function GetPoint(index: PointIndex): (r: Option<Hedge.Element<Hedge.Position>>)
      reads points
      ensures r.Some? <==> Finds(points.kind, points.collection, index)
      ensures r.Some? ==> r.value == points.collection[index.offset]
    {
      points.Get(index)
    }

    method CreateEdge() returns (index: EdgeIndex, slot: nat)
      requires Valid()
      modifies edges
      ensures index.generation == 0 && index.offset == old(|edges.collection|) % OffsetModulus
      ensures slot == index.offset
      ensures edges.collection == old(edges.collection) + [Hedge.Fresh(edges.blank)]
      ensures unchanged(points, vertices, faces)
    {
      index, slot := edges.Create();
    }

    method CreateFace() returns (index: FaceIndex, slot: nat)
      requires Valid()
      modifies faces
      ensures index.generation == 0 && index.offset == old(|faces.collection|) % OffsetModulus
      ensures slot == index.offset
      ensures faces.collection == old(faces.collection) + [Hedge.Fresh(faces.blank)]
      ensures unchanged(points, vertices, edges)
    {
      index, slot := faces.Create();
    }

    method CreateVertex() returns (index: VertexIndex, slot: nat)
      requires Valid()
      modifies vertices
      ensures index.generation == 0 && index.offset == old(|vertices.collection|) % OffsetModulus
      ensures slot == index.offset
      ensures vertices.collection == old(vertices.collection) + [Hedge.Fresh(vertices.blank)]
      ensures unchanged(points, faces, edges)
    {
      index, slot := vertices.Create();
    }

    method CreatePoint() returns (index: PointIndex, slot: nat)
      requires Valid()
      modifies points
      ensures index.generation == 0 && index.offset == old(|points.collection|) % OffsetModulus
      ensures slot == index.offset
      ensures points.collection == old(points.collection) + [Hedge.Fresh(points.blank)]
      ensures unchanged(vertices, faces, edges)
    {
      index, slot := points.Create();
    }

    method RemoveEdge(index: EdgeIndex)
      requires Valid()
      modifies edges
      ensures edges.collection == RemoveAsWritten(Edge, old(edges.collection), index)
      ensures unchanged(points, vertices, faces)
    {
      edges.Remove(index);
    }

    method RemoveFace(index: FaceIndex)
      requires Valid()
      modifies faces
      ensures faces.collection == RemoveAsWritten(Face, old(faces.collection), index)
      ensures unchanged(points, vertices, edges)
    {
      faces.Remove(index);
    }

    method RemoveVertex(index: VertexIndex)
      requires Valid()
      modifies vertices
      ensures vertices.collection == RemoveAsWritten(Vertex, old(vertices.collection), index)
      ensures unchanged(points, faces, edges)
    {
      vertices.Remove(index);
    }

    method RemovePoint(index: PointIndex)
      requires Valid()
      modifies points
      ensures points.collection == RemoveAsWritten(Point, old(points.collection), index)
      ensures unchanged(vertices, faces, edges)
    {
      points.Remove(index);
    }

    /** The counts are raw store sizes, the sentinel included. */
    function PointCount(): (r: nat)
      reads points
      ensures r == |points.collection|
    {
      points.Count()
    }

    function VertexCount(): (r: nat)
      reads vertices
      ensures r == |vertices.collection|
    {
      vertices.Count()
    }

    function FaceCount(): (r: nat)
      reads faces
      ensures r == |faces.collection|
    {
      faces.Count()
    }

    function EdgeCount(): (r: nat)
      reads edges
      ensures r == |edges.collection|
    {
      edges.Count()
    }
  }

  /** Creating a vertex in a new kernel and removing it again: as written the
      removal is a no-op, so the vertex count stays 2. */
  method CreateThenRemoveVertexScenario() returns (count: nat, found: bool)
    ensures count == 2 && !found
  {
    var kernel := new GuardedKernel();
    var index, slot := kernel.CreateVertex();
    found := kernel.GetVertex(index).Some?;
    kernel.RemoveVertex(index);
    count := kernel.VertexCount();
  }

}
