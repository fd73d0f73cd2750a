/** The index variant and plain records of hedge/include/hedge.hpp: 32-bit
    const fields stored generation first, a two-argument constructor that
    takes the generation first, and records without generations. */
module CompactIndex {
  import Hedge

  type u32 = Hedge.u32

  /** index_type_t. */
  datatype IndexType = Vertex | Edge | Face | Point | Attribute | Unsupported

  /** index_t<kind>. Its kind member is commented out in the header. The type
      parameter (one of the Hedge kind markers) keeps kinds apart, and
      `operator bool` takes the kind as a separate value argument that is not
      tied to the type parameter. The datatype
      constructor is the two-argument constructor `index_t(g, o)`. */
  datatype Index32<K> = Index32(generation: u32, offset: u32)

  type EdgeIndex = Index32<Hedge.EdgeKind>
  type FaceIndex = Index32<Hedge.FaceKind>
  type VertexIndex = Index32<Hedge.VertexKind>
  type PointIndex = Index32<Hedge.PointKind>

  /** `index_t()`: generation 0 and offset 0. */
  function Default<K>(): (r: Index32<K>)
    ensures r.generation == 0 && r.offset == 0
    ensures !ToBool(Edge, r)
  {
    Index32(0, 0)
  }

  /** The two-argument constructors of the two headers take their arguments
      in opposite orders: `index_t(g, o)` here, `index_t(o, g)` in
      hedge/cpp/hedge.hpp. The same two numbers therefore give the same index
      only when they are equal. */
  lemma ConstructorOrderReversed<K>(a: u32, b: u32)
    ensures var here: Index32<K> := Index32(a, b);
      var there: Hedge.Index<K> := Hedge.Index(a, b);
      here.offset == there.generation && here.generation == there.offset
    ensures var here: Index32<K> := Index32(a, b);
      var there: Hedge.Index<K> := Hedge.Index(a, b);
      (here.offset == there.offset && here.generation == there.generation) <==> a == b
  {
  }

  /** `operator ==`: offset and generation. */
  function Equal<K>(a: Index32<K>, b: Index32<K>): (r: bool)
    ensures r <==> a == b
  {
    a.offset == b.offset && a.generation == b.generation
  }

  /** `operator !=`: its negation. */
  function NotEqual<K>(a: Index32<K>, b: Index32<K>): (r: bool)
    ensures r <==> a != b
    ensures r == !Equal(a, b)
  {
    !Equal(a, b)
  }

  /** `operator bool`: the kind is supported and the offset is not 0. For the
      four discriminated kinds this is "offset != 0"; an index of the
      unsupported kind is never true. */
  function ToBool<K>(kind: IndexType, index: Index32<K>): (r: bool)
    ensures r <==> kind != Unsupported && index.offset > 0
    ensures kind in {Vertex, Edge, Face, Point} ==> (r <==> index.offset != 0)
  {
    kind != Unsupported && index.offset != 0
  }

  /** edge_t, face_t and vertex_t of this header: indices only. */
  datatype EdgeRecord = EdgeRecord(
    vertexIndex: VertexIndex,
    faceIndex: FaceIndex,
    nextIndex: EdgeIndex,
    prevIndex: EdgeIndex,
    adjacentIndex: EdgeIndex)

  datatype FaceRecord = FaceRecord(edgeIndex: EdgeIndex)

  datatype VertexRecord = VertexRecord(edgeIndex: EdgeIndex)

}
