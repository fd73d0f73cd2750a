/** Strong, kind-discriminated indices, the element records and the
    "function set" proxy of hedge/cpp/hedge.hpp. */
module Hedge {

  /** element_t stores its generation and flags as uint32_t. */
  type u32 = x: int | 0 <= x < 0x1_0000_0000

  /** The four index kinds. Each marker is its own type, so `Index<EdgeKind>`
      and `Index<FaceKind>` are distinct types: an index of one kind can be
      neither compared with nor passed as an index of another kind. */
  datatype VertexKind = VertexKind
  datatype EdgeKind = EdgeKind
  datatype FaceKind = FaceKind
  datatype PointKind = PointKind

  /** index_t<kind>: a slot offset and a generation (both size_t). The datatype
      constructor is the two-argument constructor `index_t(offset, generation)`.
      Being a value, an index is copied field by field. */
  datatype Index<K> = Index(offset: nat, generation: nat)
  {
    /** `explicit operator bool`: only "not the null slot"; the generation and
        the existence of the element play no part. */
    function IsSet(): (r: bool)
      ensures r <==> offset > 0
    {
      offset != 0
    }
  }

  /** Truthiness depends on the offset alone: two indices at one offset are
      either both set or both null, whatever their generations. */
  lemma IsSetIgnoresGeneration<K>(a: Index<K>, b: Index<K>)
    requires a.offset == b.offset
    ensures a.IsSet() == b.IsSet()
  {
  }

  type VertexIndex = Index<VertexKind>
  type EdgeIndex = Index<EdgeKind>
  type FaceIndex = Index<FaceKind>
  type PointIndex = Index<PointKind>

  /** The default constructor `index_t()`: the null index of kind K. */
  function Null<K>(): (r: Index<K>)
    ensures r.offset == 0 && r.generation == 0
    ensures !r.IsSet()
  {
    Index(0, 0)
  }

  /** The one-argument constructor `index_t(offset)`: generation 0. */
  function AtOffset<K>(o: nat): (r: Index<K>)
    ensures r.offset == o && r.generation == 0
    ensures r.IsSet() <==> o != 0
    ensures r == Null() <==> o == 0
  {
    Index(o, 0)
  }

  /** `operator ==`: compares offset and generation. Because the kind is part
      of the type, this is exactly value equality of indices. */
  function Equal<K>(a: Index<K>, b: Index<K>): (r: bool)
    ensures r <==> a == b
  {
    a.offset == b.offset && a.generation == b.generation
  }

  /** `operator !=`: the negation of `==`. */
  function NotEqual<K>(a: Index<K>, b: Index<K>): (r: bool)
    ensures r <==> a != b
    ensures r == !Equal(a, b)
  {
    !Equal(a, b)
  }

  /** `==` is an equivalence: a copy equals its source, and the relation is
      symmetric and transitive. */
  lemma EqualIsEquivalence<K>(a: Index<K>, b: Index<K>, c: Index<K>)
    ensures Equal(a, a)
    ensures Equal(a, b) <==> Equal(b, a)
    ensures Equal(a, b) && Equal(b, c) ==> Equal(a, c)
    ensures NotEqual(a, b) <==> NotEqual(b, a)
  {
  }

  /** The record every element derives from: `element_t { generation; flags; }`
      with the kind-specific fields in `body`. The default constructor is taken
      to zero both counters. */
  datatype Element<T> = Element(generation: u32, flags: u32, body: T)

  /** edge_t: a half-edge. */
  datatype EdgeData = EdgeData(
    vertexIndex: VertexIndex,
    faceIndex: FaceIndex,
    nextIndex: EdgeIndex,
    prevIndex: EdgeIndex,
    adjacentIndex: EdgeIndex)

  /** face_t: one half-edge of the face's boundary loop. */
  datatype FaceData = FaceData(edgeIndex: EdgeIndex)

  /** vertex_t: its point and one incident half-edge. */
  datatype VertexData = VertexData(pointIndex: PointIndex, edgeIndex: EdgeIndex)

  /** mathfu::vec3. Coordinates are only stored and compared, never computed. */
  datatype Position = Position(x: real, y: real, z: real)

  /** point_t: its position. */
  datatype PointData = PointData(position: Position)

  type Edge = Element<EdgeData>
  type Face = Element<FaceData>
  type Vertex = Element<VertexData>
  type Point = Element<PointData>

  /** An element built from `body` with the zero generation and flags of
      `element_t()`. With `BlankEdge`, `BlankFace` or `BlankVertex` as the
      body it is the value-initialised sentinel `TElement {}`. */
  function Fresh<T>(body: T): (r: Element<T>)
    ensures r.generation == 0 && r.flags == 0 && r.body == body
  {
    Element(0, 0, body)
  }

  /** The body of a value-initialised `edge_t`: every index null. */
  function BlankEdge(): (r: EdgeData)
    ensures !r.vertexIndex.IsSet() && !r.faceIndex.IsSet() && !r.nextIndex.IsSet()
    ensures !r.prevIndex.IsSet() && !r.adjacentIndex.IsSet()
  {
    EdgeData(Null(), Null(), Null(), Null(), Null())
  }

  /** The body of a value-initialised `face_t`: its edge index is null. */
  function BlankFace(): (r: FaceData)
    ensures !r.edgeIndex.IsSet()
  {
    FaceData(Null())
  }

  /** The body of a value-initialised `vertex_t`: both indices null. */
  function BlankVertex(): (r: VertexData)
    ensures !r.pointIndex.IsSet() && !r.edgeIndex.IsSet()
  {
    VertexData(Null(), Null())
  }

  /** `point_t()`, whose position is the zero vector. */
  function BlankPoint(): (r: PointData)
    ensures r.position == Position(0.0, 0.0, 0.0)
  {
    PointData(Position(0.0, 0.0, 0.0))
  }

  /** `point_t(x, y, z)`. */
  function NewPoint(x: real, y: real, z: real): (r: Point)
    ensures r.generation == 0 && r.body.position == Position(x, y, z)
  {
    Fresh(PointData(Position(x, y, z)))
  }

  /** Assigning `edge.vertex_index`: reading it back yields the assigned index
      and every other field of the edge is as it was. */
  function SetVertexIndex(e: Edge, v: VertexIndex): (r: Edge)
    ensures r.body.vertexIndex == v
    ensures Equal(r.body.vertexIndex, v)
    ensures r.generation == e.generation && r.flags == e.flags
    ensures r.body.faceIndex == e.body.faceIndex && r.body.nextIndex == e.body.nextIndex
    ensures r.body.prevIndex == e.body.prevIndex && r.body.adjacentIndex == e.body.adjacentIndex
  {
    e.(body := e.body.(vertexIndex := v))
  }

  /** element_fn_t<index>: a (non-owning) kernel pointer paired with an index.
      The kernel is an opaque reference here; only its nullness matters. */
  datatype ElementFn<K> = ElementFn(kernel: object?, index: Index<K>)
  {
    /** `explicit operator bool`: kernel non-null and index non-null. Whether
        the index resolves in that kernel is not checked. */
    function IsSet(): (r: bool)
      ensures r <==> kernel != null && index.offset != 0
    {
      kernel != null && index.IsSet()
    }
  }

  type EdgeFn = ElementFn<EdgeKind>
  type FaceFn = ElementFn<FaceKind>
  type VertexFn = ElementFn<VertexKind>

  /** A proxy given a null kernel and a default index is false, whatever kind
      it is for. */
  lemma NullProxyIsFalse<K>(index: Index<K>)
    ensures var f: ElementFn<K> := ElementFn(null, index); !f.IsSet()
    ensures var f: ElementFn<K> := ElementFn(null, Null()); !f.IsSet()
  {
  }

}
