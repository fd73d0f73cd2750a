/** basic_kernel_t and mesh_t of hedge/cpp/hedge.cpp: one element_vector_t per
    element kind, with every get, emplace and remove routed to the store of
    the index's kind, and a mesh that reports counts without the sentinel. */
module HedgeKernel {
  import opened Wrappers
  import opened Hedge
  import opened HedgeStore

  const SizeModulus: int := 0x1_0000_0000_0000_0000

  /** `n - 1` on size_t: the predecessor, wrapping to the largest value when
      n is 0 (an as-written store can be emptied, see
      RemoveNullIndexDeletesSentinel). */
  function SizeMinusOne(n: nat): (r: nat)
    ensures 1 <= n <= SizeModulus ==> r == n - 1 && r + 1 == n
    ensures n == 0 ==> r == SizeModulus - 1
  {
    (n - 1) % SizeModulus
  }

  class BasicKernel {
    const vertices: ElementVector<VertexData, VertexKind>
    const faces: ElementVector<FaceData, FaceKind>
    const edges: ElementVector<EdgeData, EdgeKind>
    const points: ElementVector<PointData, PointKind>

    /** The four stores are four distinct objects. */
    ghost predicate Valid()
    {
      && (vertices as object) != (faces as object)
      && (vertices as object) != (edges as object)
      && (vertices as object) != (points as object)
      && (faces as object) != (edges as object)
      && (faces as object) != (points as object)
      && (edges as object) != (points as object)
    }

    /** Each store starts with its sentinel. */
    constructor ()
      ensures Valid()
      ensures fresh(vertices) && fresh(faces) && fresh(edges) && fresh(points)
      ensures vertices.collection == [Fresh(BlankVertex())]
      ensures faces.collection == [Fresh(BlankFace())]
      ensures edges.collection == [Fresh(BlankEdge())]
      ensures points.collection == [Fresh(BlankPoint())]
      ensures PointCount() == 1 && VertexCount() == 1 && FaceCount() == 1 && EdgeCount() == 1
    {
      vertices := new ElementVector(BlankVertex());
      faces := new ElementVector(BlankFace());
      edges := new ElementVector(BlankEdge());
      points := new ElementVector(BlankPoint());
    }

    function GetEdge(index: EdgeIndex): (r: Option<Edge>)
      reads edges
      ensures r.Some? <==> Resolves(edges.collection, index)
      ensures r.Some? ==> r.value == edges.collection[index.offset]
    {
      edges.Get(index)
    }

    function GetFace(index: FaceIndex): (r: Option<Face>)
      reads faces
      ensures r.Some? <==> Resolves(faces.collection, index)
      ensures r.Some? ==> r.value == faces.collection[index.offset]
    {
      faces.Get(index)
    }

    function GetVertex(index: VertexIndex): (r: Option<Vertex>)
      reads vertices
      ensures r.Some? <==> Resolves(vertices.collection, index)
      ensures r.Some? ==> r.value == vertices.collection[index.offset]
    {
      vertices.Get(index)
    }

    function GetPoint(index: PointIndex): (r: Option<Point>)
      reads points
      ensures r.Some? <==> Resolves(points.collection, index)
      ensures r.Some? ==> r.value == points.collection[index.offset]
    {
      points.Get(index)
    }

    method EmplaceEdge(edge: Edge) returns (index: EdgeIndex)
      requires Valid()
      modifies edges
      ensures index == Index(old(edges.Count()), 0)
      ensures edges.collection == old(edges.collection) + [edge]
      ensures unchanged(vertices, faces, points)
    {
      index := edges.Emplace(edge);
    }

    method EmplaceFace(face: Face) returns (index: FaceIndex)
      requires Valid()
      modifies faces
      ensures index == Index(old(faces.Count()), 0)
      ensures faces.collection == old(faces.collection) + [face]
      ensures unchanged(vertices, edges, points)
    {
      index := faces.Emplace(face);
    }

    method EmplaceVertex(vertex: Vertex) returns (index: VertexIndex)
      requires Valid()
      modifies vertices
      ensures index == Index(old(vertices.Count()), 0)
      ensures vertices.collection == old(vertices.collection) + [vertex]
      ensures unchanged(faces, edges, points)
    {
      index := vertices.Emplace(vertex);
    }

    method EmplacePoint(point: Point) returns (index: PointIndex)
      requires Valid()
      modifies points
      ensures index == Index(old(points.Count()), 0)
      ensures points.collection == old(points.collection) + [point]
      ensures unchanged(vertices, faces, edges)
    {
      index := points.Emplace(point);
    }

    method RemoveEdge(index: EdgeIndex)
      requires Valid()
      modifies edges
      ensures edges.collection == RemoveAsWritten(old(edges.collection), index)
      ensures unchanged(vertices, faces, points)
    {
      edges.Remove(index);
    }

    method RemoveFace(index: FaceIndex)
      requires Valid()
      modifies faces
      ensures faces.collection == RemoveAsWritten(old(faces.collection), index)
      ensures unchanged(vertices, edges, points)
    {
      faces.Remove(index);
    }

    method RemoveVertex(index: VertexIndex)
      requires Valid()
      modifies vertices
      ensures vertices.collection == RemoveAsWritten(old(vertices.collection), index)
      ensures unchanged(faces, edges, points)
    {
      vertices.Remove(index);
    }

    method RemovePoint(index: PointIndex)
      requires Valid()
      modifies points
      ensures points.collection == RemoveAsWritten(old(points.collection), index)
      ensures unchanged(vertices, faces, edges)
    {
      points.Remove(index);
    }

    function PointCount(): (r: nat)
      reads points
      ensures r == |points.collection|
    {
      points.Count()
    }

    function VertexCount(): (r: nat)
      reads vertices
      ensures r == |vertices.collection|
    {
      vertices.Count()
    }

    function FaceCount(): (r: nat)
      reads faces
      ensures r == |faces.collection|
    {
      faces.Count()
    }

    function EdgeCount(): (r: nat)
      reads edges
      ensures r == |edges.collection|
    {
      edges.Count()
    }
  }

  /** mesh_t over its default kernel. */
  class Mesh {
    const kernel: BasicKernel

    /** `mesh_t()`: a fresh basic kernel, so every kernel count is 1 and every
        mesh count is 0. */
    constructor ()
      ensures fresh(kernel) && kernel.Valid()
      ensures fresh(kernel.vertices) && fresh(kernel.faces) && fresh(kernel.edges) && fresh(kernel.points)
      ensures kernel.vertices.collection == [Fresh(BlankVertex())]
      ensures kernel.faces.collection == [Fresh(BlankFace())]
      ensures kernel.edges.collection == [Fresh(BlankEdge())]
      ensures kernel.points.collection == [Fresh(BlankPoint())]
      ensures kernel.PointCount() == 1 && kernel.VertexCount() == 1
      ensures kernel.FaceCount() == 1 && kernel.EdgeCount() == 1
      ensures PointCount() == 0 && VertexCount() == 0 && FaceCount() == 0 && EdgeCount() == 0
    {
      kernel := new BasicKernel();
    }

    /** The counts a user sees: the kernel count less the sentinel. */
    function PointCount(): (r: nat)
      reads kernel.points
      ensures 1 <= kernel.PointCount() <= SizeModulus ==> r + 1 == kernel.PointCount()
      ensures kernel.PointCount() == 0 ==> r == SizeModulus - 1
    {
      SizeMinusOne(kernel.PointCount())
    }

    function VertexCount(): (r: nat)
      reads kernel.vertices
      ensures 1 <= kernel.VertexCount() <= SizeModulus ==> r + 1 == kernel.VertexCount()
      ensures kernel.VertexCount() == 0 ==> r == SizeModulus - 1
    {
      SizeMinusOne(kernel.VertexCount())
    }

    function EdgeCount(): (r: nat)
      reads kernel.edges
      ensures 1 <= kernel.EdgeCount() <= SizeModulus ==> r + 1 == kernel.EdgeCount()
      ensures kernel.EdgeCount() == 0 ==> r == SizeModulus - 1
    {
      SizeMinusOne(kernel.EdgeCount())
    }

    function FaceCount(): (r: nat)
      reads kernel.faces
      ensures 1 <= kernel.FaceCount() <= SizeModulus ==> r + 1 == kernel.FaceCount()
      ensures kernel.FaceCount() == 0 ==> r == SizeModulus - 1
    {
      SizeMinusOne(kernel.FaceCount())
    }
  }

  /** The triangle scenario of hedge/cpp/hedge_test.cpp: three points emplaced
      into a new mesh give kernel point count 4 and mesh point count 3, the
      second returned index is truthy, and it resolves to the second point. */
  method ThreePointScenario() returns (kernelPoints: nat, meshPoints: nat, second: Option<Point>)
    ensures kernelPoints == 4 && meshPoints == 3
    ensures second.Some? && second.value.body.position == Position(1.0, 0.0, 0.0)
  {
    var mesh := new Mesh();
    var first := mesh.kernel.EmplacePoint(NewPoint(0.0, 0.0, 0.0));
    var pi1 := mesh.kernel.EmplacePoint(NewPoint(1.0, 0.0, 0.0));
    var third := mesh.kernel.EmplacePoint(NewPoint(1.0, 1.0, 0.0));
    assert pi1.IsSet();
    kernelPoints := mesh.kernel.PointCount();
    meshPoints := mesh.PointCount();
    second := mesh.kernel.GetPoint(pi1);
  }

  /** Removing the only non-sentinel element of a store brings the mesh count
      back to 0; removing the null index instead empties the store, and the
      mesh count wraps to the largest size_t. */
  method RemoveOnlyEdgeScenario(edge: Edge) returns (afterRemove: nat, afterNullRemove: nat)
    requires edge.generation == 0
    ensures afterRemove == 0
    ensures afterNullRemove == SizeModulus - 1
  {
    var mesh := new Mesh();
    var index := mesh.kernel.EmplaceEdge(edge);
    assert mesh.kernel.edges.collection == [Fresh(BlankEdge()), edge];
    assert Resolves(mesh.kernel.edges.collection, index);
    mesh.kernel.RemoveEdge(index);
    assert mesh.kernel.edges.collection == [Fresh(BlankEdge())];
    afterRemove := mesh.EdgeCount();
    mesh.kernel.RemoveEdge(Null());
    assert mesh.kernel.edges.collection == [];
    afterNullRemove := mesh.EdgeCount();
  }

}
