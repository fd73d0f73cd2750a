/** basic_kernel_t and mesh_t of hedge/cpp/hedge.cc. Vertices, faces and
    edges live in the element_vector_t of HedgeStore (hedge/cpp/hedge.cc:16-71
    is the same code as hedge/cpp/hedge.cpp:17-72); points live in a plain
    vector with no sentinel, whose lookup checks bounds only and whose
    removal neither validates nor bumps a generation. */
module PointKernel {
  import opened Wrappers
  import opened Hedge
  import opened HedgeStore
  import HedgeKernel

  /** The points after the raw point `remove` at `offset`: the last point is
      copied, generation and all, into the slot, then popped. */
  function RemovePointAt(s: seq<Point>, offset: nat): (r: seq<Point>)
    requires offset < |s|
    ensures |r| == |s| - 1
  {
    s[offset := s[|s| - 1]][..|s| - 1]
  }

  class PointVectorKernel {
    const vertices: ElementVector<VertexData, VertexKind>
    const faces: ElementVector<FaceData, FaceKind>
    const edges: ElementVector<EdgeData, EdgeKind>
    var points: seq<Point>

    ghost predicate Valid()
    {
      && (vertices as object) != (faces as object)
      && (vertices as object) != (edges as object)
      && (faces as object) != (edges as object)
    }

    /** Three stores with a sentinel each, and an empty point vector. */
    constructor ()
      ensures Valid()
      ensures fresh(vertices) && fresh(faces) && fresh(edges)
      ensures vertices.collection == [Fresh(BlankVertex())]
      ensures faces.collection == [Fresh(BlankFace())]
      ensures edges.collection == [Fresh(BlankEdge())]
      ensures points == []
      ensures PointCount() == 0 && VertexCount() == 1 && FaceCount() == 1 && EdgeCount() == 1
    {
      vertices := new ElementVector(BlankVertex());
      faces := new ElementVector(BlankFace());
      edges := new ElementVector(BlankEdge());
      points := [];
    }

    function GetEdge(index: EdgeIndex): (r: Option<Edge>)
      reads edges
      ensures r.Some? <==> Resolves(edges.collection, index)
      ensures r.Some? ==> r.value == edges.collection[index.offset]
    {
      edges.Get(index)
    }

    function GetFace(index: FaceIndex): (r: Option<Face>)
      reads faces
      ensures r.Some? <==> Resolves(faces.collection, index)
      ensures r.Some? ==> r.value == faces.collection[index.offset]
    {
      faces.Get(index)
    }

    function GetVertex(index: VertexIndex): (r: Option<Vertex>)
      reads vertices
      ensures r.Some? <==> Resolves(vertices.collection, index)
      ensures r.Some? ==> r.value == vertices.collection[index.offset]
    {
      vertices.Get(index)
    }

    /** Point lookup: bounds only, the generation is ignored. */
    function GetPoint(index: PointIndex): (r: Option<Point>)
      reads this
      ensures r.Some? <==> index.offset < |points|
      ensures r.Some? ==> r.value == points[index.offset]
    {
      if index.offset < |points| then Some(points[index.offset]) else None
    }

    method EmplaceEdge(edge: Edge) returns (index: EdgeIndex)
      requires Valid()
      modifies edges
      ensures index == Index(old(edges.Count()), 0)
      ensures edges.collection == old(edges.collection) + [edge]
      ensures unchanged(vertices, faces, this)
    {
      index := edges.Emplace(edge);
    }

    method EmplaceFace(face: Face) returns (index: FaceIndex)
      requires Valid()
      modifies faces
      ensures index == Index(old(faces.Count()), 0)
      ensures faces.collection == old(faces.collection) + [face]
      ensures unchanged(vertices, edges, this)
    {
      index := faces.Emplace(face);
    }

    method EmplaceVertex(vertex: Vertex) returns (index: VertexIndex)
      requires Valid()
      modifies vertices
      ensures index == Index(old(vertices.Count()), 0)
      ensures vertices.collection == old(vertices.collection) + [vertex]
      ensures unchanged(faces, edges, this)
    {
      index := vertices.Emplace(vertex);
    }

    /** Point emplace: `(old size, 0)`, so the first point gets offset 0, the
        null index. */
    method EmplacePoint(point: Point) returns (index: PointIndex)
      modifies this
      ensures index == Index(old(|points|), 0)
      ensures index.IsSet() <==> old(|points|) != 0
      ensures points == old(points) + [point]
      ensures unchanged(vertices, faces, edges)
    {
      index := Index(|points|, 0);
      points := points + [point];
    }

    method RemoveEdge(index: EdgeIndex)
      requires Valid()
      modifies edges
      ensures edges.collection == RemoveAsWritten(old(edges.collection), index)
      ensures unchanged(vertices, faces, this)
    {
      edges.Remove(index);
    }

    method RemoveFace(index: FaceIndex)
      requires Valid()
      modifies faces
      ensures faces.collection == RemoveAsWritten(old(faces.collection), index)
      ensures unchanged(vertices, edges, this)
    {
      faces.Remove(index);
    }

    method RemoveVertex(index: VertexIndex)
      requires Valid()
      modifies vertices
      ensures vertices.collection == RemoveAsWritten(old(vertices.collection), index)
      ensures unchanged(faces, edges, this)
    {
      vertices.Remove(index);
    }

    /** Point remove: the C++ dereferences the lookup result and reads
        `points.back()` unchecked, so an out-of-range offset (an empty vector
        included) is undefined behaviour and is excluded here. */
    method RemovePoint(index: PointIndex)
      requires index.offset < |points|
      modifies this
      ensures points == RemovePointAt(old(points), index.offset)
      ensures unchanged(vertices, faces, edges)
    {
      var pointAtBack := points[|points| - 1];
      points := points[index.offset := pointAtBack];
      points := points[..|points| - 1];
    }

    function PointCount(): (r: nat)
      reads this
      ensures r == |points|
    {
      |points|
    }

    function VertexCount(): (r: nat)
      reads vertices
      ensures r == |vertices.collection|
    {
      vertices.Count()
    }

    function FaceCount(): (r: nat)
      reads faces
      ensures r == |faces.collection|
    {
      faces.Count()
    }

    function EdgeCount(): (r: nat)
      reads edges
      ensures r == |edges.collection|
    {
      edges.Count()
    }
  }

  /** After the raw point remove at k, the last point sits in slot k with its
      generation unchanged, every other remaining slot is as it was, and every
      index at offset k, whatever its generation, still resolves (now to the
      moved point). */
  lemma RemovePointRelocatesLast(s: seq<Point>, offset: nat)
    requires offset < |s| - 1
    ensures var r := RemovePointAt(s, offset);
      && r[offset] == s[|s| - 1]
      && (forall j :: 0 <= j < |r| && j != offset ==> r[j] == s[j])
      && offset < |r|
  {
  }

  /** Point lookup ignores the generation: two indices at one offset find the
      same point or both miss. */
  lemma PointLookupIgnoresGeneration(kernel: PointVectorKernel, a: PointIndex, b: PointIndex)
    requires a.offset == b.offset
    ensures kernel.GetPoint(a) == kernel.GetPoint(b)
  {
  }

  /** mesh_t over this kernel. */
  class Mesh {
    const kernel: PointVectorKernel

    constructor ()
      ensures fresh(kernel) && kernel.Valid()
      ensures fresh(kernel.vertices) && fresh(kernel.faces) && fresh(kernel.edges)
      ensures kernel.vertices.collection == [Fresh(BlankVertex())]
      ensures kernel.faces.collection == [Fresh(BlankFace())]
      ensures kernel.edges.collection == [Fresh(BlankEdge())]
      ensures kernel.points == []
      ensures kernel.PointCount() == 0 && kernel.VertexCount() == 1
      ensures kernel.FaceCount() == 1 && kernel.EdgeCount() == 1
      ensures PointCount() == 0 && VertexCount() == 0 && FaceCount() == 0 && EdgeCount() == 0
    {
      kernel := new PointVectorKernel();
    }

    /** The point count is the raw vector size: no sentinel is subtracted. */
    function PointCount(): (r: nat)
      reads kernel
      ensures r == kernel.PointCount()
      ensures r == |kernel.points|
    {
      kernel.PointCount()
    }

    /** The other counts subtract the sentinel (with size_t wrap at 0). */
    function VertexCount(): (r: nat)
      reads kernel.vertices
      ensures 1 <= kernel.VertexCount() <= HedgeKernel.SizeModulus ==> r + 1 == kernel.VertexCount()
      ensures kernel.VertexCount() == 0 ==> r == HedgeKernel.SizeModulus - 1
    {
      HedgeKernel.SizeMinusOne(kernel.VertexCount())
    }

    function EdgeCount(): (r: nat)
      reads kernel.edges
      ensures 1 <= kernel.EdgeCount() <= HedgeKernel.SizeModulus ==> r + 1 == kernel.EdgeCount()
      ensures kernel.EdgeCount() == 0 ==> r == HedgeKernel.SizeModulus - 1
    {
      HedgeKernel.SizeMinusOne(kernel.EdgeCount())
    }

    function FaceCount(): (r: nat)
      reads kernel.faces
      ensures 1 <= kernel.FaceCount() <= HedgeKernel.SizeModulus ==> r + 1 == kernel.FaceCount()
      ensures kernel.FaceCount() == 0 ==> r == HedgeKernel.SizeModulus - 1
    {
      HedgeKernel.SizeMinusOne(kernel.FaceCount())
    }
  }

  /** The triangle scenario of hedge/cpp/hedge_test.cc: three points emplaced
      into a new mesh give point count 3; the first index is null; the second
      index is truthy and resolves to the second point. */
  method ThreePointScenario() returns (kernelPoints: nat, first: PointIndex, second: Option<Point>, secondSet: bool)
    ensures kernelPoints == 3
    ensures !first.IsSet()
    ensures secondSet
    ensures second.Some? && second.value.body.position == Position(1.0, 0.0, 0.0)
  {
    var mesh := new Mesh();
    first := mesh.kernel.EmplacePoint(NewPoint(0.0, 0.0, 0.0));
    var pi1 := mesh.kernel.EmplacePoint(NewPoint(1.0, 0.0, 0.0));
    var third := mesh.kernel.EmplacePoint(NewPoint(1.0, 1.0, 0.0));
    kernelPoints := mesh.kernel.PointCount();
    secondSet := pi1.IsSet();
    second := mesh.kernel.GetPoint(pi1);
  }

}
