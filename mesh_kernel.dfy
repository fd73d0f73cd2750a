/** mesh_kernel_t of hedge/src/default_kernel.cc: four plain vectors of the
    hedge/include/hedge.hpp records, each seeded with one sentinel, and
    size queries over them. The `default_*_index` globals it uses are taken
    to be default-constructed (null) indices. */
module MeshKernel {
  import Hedge
  import opened CompactIndex

  /** The sentinel edge: every one of its five indices is the default one. */
  function SentinelEdge(): (r: EdgeRecord)
    ensures r.vertexIndex.offset == 0 && r.faceIndex.offset == 0
    ensures r.nextIndex.offset == 0 && r.prevIndex.offset == 0 && r.adjacentIndex.offset == 0
    ensures !ToBool(Edge, r.nextIndex) && !ToBool(Edge, r.prevIndex) && !ToBool(Edge, r.adjacentIndex)
    ensures !ToBool(Vertex, r.vertexIndex) && !ToBool(Face, r.faceIndex)
  {
    EdgeRecord(Default(), Default(), Default(), Default(), Default())
  }

  class MeshKernel {
    var points: seq<Hedge.Position>
    var vertices: seq<VertexRecord>
    var faces: seq<FaceRecord>
    var edges: seq<EdgeRecord>

    /** `mesh_kernel_t()`: one sentinel per vector. The sentinel vertex and
        the sentinel face reference the default edge index; the sentinel point
        is the origin. */
    constructor ()
      ensures points == [Hedge.Position(0.0, 0.0, 0.0)]
      ensures vertices == [VertexRecord(Default())]
      ensures faces == [FaceRecord(Default())]
      ensures edges == [SentinelEdge()]
      ensures PointCount() == 1 && VertexCount() == 1 && FaceCount() == 1 && EdgeCount() == 1
      ensures !ToBool(Edge, vertices[0].edgeIndex) && !ToBool(Edge, faces[0].edgeIndex)
    {
      points := [Hedge.Position(0.0, 0.0, 0.0)];
      vertices := [VertexRecord(Default())];
      faces := [FaceRecord(Default())];
      edges := [SentinelEdge()];
    }

    function PointCount(): (r: nat)
      reads this
      ensures r == |points|
    {
      |points|
    }

    function VertexCount(): (r: nat)
      reads this
      ensures r == |vertices|
    {
      |vertices|
    }

    function FaceCount(): (r: nat)
      reads this
      ensures r == |faces|
    {
      |faces|
    }

    function EdgeCount(): (r: nat)
      reads this
      ensures r == |edges|
    {
      |edges|
    }
  }

}
