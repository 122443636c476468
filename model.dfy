/**
  The Model container the mesh assembler fills: a flat vertex array of six
  floats per vertex (position, then normal) and an index array.
*/
module MeshModel {

  class Model {
    var vertices: seq<real>
    var indices: seq<nat>

    /** A new model holds no vertices and no indices. */
    constructor ()
      ensures vertices == [] && indices == []
    {
      vertices := [];
      indices := [];
    }

    /** Appends one vertex: its position followed by its normal. */
    method AddVertex(x: real, y: real, z: real, nx: real, ny: real, nz: real)
      modifies this`vertices
      ensures vertices == old(vertices) + [x, y, z, nx, ny, nz]
      ensures indices == old(indices)
      ensures |old(vertices)| % 6 == 0 ==>
        |vertices| % 6 == 0 && VertexCount() == old(VertexCount()) + 1
    {
      vertices := vertices + [x];
      vertices := vertices + [y];
      vertices := vertices + [z];
      vertices := vertices + [nx];
      vertices := vertices + [ny];
      vertices := vertices + [nz];
    }

    /** The number of whole vertices stored: |vertices| / 6. */
    function VertexCount(): (n: nat)
      reads this
      ensures 6 * n <= |vertices| < 6 * n + 6
    {
      |vertices| / 6
    }
  }
}
