/**
  The host side of TerrainGPU: the density grid it owns, the triangulation
  table it flattens once, the vertex hash map, and the mesh assembler of
  ConstructMeshGPU. The compute stage is a parameter (`dispatch`) that maps the
  density grid to the readback buffer; the noise source is the `density`
  function given to the constructor.
*/
module Terrain {
  import opened Wrappers
  import opened Welding
  import opened Volume
  import opened MeshModel

  /** Rows of the triangulation table: one per 8-bit corner configuration. */
  const TriTableRows: nat := 256

  /** Entries per row of the triangulation table. */
  const TriTableColumns: nat := 16

  /** Floats the compute stage reserves per lattice point: four 12-float triangle records. */
  const FloatsPerPoint: nat := 48

  /** The shape of TriTable: int[256][16]. */
  predicate IsTriTable(table: seq<seq<int>>)
  {
    |table| == TriTableRows && forall r | 0 <= r < |table| :: |table[r]| == TriTableColumns
  }

  /** Length of the readback buffer: (W+1)·(W+1)·(H+1)·48 floats. */
  function ReadbackLength(W: nat, H: nat): nat
  {
    GridSize(W, H) * FloatsPerPoint
  }

  /** The welding state the assembler reaches on the whole readback buffer `buf`. */
  function Assembled(buf: seq<real>, W: nat, H: nat): WeldState
    requires |buf| == ReadbackLength(W, H)
  {
    Weld(Corners(buf, |buf| / RecordStride))
  }

  /** The largest unsigned int: the value `(unsigned)-1` GetVertexIndex returns for a missing position. */
  const UIntMax: nat := 0xFFFF_FFFF

  /**
    On TerrainGPU's grid the readback buffer holds 62500 records, so every index
    the assembler hands out is below 187500 and can never be mistaken for the
    `(unsigned)-1` a missed lookup returns.
  */
  lemma AssembledIndicesBelowSentinel(buf: seq<real>)
    requires |buf| == ReadbackLength(Width, Height)
    ensures VertexCount(Assembled(buf, Width, Height)) <= 187500
    ensures forall m | 0 <= m < |Assembled(buf, Width, Height).indices| ::
      Assembled(buf, Width, Height).indices[m] < 187500 < UIntMax
  {
    assert |buf| / RecordStride == 62500;
    VertexCountBound(buf, 62500);
  }

  class TerrainGPU {
    const width: nat := Width
    const height: nat := Height
    /** Stands for the source field that only the compute stage reads; nothing on the host uses it. */
    const densityThreshold: real := 0.6
    /** The noise source GetVolume3D, at integer lattice coordinates. */
    const density: (int, int, int) -> real
    /** Allocated once by the constructor, never resized. */
    const VolumeData: array<real>
    var offsetX: int
    var offsetY: int
    var offsetZ: int
    /** Flattened once by the constructor and never changed. */
    const TriTableValues: seq<int>
    var VertexHashMap: map<Pos, nat>

    ghost predicate Valid()
      reads this
    {
      VolumeData.Length == GridSize(width, height) && |TriTableValues| == TriTableRows * TriTableColumns
    }

    /**
      Flattens the triangulation table once and allocates a zeroed grid of
      (W+1)·(W+1)·(H+1) samples. Shader loading and noise configuration are not
      part of this model.
    */
    constructor (TriTable: seq<seq<int>>, density: (int, int, int) -> real)
      requires IsTriTable(TriTable)
      ensures Valid() && fresh(VolumeData)
      ensures this.density == density
      ensures forall r, c | 0 <= r < TriTableRows && 0 <= c < TriTableColumns ::
        TriTableValues[TriTableColumns * r + c] == TriTable[r][c]
      ensures forall k | 0 <= k < VolumeData.Length :: VolumeData[k] == 0.0
      ensures VertexHashMap == map[]
      ensures offsetX == 0 && offsetY == 0 && offsetZ == 0
    {
      this.density := density;
      var values := LoadTriTableValues(TriTable);
      TriTableValues := values;
      VolumeData := new real[GridSize(Width, Height)](_ => 0.0);
      VertexHashMap := map[];
      offsetX, offsetY, offsetZ := 0, 0, 0;
    }

    /** Copies the 256×16 table row by row into 4096 consecutive entries. */
    static method LoadTriTableValues(TriTable: seq<seq<int>>) returns (data: seq<int>)
      requires IsTriTable(TriTable)
      ensures |data| == TriTableRows * TriTableColumns
      ensures forall r, c | 0 <= r < TriTableRows && 0 <= c < TriTableColumns ::
        data[TriTableColumns * r + c] == TriTable[r][c]
      ensures forall k | 0 <= k < |data| ::
        data[k] == TriTable[k / TriTableColumns][k % TriTableColumns]
    {
      data := [];
      var y := 0;
      while y < 256
        invariant 0 <= y <= 256 && |data| == 16 * y
        invariant forall k | 0 <= k < |data| :: data[k] == TriTable[k / 16][k % 16]
      {
        var x := 0;
        while x < 16
          invariant 0 <= x <= 16 && |data| == 16 * y + x
          invariant forall k | 0 <= k < |data| :: data[k] == TriTable[k / 16][k % 16]
        {
          data := data + [TriTable[y][x]];
          x := x + 1;
        }
        y := y + 1;
      }
      forall r, c | 0 <= r < TriTableRows && 0 <= c < TriTableColumns
        ensures data[TriTableColumns * r + c] == TriTable[r][c]
      {
        var k := 16 * r + c;
        assert k / 16 == r && k % 16 == c;
      }
    }

    /** The index recorded for position (x, y, z), or None where the source returns (unsigned)-1. */
    function GetVertexIndex(x: real, y: real, z: real): (r: Option<nat>)
      reads this
      ensures r.None? <==> Pos(x, y, z) !in VertexHashMap
      ensures r.Some? ==> r.value == VertexHashMap[Pos(x, y, z)]
    {
      var key := Pos(x, y, z);
      if key in VertexHashMap then Some(VertexHashMap[key]) else None
    }

    /** Records `value` as the index of position (x, y, z). */
    method SetVertexIndex(x: real, y: real, z: real, value: nat)
      modifies this`VertexHashMap
      ensures VertexHashMap == old(VertexHashMap)[Pos(x, y, z) := value]
    {
      var key := Pos(x, y, z);
      VertexHashMap := VertexHashMap[key := value];
    }

    /**
      Adds `amount` to the sample at lattice point (xI, yI, zI), using the flat
      index zI + (W+1)·(yI + (H+1)·xI), and clamps it to [0, 1]. The source does
      not check bounds, so the flat index must lie inside the grid.
    */
    method AddDensity(xI: int, yI: int, zI: int, amount: real)
      requires 0 <= DensityIndex(width, height, Lattice(xI, yI, zI)) < VolumeData.Length
      modifies VolumeData
      ensures var index := DensityIndex(width, height, Lattice(xI, yI, zI));
        VolumeData[index] == Clamp01(old(VolumeData[index]) + amount)
      ensures forall k | 0 <= k < VolumeData.Length && k != DensityIndex(width, height, Lattice(xI, yI, zI)) ::
        VolumeData[k] == old(VolumeData[k])
    {
      var index := zI + (width + 1) * (yI + (height + 1) * xI);
      VolumeData[index] := VolumeData[index] + amount;
      if VolumeData[index] < 0.0 {
        VolumeData[index] := 0.0;
      } else if VolumeData[index] > 1.0 {
        VolumeData[index] := 1.0;
      }
    }

    /**
      Overwrites the grid with the density of every lattice point shifted by the
      chunk origin, with the running counter starting at 0.
    */
    method GenerateVolume(offsetX: int, offsetY: int, offsetZ: int)
      requires Valid()
      modifies VolumeData
      ensures VolumeData[..] == Generated(density, width, height, offsetX, offsetY, offsetZ)
    {
      ghost var g := Generated(density, width, height, offsetX, offsetY, offsetZ);
      forall q | InLattice(Width, Height, q)
        ensures VolumeSlot(Width, q) < |g|
        ensures g[VolumeSlot(Width, q)] == density(q.x + offsetX, q.y + offsetY, q.z + offsetZ)
      {
        GeneratedAt(density, offsetX, offsetY, offsetZ, q, VolumeSlot(Width, q));
      }
      Fill(offsetX, offsetY, offsetZ, g);
    }

    /**
      GenerateVolume's loop nest: y outermost, x in the middle, z innermost, the
      counter i walking the slots in that order. Whatever grid `g` holds the
      density of every lattice point at its slot is what the loops leave behind.
      The 25 in the invariants is `width + 1` (and `height + 1`), written as a
      literal so that the counter arithmetic stays linear.
    */
    method Fill(offsetX: int, offsetY: int, offsetZ: int, ghost g: seq<real>)
      requires Valid() && |g| == GridSize(Width, Height)
      requires forall q | InLattice(Width, Height, q) ::
        VolumeSlot(Width, q) < |g| && g[VolumeSlot(Width, q)] == density(q.x + offsetX, q.y + offsetY, q.z + offsetZ)
      modifies VolumeData
      ensures VolumeData[..] == g
    {
      var i := 0;
      var y := 0;
      while y < height + 1
        invariant 0 <= y <= height + 1
        invariant i == y * 25 * 25
        invariant forall k | 0 <= k < i :: VolumeData[k] == g[k]
      {
        var x := 0;
        while x < width + 1
          invariant 0 <= x <= width + 1
          invariant i == (y * 25 + x) * 25
          invariant forall k | 0 <= k < i :: VolumeData[k] == g[k]
        {
          var z := 0;
          while z < width + 1
            invariant 0 <= z <= width + 1
            invariant i == (y * 25 + x) * 25 + z
            invariant forall k | 0 <= k < i :: VolumeData[k] == g[k]
          {
            var d := density(x + offsetX, y + offsetY, z + offsetZ);
            assert InLattice(Width, Height, Lattice(x, y, z));
            assert VolumeSlot(Width, Lattice(x, y, z)) == i;
            VolumeData[i] := d;
            i := i + 1;
            z := z + 1;
          }
          x := x + 1;
        }
        y := y + 1;
      }
      assert i == |g|;
    }

    /**
      One corner of a triangle record, the block the assembler repeats for each
      of the three positions: a position with no recorded index gets the index
      VertexCount, which is pushed, recorded in the map, and followed by six new
      floats (the position and the record's normal); a known position only
      pushes its recorded index.
    */
    method WeldCorner(model: Model, x: real, y: real, z: real, nx: real, ny: real, nz: real, ghost s: WeldState)
      requires model.vertices == s.vertices && model.indices == s.indices && VertexHashMap == s.table
      modifies model, this`VertexHashMap
      ensures var s' := WeldVertex(s, Corner(Pos(x, y, z), Pos(nx, ny, nz)));
        model.vertices == s'.vertices && model.indices == s'.indices && VertexHashMap == s'.table
    {
      if GetVertexIndex(x, y, z).None? {
        SetVertexIndex(x, y, z, model.VertexCount());
        model.indices := model.indices + [model.VertexCount()];
        model.vertices := model.vertices + [x, y, z, nx, ny, nz];
      } else {
        model.indices := model.indices + [GetVertexIndex(x, y, z).value];
      }
    }

    /**
      The body of the assembler's loop for the record starting at float i: a
      record whose first float is 0 is skipped, any other contributes its three
      corners, each with the record's normal (floats i+9 to i+11).
    */
    method WeldRecord(model: Model, Vertices: seq<real>, i: nat, ghost k: nat, ghost s: WeldState)
      requires i == RecordStride * k && i + RecordStride <= |Vertices|
      requires s == Weld(Corners(Vertices, k))
      requires model.vertices == s.vertices && model.indices == s.indices && VertexHashMap == s.table
      modifies model, this`VertexHashMap
      ensures var s' := Weld(Corners(Vertices, k + 1));
        model.vertices == s'.vertices && model.indices == s'.indices && VertexHashMap == s'.table
    {
      ghost var w := s;
      ghost var n := Pos(Vertices[i + 9], Vertices[i + 10], Vertices[i + 11]);
      if Vertices[i] != 0.0 {
        // vertex 1
        WeldCorner(model, Vertices[i], Vertices[i + 1], Vertices[i + 2],
                   Vertices[i + 9], Vertices[i + 10], Vertices[i + 11], w);
        w := WeldVertex(w, Corner(Pos(Vertices[i], Vertices[i + 1], Vertices[i + 2]), n));
        // vertex 2
        WeldCorner(model, Vertices[i + 3], Vertices[i + 4], Vertices[i + 5],
                   Vertices[i + 9], Vertices[i + 10], Vertices[i + 11], w);
        w := WeldVertex(w, Corner(Pos(Vertices[i + 3], Vertices[i + 4], Vertices[i + 5]), n));
        // vertex 3
        WeldCorner(model, Vertices[i + 6], Vertices[i + 7], Vertices[i + 8],
                   Vertices[i + 9], Vertices[i + 10], Vertices[i + 11], w);
        w := WeldVertex(w, Corner(Pos(Vertices[i + 6], Vertices[i + 7], Vertices[i + 8]), n));
      }
      assert w == Weld(Corners(Vertices, k + 1)) by {
        assert RecordCorner(Vertices, i, 0) == Corner(Pos(Vertices[i], Vertices[i + 1], Vertices[i + 2]), n);
        assert RecordCorner(Vertices, i, 1) == Corner(Pos(Vertices[i + 3], Vertices[i + 4], Vertices[i + 5]), n);
        assert RecordCorner(Vertices, i, 2) == Corner(Pos(Vertices[i + 6], Vertices[i + 7], Vertices[i + 8]), n);
        RecordStep(Vertices, k);
      }
    }

    /**
      The assembler loop: walks the readback buffer record by record (twelve
      floats each) and welds every record into the model, starting from an
      empty model and an empty position map.
    */
    method AssembleMesh(model: Model, Vertices: seq<real>)
      requires |Vertices| == ReadbackLength(width, height)
      requires model.vertices == [] && model.indices == [] && VertexHashMap == map[]
      modifies model, this`VertexHashMap
      ensures var w := Assembled(Vertices, width, height);
        model.vertices == w.vertices && model.indices == w.indices && VertexHashMap == w.table
    {
      var vCount := (width + 1) * (width + 1) * (height + 1) * 48;
      var i := 0;
      ghost var k := 0;
      ghost var done := Weld(Corners(Vertices, 0));
      while i < vCount
        modifies model, this`VertexHashMap
        invariant 0 <= i <= vCount && i == RecordStride * k
        invariant done == Weld(Corners(Vertices, k))
        invariant model.vertices == done.vertices && model.indices == done.indices && VertexHashMap == done.table
      {
        WeldRecord(model, Vertices, i, k, done);
        ghost var w := Weld(Corners(Vertices, k + 1));
        done := w;
        i := i + 12;
        k := k + 1;
      }
    }

    /**
      Regenerates the grid for the chunk at (x, y, z), lets the compute stage turn
      it into the readback buffer, and welds that buffer into a fresh Model: each
      record whose first float is not 0 contributes its three corners, each corner
      reusing the index of a known position or appending a new vertex.
    */
    method ConstructMeshGPU(x: int, y: int, z: int, dispatch: seq<real> -> seq<real>) returns (model: Model)
      requires Valid()
      requires |dispatch(Generated(density, width, height, x, y, z))| == ReadbackLength(width, height)
      modifies this, VolumeData
      ensures Valid() && fresh(model)
      ensures offsetX == x && offsetY == y && offsetZ == z
      ensures VolumeData[..] == Generated(density, width, height, x, y, z)
      ensures var w := Assembled(dispatch(VolumeData[..]), width, height);
        model.vertices == w.vertices && model.indices == w.indices && VertexHashMap == w.table
    {
      offsetX := x;
      offsetY := y;
      offsetZ := z;
      GenerateVolume(x, y, z);

      model := new Model();
      VertexHashMap := map[];

      var Vertices := dispatch(VolumeData[..]);

      AssembleMesh(model, Vertices);
    }
  }
}
