/**
  The density grid of TerrainGPU: its size, the two flat index layouts the
  source uses (GenerateVolume's loop order and AddDensity's formula), the grid
  GenerateVolume produces from a density source, and the clamp AddDensity
  applies.
*/
module Volume {

  /** Number of samples of a grid W voxels wide and H voxels high: (W+1)·(W+1)·(H+1). */
  function GridSize(W: nat, H: nat): nat
  {
    (W + 1) * (W + 1) * (H + 1)
  }

  /** TerrainGPU's grid dimensions: `width` and `height` voxels. */
  const Width: nat := 24
  const Height: nat := 24

  /** A lattice point of the grid. */
  datatype Lattice = Lattice(x: int, y: int, z: int)

  /** 0 <= x <= W, 0 <= y <= H and 0 <= z <= W. */
  predicate InLattice(W: nat, H: nat, q: Lattice)
  {
    0 <= q.x <= W && 0 <= q.y <= H && 0 <= q.z <= W
  }

  /**
    The slot GenerateVolume writes for lattice point q when its counter starts at
    0: y outermost, then x, then z innermost.
  */
  function VolumeSlot(W: nat, q: Lattice): int
  {
    q.z + (W + 1) * (q.x + (W + 1) * q.y)
  }

  /** The flat index AddDensity computes for lattice point q: x outermost, then y, then z. */
  function DensityIndex(W: nat, H: nat, q: Lattice): int
  {
    q.z + (W + 1) * (q.y + (H + 1) * q.x)
  }

  /** The lattice point whose sample GenerateVolume stores in slot k. */
  function SlotPoint(W: nat, k: nat): Lattice
  {
    Lattice((k / (W + 1)) % (W + 1), k / ((W + 1) * (W + 1)), k % (W + 1))
  }

  /** The grid GenerateVolume leaves behind: slot k holds the density at SlotPoint(k) plus the chunk origin. */
  function Generated(density: (int, int, int) -> real, W: nat, H: nat, ox: int, oy: int, oz: int): (g: seq<real>)
    ensures |g| == GridSize(W, H)
  {
    seq(GridSize(W, H), k requires 0 <= k < GridSize(W, H) =>
      var q := SlotPoint(W, k); density(q.x + ox, q.y + oy, q.z + oz))
  }

  /** The value AddDensity stores: v clamped to [0, 1]. */
  function Clamp01(v: real): (r: real)
    ensures 0.0 <= r <= 1.0
    ensures 0.0 <= v <= 1.0 ==> r == v
  {
    if v < 0.0 then 0.0 else if v > 1.0 then 1.0 else v
  }

  // ---------------------------------------------------------------------------
  // Lemmas

  /** Every slot of TerrainGPU's grid belongs to exactly one lattice point: SlotPoint decodes it and VolumeSlot re-encodes it. */
  lemma SlotPointRoundTrip(k: nat)
    requires k < GridSize(Width, Height)
    ensures InLattice(Width, Height, SlotPoint(Width, k))
    ensures VolumeSlot(Width, SlotPoint(Width, k)) == k
  {
    var t := k / 25;
    assert k == k % 25 + 25 * t;
    assert t == t % 25 + 25 * (t / 25);
    assert t / 25 == k / 625;
  }

  /** Every lattice point of TerrainGPU's grid has exactly one slot, inside the grid, and SlotPoint decodes it back. */
  lemma VolumeSlotRoundTrip(q: Lattice)
    requires InLattice(Width, Height, q)
    ensures 0 <= VolumeSlot(Width, q) < GridSize(Width, Height)
    ensures SlotPoint(Width, VolumeSlot(Width, q)) == q
  {
    var k := VolumeSlot(Width, q);
    assert k == q.z + 25 * q.x + 625 * q.y;
    assert k / 25 == q.x + 25 * q.y;
    assert k / 625 == q.y;
  }

  /**
    GenerateVolume's grid holds, at the slot of every lattice point, the density
    of that point shifted by the chunk origin.
  */
  lemma GeneratedAt(density: (int, int, int) -> real, ox: int, oy: int, oz: int, q: Lattice, k: int)
    requires InLattice(Width, Height, q) && k == VolumeSlot(Width, q)
    ensures 0 <= k < GridSize(Width, Height)
    ensures Generated(density, Width, Height, ox, oy, oz)[k] == density(q.x + ox, q.y + oy, q.z + oz)
  {
    VolumeSlotRoundTrip(q);
  }

  /** Clamp01 is the projection onto [0, 1]: no value of [0, 1] is closer to v. */
  lemma Clamp01Nearest(v: real, t: real)
    requires 0.0 <= t <= 1.0
    ensures Dist(Clamp01(v), v) <= Dist(t, v)
  {
  }

  /** |a - b|. */
  function Dist(a: real, b: real): real
  {
    if a < b then b - a else a - b
  }

  /**
    With a square grid (W == H, as in TerrainGPU) AddDensity's index for (x, y, z)
    is the slot GenerateVolume filled for (y, x, z): the two layouts swap x and y.
  */
  lemma DensityIndexSwapsXY(W: nat, q: Lattice)
    ensures DensityIndex(W, W, q) == VolumeSlot(W, Lattice(q.y, q.x, q.z))
  {
  }

  /**
    On TerrainGPU's grid, AddDensity edits the sample GenerateVolume took at the
    same lattice point exactly when x == y.
  */
  lemma LayoutsAgreeOnlyOnDiagonal(q: Lattice)
    requires InLattice(Width, Height, q)
    ensures DensityIndex(Width, Height, q) == VolumeSlot(Width, q) <==> q.x == q.y
  {
    var q' := Lattice(q.y, q.x, q.z);
    VolumeSlotRoundTrip(q);
    VolumeSlotRoundTrip(q');
    DensityIndexSwapsXY(Width, q);
  }

  // ---------------------------------------------------------------------------
  // GenerateVolume's counter as written: `int i;` is never initialised.

  /** The slot written for lattice point q when the counter starts at `start` instead of 0. */
  function CounterSlot(start: int, W: nat, q: Lattice): int
  {
    start + VolumeSlot(W, q)
  }

  /**
    With any start value other than 0 the loop writes outside the grid: past its
    end at the last lattice point when start > 0, before its start at the first
    lattice point when start < 0.
  */
  lemma UninitialisedCounterLeavesGrid(W: nat, H: nat, start: int)
    ensures start > 0 ==> CounterSlot(start, W, Lattice(W, H, W)) >= GridSize(W, H)
    ensures start < 0 ==> CounterSlot(start, W, Lattice(0, 0, 0)) < 0
  {
    var b := W + 1;
    assert VolumeSlot(W, Lattice(W, H, W)) == (b - 1) + b * ((b - 1) + b * H);
    assert b * ((b - 1) + b * H) == b * b * (H + 1) - b;
  }
}
