# TerrainGPU host logic in Dafny

This project models the sequential, host-side part of the marching-cubes terrain
generator `TerrainGPU` and the `Model` mesh container it fills:

- **Mesh assembler (vertex welding).** `ConstructMeshGPU` reads back a flat float
  buffer from the compute stage. The buffer holds 48 floats per lattice point,
  which is four triangle records of 12 floats each: three corner positions, then
  one normal. The assembler walks the buffer in steps of 12 and skips every record
  whose first float is 0. Each remaining corner is looked up in `VertexHashMap`.
  A new position gets the index `model.VertexCount()`, and six floats (the
  position, then the record's normal) are appended. A known position reuses its
  index.
- **Density grid.** `GenerateVolume` fills a flat array of (W+1)·(W+1)·(H+1)
  samples, with y outermost, x in the middle and z innermost. `AddDensity` adds an
  amount at one flat index and clamps the result to [0, 1].
- **Triangulation table.** `LoadTriTableValues` flattens the 256×16 table into
  4096 entries, row by row.
- **`Model`.** `AddVertex` appends six floats. `VertexCount` is `|vertices| / 6`.

Files:

- `model.dfy` (module `MeshModel`): the `Model` class.
- `terrain.dfy` (module `Terrain`): the `TerrainGPU` class and its fields. These
  are `VolumeData` as an array allocated once, `TriTableValues` as a constant
  set by the constructor, and `VertexHashMap` and the chunk offsets as
  reassigned fields.
- `welding.dfy` (module `Welding`): the specification of the assembler.
  - `Corners` lists the corners of the non-skipped records in buffer order.
  - `Weld` folds the per-corner update `WeldVertex` over them.
  - `FirstOccurrences` is an independent reference definition: it keeps each
    corner whose position did not occur earlier.
  - The lemmas connect the fold to the reference and to the map/array invariant
    `Consistent`.
- `volume.dfy` (module `Volume`): grid size, the two flat index layouts, the grid
  `GenerateVolume` produces, and the clamp.
- `wrappers.dfy`: `Option`.

Floats are `real`. A position key is the datatype `Pos(x, y, z)`, and key equality
is datatype equality. This matches the exact float comparison of the source's
`std::tuple<float, float, float>` keys, except for NaN and signed zero (see
"Left out").

Three parts of the system are parameters of the model:

- The noise source is the function `density` given to the constructor.
- The compute stage of `ConstructMeshGPU` is the function `dispatch`, from the
  density grid to the readback buffer.
- The triangulation table is the constructor argument `TriTable`.

`GenerateVolume`'s loop nest (src/marching_cubes_gpu.h:258-266) is the method
`Fill`, which `GenerateVolume` calls with the grid it must produce.

`ConstructMeshGPU` is the source's method. Its three inner parts are separate
methods, each with its own contract:

- the assembler loop at src/marching_cubes_gpu.h:137-194 is `AssembleMesh`;
- the loop body for one record is `WeldRecord`;
- the block that is written out three times, once per corner, is `WeldCorner`.

`WeldCorner`'s body follows those blocks line by line:

1. the `GetVertexIndex` test;
2. `SetVertexIndex` with `model.VertexCount()`;
3. the index push;
4. the six float pushes.

## Model

| member | source | states |
|---|---|---|
| MeshModel.Model.constructor | src/model.h:9 | A new model has empty `vertices` and empty `indices`. |
| MeshModel.Model.AddVertex | src/model.h:16-26 | Appends exactly x, y, z, nx, ny, nz, in order, after the old vertices. `indices` is untouched. When \|vertices\| was a multiple of 6 it stays one, and `VertexCount()` grows by exactly 1. |
| MeshModel.Model.VertexCount | src/model.h:28-31 | The result n is the number of whole vertices: 6n <= \|vertices\| < 6n + 6, that is \|vertices\| / 6. |
| Terrain.TerrainGPU.constructor | src/marching_cubes_gpu.h:41-53 | The table is flattened row-major into `TriTableValues`. The grid is freshly allocated with (W+1)·(W+1)·(H+1) zero samples. The map is empty and the offsets are 0. |
| Terrain.TerrainGPU.LoadTriTableValues | src/marching_cubes_gpu.h:317-328 | Returns 4096 entries with data[16r + c] == TriTable[r][c] for every r < 256 and c < 16. Equivalently, data[k] == TriTable[k / 16][k % 16]. |
| Terrain.TerrainGPU.GetVertexIndex | src/marching_cubes_gpu.h:234-247 | Returns None exactly when the position has no entry in `VertexHashMap`; otherwise returns the recorded index. |
| Terrain.TerrainGPU.SetVertexIndex | src/marching_cubes_gpu.h:249-253 | The map afterwards is the old map with that position set to `value`. |
| Terrain.TerrainGPU.AddDensity | src/marching_cubes_gpu.h:206-216 | The sample at flat index zI + (W+1)·(yI + (H+1)·xI) becomes Clamp01(old + amount). Every other sample is unchanged. |
| Terrain.TerrainGPU.GenerateVolume | src/marching_cubes_gpu.h:255-267 | With the counter starting at 0, the whole grid equals `Generated`. Slot k holds the density of lattice point SlotPoint(k), shifted by the chunk origin. |
| Terrain.TerrainGPU.Fill | src/marching_cubes_gpu.h:258-266 | The y/x/z loop nest with its running counter leaves the grid equal to any grid that holds each lattice point's shifted density at slot z + 25·(x + 25·y). |
| Terrain.TerrainGPU.WeldCorner | src/marching_cubes_gpu.h:144-158 | Looking up one corner changes the model's vertices and indices and the map exactly as one `WeldVertex` step does. |
| Terrain.TerrainGPU.WeldRecord | src/marching_cubes_gpu.h:139-193 | Before the call, the model and map are the welding of the first k records. Afterwards they are the welding of the first k+1. All 12 reads of the record are in bounds. |
| Terrain.TerrainGPU.AssembleMesh | src/marching_cubes_gpu.h:137-194 | Starting from an empty model and an empty map, the stride-12 loop over the full (W+1)·(W+1)·(H+1)·48-float buffer reads in bounds. It leaves the model and map equal to `Assembled`, the welding of all non-skipped records' corners in buffer order. |
| Terrain.TerrainGPU.ConstructMeshGPU | src/marching_cubes_gpu.h:56-203 | Sets the offsets and regenerates the grid. A fresh model is returned holding the welding of the readback buffer. The map, cleared first, ends as the welding's table. |
| Terrain.AssembledIndicesBelowSentinel | src/marching_cubes_gpu.h:138-147 | On the 24×24 grid, every assembled index is below 187500. No real index can equal the `(unsigned)-1` that a missed lookup returns. |
| Welding.WeldVertex | src/marching_cubes_gpu.h:144-158 | One corner appends exactly one index and keeps the old vertices and indices as prefixes. It adds 6 floats exactly when its position is not yet in the map, and none otherwise. |
| Welding.WeldKnownStep | src/marching_cubes_gpu.h:155-158 | A corner at a known position keeps the welded state equal to the reference. |
| Welding.WeldNewStep | src/marching_cubes_gpu.h:144-154 | A corner at a new position appends its vertex as slot \|FirstOccurrences\|. The welded state stays equal to the reference. |
| Welding.WeldFollowsFirstOccurrences | src/marching_cubes_gpu.h:139-193 | The vertex array is the first occurrences of the corner positions, in order of first occurrence. There is one index per corner. The map's keys are exactly the seen positions, and each maps to its first occurrence. The k-th index names the first occurrence of the k-th corner's position. |
| Welding.WeldConsistent | src/marching_cubes_gpu.h:144-191 | After any welding, \|vertices\| is a multiple of 6 and every index is below the vertex count. map[p] == j exactly when vertex j is at p, and no two vertex slots hold the same position. |
| Welding.WeldResolvesCorners | src/marching_cubes_gpu.h:144-191 | The vertex named by the k-th index is at the k-th corner's position. Two corners get the same index if and only if they share a position. |
| Welding.WeldVertexIsFirstOccurrence | src/marching_cubes_gpu.h:148-153 | Every stored vertex has the position and normal of the first corner at that position. That normal is floats i+9 to i+11 of the record that introduced the position. |
| Welding.WeldExtends | src/marching_cubes_gpu.h:144-191 | Later corners never change what is stored. Vertices and indices only grow at the end, and a recorded position keeps its index. |
| Welding.RecordEffect | src/marching_cubes_gpu.h:139-193 | A record whose first float is 0 leaves the state equal. Any other record adds exactly 3 indices and 0 to 3 vertices, keeping the old vertices and indices as prefixes. |
| Welding.RecordStep | src/marching_cubes_gpu.h:139-193 | Welding k+1 records is the welding of k records, left as it is for a skipped record. Otherwise three `WeldVertex` steps follow, for the corners at floats i..i+2, i+3..i+5 and i+6..i+8, each with the normal at i+9..i+11. |
| Welding.CornersFromRecords | src/marching_cubes_gpu.h:141-191 | Every welded corner is one of the three positions of a record whose first float is not 0, carrying that record's normal (floats i+9 to i+11). |
| Welding.AllSkippedGivesEmptyMesh | src/marching_cubes_gpu.h:141 | A buffer whose records all start with 0 welds to an empty model and an empty map. |
| Welding.VertexCountBound | src/marching_cubes_gpu.h:144-191 | k records give at most 3k vertices, and every index is below 3k. |
| Volume.SlotPointRoundTrip | src/marching_cubes_gpu.h:258-263 | Every slot of the 24×24 grid is written for exactly one lattice point: decoding a slot and re-encoding it gives the slot back. |
| Volume.VolumeSlotRoundTrip | src/marching_cubes_gpu.h:258-263 | Every lattice point of the 24×24 grid gets a slot inside the grid, z + 25·(x + 25·y), and decoding that slot gives the point back. |
| Volume.GeneratedAt | src/marching_cubes_gpu.h:258-263 | Slot z + (W+1)·(x + (W+1)·y) of the generated grid holds density(x+ox, y+oy, z+oz). |
| Volume.Clamp01 | src/marching_cubes_gpu.h:214-215 | The result lies in [0, 1] and equals the input when the input is already in [0, 1]. |
| Volume.Clamp01Nearest | src/marching_cubes_gpu.h:214-215 | The clamp is the nearest point of [0, 1] to the input. |
| Volume.DensityIndexSwapsXY | src/marching_cubes_gpu.h:211 | On a square grid, AddDensity's index for (x, y, z) is the slot GenerateVolume writes for (y, x, z). |
| Volume.LayoutsAgreeOnlyOnDiagonal | src/marching_cubes_gpu.h:211 | On the 24×24 grid, AddDensity edits the sample GenerateVolume wrote for the same lattice point if and only if x == y. |
| Volume.UninitialisedCounterLeavesGrid | src/marching_cubes_gpu.h:257 | If the counter starts anywhere but 0, some write lands outside the grid: past its end when the start is positive, before slot 0 when it is negative. |

The two flat layouts are kept exactly as written. `AddDensity` computes
zI + (W+1)·(yI + (H+1)·xI), which is x-major. `GenerateVolume`'s loop order
fills z + (W+1)·(x + (W+1)·y), which is y-major. Which layout the compute stage
reads cannot be seen here, so the disagreement is stated as the two lemmas above
and is not listed under Findings.

## Left out

- GPU buffer creation, binding, dispatch, barriers, map and unmap (src/marching_cubes_gpu.h:74-130) are foreign API calls with device-side concurrency. The compute stage is the parameter `dispatch`, a function of the density grid. Its other constant inputs (the dimensions and `TriTableValues`) are fixed for the object; the output buffer's starting contents are another input, covered by the ConstructMeshGPU line below. `densityThreshold` stands for the source field, which only the compute stage reads.
- The compute shader's per-cell triangulation is not part of this model. Its output is seen only through the readback buffer.
- Terrain.TerrainGPU.ConstructMeshGPU: the output buffer is allocated without initial data (src/marching_cubes_gpu.h:91), and the dispatch of width·height·width = 13824 work groups (:112) is smaller than the buffer's 15625 records of 48 floats (:90). Any slot the compute shader leaves unwritten holds undefined floats, and the `Vertices[i] != 0` skip test (:141) then reads them. A deterministic `dispatch` does not capture this, and it makes two builds from the same grid equal by construction. The assembler's lemmas (Welding.WeldFollowsFirstOccurrences, Welding.WeldConsistent, Welding.WeldResolvesCorners, Terrain.TerrainGPU.AssembleMesh) hold for every buffer contents, so they cover whatever those slots hold. The shader is not part of this model, so whether it writes every slot is not decided here.
- Terrain.TerrainGPU.ConstructMeshGPU: requires the readback buffer to have its full length. If the buffer mapping fails, the source leaves `Vertices` empty and then reads past its end, which has no defined behaviour.
- Terrain.TerrainGPU.AddDensity: requires the flat index to lie inside the grid. The source has no bounds check, and an out-of-range index writes outside the vector.
- Terrain.TerrainGPU.AddDensity: takes integer lattice coordinates. The float-to-lattice rounding `floor(p + 0.5)` and the unused `SnapToCube` are float rounding and are not modelled.
- Volume.SlotPointRoundTrip: stated for TerrainGPU's fixed 24×24 grid, not for any width and height.
- Volume.VolumeSlotRoundTrip: stated for the 24×24 grid only, because the source fixes `width` and `height` at 24.
- Volume.GeneratedAt: stated for the 24×24 grid only, as above.
- Volume.LayoutsAgreeOnlyOnDiagonal: stated for the 24×24 grid only, as above.
- Float semantics are not modelled: rounding in `+=`, NaN keys that never match themselves, and -0.0 equal to 0.0 as a key but distinct in storage.
- The custom tuple hash is not modelled. A Dafny `map` gives the same lookup semantics.
- Noise generation (`GetVolume3D`, `GetNoise2D`, `InitNoiseGenerator`) is a floating-point octave sum over a noise library. It is the parameter `density`.
- Shader loading and compilation are external I/O.
- Timing and console output are left out.
- The destructor, which clears both vectors, is left out.
- `BoundingBox` and `position` in `Model` are never used by the core.
- The commented-out `Terrain` chunk-streaming class is dead code.
- `unsigned int` indices and the `int` counters are unbounded `nat`/`int`. Terrain.AssembledIndicesBelowSentinel shows that on this grid no index comes near 32-bit limits.

## Findings

| source | as written | input that shows it | evidently intended | confidence | as-written member | corrected member |
|---|---|---|---|---|---|---|
| src/marching_cubes_gpu.h:257 | `int i;` is declared without an initial value and then used as the write position into `VolumeData`. | Any run in which `i` happens to start at 1: the write for lattice point (24, 24, 24) goes to slot 15625, one past the end of the 15625-sample grid. A start of -1 writes slot -1 for (0, 0, 0). | `int i = 0;`, so that the counter walks slots 0 to 15624 exactly once. | high; not executed | Volume.UninitialisedCounterLeavesGrid | Terrain.TerrainGPU.GenerateVolume |
