# Voxel terrain chunk: generation and culled meshing, in Dafny

This project models the terrain core of a small Rust voxel renderer:

- **Blocks.** A block is air or stone and carries an activity flag that nothing reads.
- **The chunk.** A chunk is a `width x height x width` grid of blocks, addressed `blocks[x][y][z]`. The program fixes it at 16 x 32 x 16.
- **Generation.** `Chunk::new` fills every column with stone up to a noise-driven surface height and with air above it.
- **Mesh building.** `create_mesh` visits the grid with `y` outermost, then `x`, then `z`. Every solid block appends its cube to one vertex buffer and one 16-bit index buffer.
  - A face is emitted only when the neighbour on that side is air or lies outside the chunk.
  - A block with no visible face emits nothing at all.
  - Each block emits its 8 corners and 6 indices per visible face. The indices come from a fixed table and are offset by the number of vertices already in the buffer.

The model is functional:

- **Reference meaning.** `Meshing.BuildMesh` folds one visiting step, `Meshing.Step`, over the traversal order `Grid.Order`.
- **Loop nest.** The program's three nested loops are the methods `AppendRow`, `AppendLayer` and `CreateMesh`. They are proved to compute exactly that fold.
- **Proved properties:**
  - The traversal visits each cell once, in order.
  - The culling tests are the neighbour rule, and each visible face is listed exactly once.
  - Two neighbouring cells hide their shared pair of faces iff both are solid.
  - Buffer sizes, and the buffers only ever grow.
  - Every index names an emitted vertex, of its own block while the offsets fit 16 bits.
  - The 16-bit offset never wraps at the program's extents.
  - Face rows cover their sides with a uniform winding.
  - Adjacent faces touch.
  - The activity flag is irrelevant.
  - Generated columns are solid stacks whose height is the clamped floor of the sampled surface.

Modules follow the source: `Blocks` for `block.rs`. For `chunk.rs`:

- `Grid`: data and traversal order.
- `Faces`: face table, corner layout and index arithmetic.
- `Cube`: `create_cube`.
- `Meshing`: `create_mesh`.
- `Generation`: `Chunk::new`.

`Scenarios` works one small chunk by hand.

Numbers are exact:

- `f32`/`f64` values are Dafny `real`.
- Sizes and indices are `nat`.
- The `u16` index arithmetic is written out as arithmetic modulo 65536.

Two features of the code shape the model:

- **No error path.** The code never checks the 16-bit index range, and its extents are compile-time constants, so neither the model's operations nor its results have error cases. The model proves instead that at 16 x 32 x 16 no check is needed: 8192 blocks at 8 corners each fill the 16-bit range exactly, and no offset is ever truncated (`Meshing.SourceExtentsFitExactly`, `Meshing.OffsetFitsSixteenBits`).
- **Vertices per block.** A block with any visible face emits all 8 of its corners once, and its faces share them through the index table.

## Model

| member | source | states |
|---|---|---|
| Blocks.New | src/render/terrain/block.rs:16-21 | the default block is inactive stone, hence solid |
| Blocks.From | src/render/terrain/block.rs:24-29 | the block built from a type has that type, is inactive, and is solid exactly when the type is stone |
| Blocks.FromStoneIsNew | src/render/terrain/block.rs:16-29 | `from(STONE)` equals `new()`; a block equals `from` of its own type exactly when it is inactive |
| Blocks.SolidIgnoresActivity | src/render/terrain/block.rs:9-13 | whether a block is solid depends on its type only, never on `is_active` |
| Grid.Order | src/render/terrain/chunk.rs:39-41 | the traversal has width * height * width steps and each names a cell inside the chunk |
| Grid.OrderVisitsEveryCellOnce | src/render/terrain/chunk.rs:39-41 | the y-x-z loop nest visits a cell iff it lies in the chunk, in strictly increasing (y, x, z) order, never twice |
| Faces.Discriminant | src/render/terrain/chunk.rs:110-117 | the enum discriminant `*face as usize` used at line 131 is below 6, so it always selects a row of the six-row table |
| Faces.BaseRow | src/render/terrain/chunk.rs:119-126 | every row of the index table has six entries, each naming one of the block's 8 corners |
| Faces.FaceRowCoversItsSide | src/render/terrain/chunk.rs:119-126 | each face's row uses exactly the four corners (of the layout at lines 64-75) on that face's side, as two triangles sharing one edge |
| Faces.WindingIsUniform | src/render/terrain/chunk.rs:119-126 | both triangles of every face wind the same way: clockwise seen from outside, which is the front-face convention (`FrontFace::Cw`) of the pipeline that draws the chunk |
| Faces.CullOrderIsPermutation | src/render/terrain/chunk.rs:79-96 | the six tests cover each face exactly once, in the order back, front, right, left, top, bottom |
| Faces.OppositeFaces | src/render/terrain/chunk.rs:79-96 | the neighbour tested for a face and for its opposite face lie in opposite directions |
| Faces.CubeVertices | src/render/terrain/chunk.rs:60-75 | a block emits 8 vertices; vertex k is the block centre (cell times 2 * HALF_BLOCK_SIZE) plus HALF_BLOCK_SIZE times corner k's sign on each axis |
| Faces.MirrorFlips | src/render/terrain/chunk.rs:64-75 | the corner across a face has the same signs except on that face's axis, and lies on the opposite side |
| Faces.AdjacentFacesCoincide | src/render/terrain/chunk.rs:60-75 | every corner of a face coincides with a corner of the neighbouring block's opposite face, so culling a shared pair of faces leaves no gap |
| Faces.BlockPitch | src/render/terrain/chunk.rs:60-62 | neighbouring block centres are 2 * HALF_BLOCK_SIZE = 0.5 apart along the face normal |
| Faces.U16Add | src/render/terrain/chunk.rs:131 | the `u16` sum is below 65536, and equals the true sum whenever that fits |
| Faces.AddFaceIndices | src/render/terrain/chunk.rs:128-134 | six indices, all 16-bit; while the block's corners fit, entry i is exactly the offset plus the table entry i of that face |
| Faces.WrapBeyondIndexLimit | src/render/terrain/chunk.rs:131 | for every face, offset and entry whose true value offset + table entry reaches 65536, the emitted index is below the offset: it names a vertex of an earlier block, never the corner the table meant |
| Cube.CullTest | src/render/terrain/chunk.rs:79-96 | the six border-or-air tests as the code writes them, in its order and with its bounds checks; no contract of its own, its meaning is `Cube.CullTestIsCullingRule` |
| Cube.CullTestIsCullingRule | src/render/terrain/chunk.rs:79-96 | each of the program's border-or-air tests holds exactly when the neighbour across that face is outside the chunk or air |
| Cube.VisibleMembers | src/render/terrain/chunk.rs:79-96 | the kept faces are exactly the tested faces that pass the neighbour rule |
| Cube.VisibleDistinct | src/render/terrain/chunk.rs:79-96 | testing a list of distinct faces keeps a list of distinct faces |
| Cube.CullOrderDistinct | src/render/terrain/chunk.rs:79-96 | the six tests name six different faces |
| Cube.SharedFacePair | src/render/terrain/chunk.rs:79-96 | for neighbouring cells p and q = p + normal(f): p's face f shows iff q is air, q's opposite face shows iff p is air, so the shared pair is hidden on both sides iff both cells are solid |
| Cube.VisibleFacesExactly | src/render/terrain/chunk.rs:79-96 | a block lists a face iff that face is exposed, lists each face at most once, and so lists at most six |
| Cube.FaceIndicesInRange | src/render/terrain/chunk.rs:128-134 | every appended index is 16-bit, and while the corners fit each lies within the block's own 8 vertices |
| Cube.AppendFaces | src/render/terrain/chunk.rs:79-96 | appends six indices for each face whose test passes, hence at most six per tested face; what it appends is `Cube.AppendFacesKeepsVisible` |
| Cube.FaceIndicesGroup | src/render/terrain/chunk.rs:77-96 | the j-th kept face occupies indices 6j .. 6j + 5 of the block's list |
| Cube.AppendFacesKeepsVisible | src/render/terrain/chunk.rs:77-96 | testing face by face and appending appends exactly the indices of the exposed faces, in test order |
| Cube.CreateCube | src/render/terrain/chunk.rs:56-106 | a block's indices are those of its exposed faces; no exposed face gives empty buffers; otherwise the 8 corner vertices |
| Cube.EnclosedBlockEmitsNothing | src/render/terrain/chunk.rs:98-101 | a block emits nothing iff all six neighbours exist and are solid; otherwise exactly 8 vertices |
| Cube.CubeIndicesOwnCorners | src/render/terrain/chunk.rs:56-106 | while offset + 8 fits 16 bits, every index of a block lies in [offset, offset + number of its vertices) |
| Meshing.Step | src/render/terrain/chunk.rs:42-46 | one visit: a solid block's cube appended with the current vertex count as its offset, air skipped; no contract of its own, see `Meshing.StepAppendsOnly` |
| Meshing.StepAppendsOnly | src/render/terrain/chunk.rs:42-46 | a visit keeps both buffers as a prefix, adds at most 8 vertices, and changes nothing for air |
| Meshing.MeshOf | src/render/terrain/chunk.rs:39-49 | the buffers after visiting a sequence of cells in order, starting from empty buffers (lines 36-37); no contract of its own, see `Meshing.MeshOfGrows` and `Meshing.MeshSizes` |
| Meshing.MeshOfGrows | src/render/terrain/chunk.rs:39-49 | the buffers only grow: the mesh after the first k cells is a prefix of the mesh after all of them |
| Meshing.BuildMesh | src/render/terrain/chunk.rs:35-54 | the mesh of the whole traversal holds at most 8 vertices per block of the chunk |
| Meshing.MeshSizes | src/render/terrain/chunk.rs:39-49 | after any prefix of the traversal the buffers hold 8 vertices per exposed solid block and 6 indices per visible face |
| Meshing.IndicesBelowVertexCount | src/render/terrain/chunk.rs:43-46 | after any prefix of the traversal every index is below the current vertex count; past 16 bits a wrapped index still names an existing, but wrong, vertex |
| Meshing.CubeIndicesBelowEnd | src/render/terrain/chunk.rs:43-45 | every index a block emits is below the vertex count once its corners are appended |
| Meshing.AirAddsNothing | src/render/terrain/chunk.rs:42 | visiting an air cell changes neither buffer |
| Meshing.SameTypesSameVisible | src/render/terrain/chunk.rs:79-96 | the faces a block shows depend only on block types |
| Meshing.ActivityIsIgnored | src/render/terrain/chunk.rs:39-49 | two chunks whose blocks agree on type yield identical buffers, whatever the activity flags |
| Meshing.SourceExtentsFitExactly | src/render/terrain/chunk.rs:5-6 | a 16 x 32 x 16 chunk has 8192 cells whose 8 corners each exactly fill the 65536 values of a `u16` |
| Meshing.OffsetFitsSixteenBits | src/render/terrain/chunk.rs:43 | in a chunk whose corners fit 16 bits, the offset passed at step k is at most 8k, and offset + 7 is still a 16-bit value, so `idx_offset as u16` never truncates |
| Meshing.VisitCell | src/render/terrain/chunk.rs:42-46 | one iteration of the innermost loop body is one visiting step on the cells visited so far |
| Meshing.WholeMeshSizes | src/render/terrain/chunk.rs:35-54 | the whole chunk's buffers hold 8 vertices per exposed block and 6 indices per visible face |
| Meshing.WholeMeshIndices | src/render/terrain/chunk.rs:35-54 | every index of the chunk's mesh names an emitted vertex; when the chunk's corners fit 16 bits, so does the vertex count |
| Meshing.AllLayersAreTheChunk | src/render/terrain/chunk.rs:39-41 | after all layers, the buffers hold the mesh of the whole traversal |
| Meshing.AppendRow | src/render/terrain/chunk.rs:41-47 | the z loop extends the mesh of the cells before row x by exactly the cells of row x |
| Meshing.AppendLayer | src/render/terrain/chunk.rs:40-48 | the x loop extends the mesh of the layers below y by exactly layer y |
| Meshing.CreateMesh | src/render/terrain/chunk.rs:35-54 | the three nested loops return the chunk's mesh: 8 vertices per exposed block, 6 indices per visible face, every index naming an emitted vertex, and a vertex count within 16 bits when the chunk's corners are |
| Generation.SurfaceHeight | src/render/terrain/chunk.rs:20 | the column's noise value: the sample at (x / 16, z / 16) times the chunk height; no contract of its own, its use is `Generation.Generate` |
| Generation.Generate | src/render/terrain/chunk.rs:15-33 | a generated chunk has the requested extents; every block is inactive, and solid iff its y is at most the column's sampled surface height |
| Generation.ChunkNew | src/render/terrain/chunk.rs:15-33 | the constructor yields a well-formed 16 x 32 x 16 chunk of 8192 blocks |
| Generation.ColumnIsStack | src/render/terrain/chunk.rs:19-26 | in a generated chunk every block below a solid block is solid |
| Generation.ColumnFill | src/render/terrain/chunk.rs:19-26 | a generated column holds exactly floor(v) + 1 stone blocks, clamped to 0 .. height, where v is the sampled surface height |
| Scenarios.SingleAllVisible | src/render/terrain/chunk.rs:79-96 | a block alone in a 1 x 1 x 1 chunk shows all six faces, in test order |
| Scenarios.SingleBlockShowsAllFaces | src/render/terrain/chunk.rs:35-106 | a lone solid block yields 8 vertices and 36 indices; a lone air block yields empty buffers |

## Left out

- The noise generator (`noise.rs`, constructed by `from_seed(1337)`) is not part of this model. `Generation` takes the sampler as a total function parameter, so determinism holds by construction.
- The per-vertex colour gradient (`create_cube`, line 58) is cosmetic `f32` arithmetic and is not modelled; a vertex is its position only.
- Floating-point rounding: `f32` positions and `f64` heights are exact reals. `Generation.SurfaceHeight` therefore ignores the rounding of `x / 16.0` and of the product with the height.
- The diagnostic `println!` after the loops (`create_mesh`, line 51) is output only and is left out.
- Faces.U16Add: models `idx_offset as u16`, which truncates silently in every build, followed by a wrapping `u16` addition. In a debug build the addition panics instead of wrapping when the truncated sum passes 65535; the model does not represent that panic. At the program's extents no truncation or overflow happens.
- The fixed-size Rust array becomes a sequence whose shape `Grid.Valid` ties to the chunk's `width` and `height` fields. The loops, bounds and culling tests use those fields where the code uses the equal constants `CHUNK_WIDTH` and `CHUNK_HEIGHT`.
- Rendering (GPU buffers, pipelines, camera, lights, shaders in `state.rs`, `pipeline.rs` and the rest of `render/`) is outside the core. Only the pipeline's front-face convention is referred to, by `Faces.WindingIsUniform`.
