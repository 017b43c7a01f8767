# Terrain chunk manager and quadtree, in Dafny

This project models the two pieces of the procedural terrain generator that hold its logic.

**The chunk-grid lifecycle of `ChunkManager` (terrain.js).** The manager keeps a list of land chunks. Each chunk has:

- an integer grid offset;
- a world position, whose height follows the sea level;
- a vertex buffer of (x, y, height) triples, displaced in place by a noise sampler;
- one colour band per vertex, chosen by height.

The manager fills an odd n × n grid around the camera. It never creates two chunks at the same offset. When n changes it prunes or grows the list. It also moves chunks with the sea level, redisplaces every chunk when the sampler changes, and rebuilds a sea plane sized to the grid.

**The adaptive `QuadTree` (quadtree.js).** A node splits into four quadrants when the query point is closer to its centre than its width and the width exceeds the minimum node size. The leaves come back depth first.

The files:

- `terrain.dfy` (module `Terrain`) models the manager as a class. `chunks` is a `seq<Chunk>`, and each chunk holds its vertex buffer as an `array<real>` that the methods write in place. The class invariant `ChunksValid` says:
  - no two chunks share an offset or a buffer;
  - every chunk sits at its offset and at the sea level;
  - every chunk's buffer is the template displaced by the current sampler;
  - every chunk's colours are the bands of its heights.

  Every state-changing method keeps the invariant and states its new state through the specification functions:
  - `Merge`: the offsets after repeated `generateChunk`;
  - `GridCells`: the visiting order of `generateGrid`;
  - `Pruned`: the survivors of `pruneChunks`;
  - `WithNoise`: a buffer after `modifyVerticesWithNoise`;
  - `SeaFor`: the sea plane.

  Lemmas then prove what those functions promise.
- `quadtree.dfy` (module `Quadtree`) models nodes as a datatype. The class `QuadTree` holds the root. `insert` is a recursive method returning the refined node, specified by the function `Inserted`. `_getChildren` is a method with an accumulator, specified by `Leaves`.

Two behaviours of the code worth knowing:

- `changeSeaLevel` does not move the sea chunk: its loop covers only `this.chunks` (terrain.js:177-180). So `ChangeSeaLevel` leaves `seaChunk` alone: its `modifies` clause names only `yOffset` and `chunks`.
- `pruneChunks` measures its bound from the origin (terrain.js:240-241), while the grid is centred on the initial camera position (terrain.js:120, 126-127). The model keeps that: `Pruned` tests `|offset.x|` and `|offset.y|` against `size * floor(n / 2)`.

## Model

| member | source | states |
|---|---|---|
| Terrain.RoundToOdd | terrain.js:262-268 | "up" and "down" give a value and any other direction gives none; the value is odd; an odd input is returned as it is; "up" moves by at most +1 and "down" by at most -1 |
| Terrain.VertexBand | terrain.js:145-164 | the colour of vertex k: the band of its height when that height lies inside the buffer, grassland otherwise (the undefined read fails every comparison) |
| Terrain.ColouredByHeight | terrain.js:138-170 | definition: a colour list for a buffer of length L has (L + 2) / 3 entries, one per loop turn of generateVertexColors, entry k being the colour of vertex k |
| Terrain.BandOf | terrain.js:149-164 | the four bands as if-and-only-if conditions on the height: beach below 15, grassland from 15 to 45, mountain above 45 up to 85, snow above 85 |
| Terrain.WithNoise | terrain.js:198-204 | definition of a buffer after modifyVerticesWithNoise; its contract says the length is kept; NoiseKeepsPlane, NoiseSetsHeight and NoiseTriple state the entries |
| Terrain.NoiseKeepsPlane | terrain.js:198-204 | displacement leaves every plane coordinate (index not 2 mod 3) unchanged and keeps the buffer length |
| Terrain.NoiseSetsHeight | terrain.js:199-203 | every height (index 2 mod 3) becomes the sampler's value at the vertex's two plane coordinates shifted by the offset |
| Terrain.NoiseTriple | terrain.js:198-204 | the vertex starting at 3k after displacement: both plane coordinates kept, height sampled; holds for a trailing partial triple too |
| Terrain.DisplaceVertices | terrain.js:198-204 | the loop of modifyVerticesWithNoise rewrites the buffer in place into the displaced buffer of its old contents |
| Terrain.NoiseOverwrites | terrain.js:184-191 | displacing an already displaced buffer with a new sampler equals displacing the original buffer with the new sampler, so re-noising never accumulates |
| Terrain.Add | terrain.js:90-112 | definition of the offsets after one generateChunk: the offset is appended when absent, otherwise the list is unchanged |
| Terrain.Merge | terrain.js:90-131 | definition of the offsets after generateChunk for each cell in turn; MergeSpec and MergeConcat state its properties |
| Terrain.MergeConcat | terrain.js:122-131 | generating chunks for two cell lists in turn is generating them for their concatenation |
| Terrain.MergeSpec | terrain.js:92-111 | repeated generateChunk keeps the existing offsets in place as a prefix, holds exactly the old offsets plus the new cells, and adds no duplicate |
| Terrain.Cell | terrain.js:126-129 | definition of the offset stored for the chunk at (row, col): x is col * size + cx and y is -(row * size + cz); CellAt states it |
| Terrain.RowCells | terrain.js:123-130 | definition of one row's cells for columns from -h up to hiCol, in order; RowCellsLength gives the count and RowCellsMembers the contents |
| Terrain.RowCellsLength | terrain.js:123-130 | a row's cell list has exactly one cell per column from -h up to hiCol, and none when hiCol <= -h |
| Terrain.GridRows | terrain.js:122-131 | definition of the cells of the rows from -h up to hiRow, row by row |
| Terrain.GridCells | terrain.js:119-131 | definition of generateGrid's visiting order: rows and columns from -floor(n/2) to floor(n/2); GridCellsMembers states its contents |
| Terrain.CellAt | terrain.js:126-127 | the cell at (row, col) is the stored offset (col * size + cx, -(row * size + cz)) |
| Terrain.RowCellsMembers | terrain.js:123-130 | an offset is in a row's cell list if and only if it is the cell of a column in range |
| Terrain.GridRowsMembers | terrain.js:122-131 | an offset is in the first rows' cell list if and only if it is the cell of a row and column in range |
| Terrain.GridCellsMembers | terrain.js:122-131 | the grid's cell list holds exactly the cells of rows and columns -h..h |
| Terrain.RowStep | terrain.js:123-130 | one more column extends the chunk list as a prefix and adds that column's cell to the merged offsets |
| Terrain.GridStep | terrain.js:122-131 | one more row extends the chunk list as a prefix and adds that row's cells to the merged offsets |
| Terrain.GridCovered | terrain.js:122-131 | after generateGrid every cell of rows and columns -h..h is among the offsets |
| Terrain.GridCellOnce | terrain.js:115-131 | after generateGrid each grid cell, at the offset computed from row and column, is held by exactly one chunk |
| Terrain.Kept | terrain.js:240-244 | definition of the prune test: a chunk stays unless its offset exceeds the bound in absolute value on either axis |
| Terrain.Pruned | terrain.js:232-248 | definition of the chunks pruneChunks leaves, in their order; never more than before; PrunedMembers and PruneList state the rest |
| Terrain.PrunedMembers | terrain.js:238-247 | a chunk survives the prune if and only if it was in the list and within the bound on both axes |
| Terrain.PrunedSubset | terrain.js:238-247 | every survivor was in the list |
| Terrain.PrunedConcat | terrain.js:238-247 | pruning works piece by piece, so survivors keep their relative order |
| Terrain.PrunedStep | terrain.js:238-247 | one step of the reverse walk keeps or splices the chunk at i in front of the survivors after it |
| Terrain.PrunedAllKept | terrain.js:238-247 | a list with every chunk in bounds is left as it is |
| Terrain.PrunedDistinct | terrain.js:238-247 | pruning keeps the list free of repeated offsets and buffers |
| Terrain.PruneList | terrain.js:238-247 | the reverse walk with splice leaves exactly the chunks in bounds, in their original order |
| Terrain.OffsetsMember | terrain.js:251-259 | an offset is in the offset list if and only if some chunk has it |
| Terrain.ShrinkThenGrowRestores | terrain.js:210-229 | shrinking a grid and growing it back gives exactly the cells of the grid again, whatever the prune removed |
| Terrain.SeaSize | terrain.js:70 | definition of the sea side: size * (n + 1) for even n and size * n for odd n; SeaSpansGrid states what it spans |
| Terrain.SeaFor | terrain.js:65-88 | definition of the sea chunk: at the origin, side SeaSize, and its contract says exactly one sea colour per vertex |
| Terrain.SeaSpansGrid | terrain.js:70 | the sea side length is size times n rounded up to odd, which for odd n is the 2 * floor(n/2) + 1 chunks the grid spans |
| Terrain.ChunkManager.constructor | terrain.js:36-57 | n is rounded up to odd; the chunk offsets are exactly the grid around the camera in visiting order; the class invariant holds, including the sea plane |
| Terrain.ChunkManager.Update | terrain.js:60-62 | the per-frame hook does nothing: it has no modifies clause, so no state changes |
| Terrain.ChunkManager.GenerateSeaChunk | terrain.js:65-88 | the sea chunk is replaced by one at the origin with the grid-spanning side and one sea colour per vertex |
| Terrain.ChunkManager.FindChunkAtPosition | terrain.js:251-259 | true if and only if some chunk stores the offset (xOffset, -zOffset) |
| Terrain.ChunkManager.GenerateVertexColours | terrain.js:138-170 | one colour per loop turn, for every i with 3i below the buffer length, so (L + 2) / 3 colours for length L; a whole vertex gets the band of its height, and a trailing partial vertex gets grassland |
| Terrain.ChunkManager.ModifyVerticesWithNoise | terrain.js:194-207 | the chunk's buffer becomes its displaced old contents under the manager's sampler |
| Terrain.ChunkManager.GenerateChunk | terrain.js:90-112 | a chunk is created if and only if none has the offset; if none is created nothing changes; if one is created it is appended, with offset (xOffset, -zOffset), position (xOffset, -yOffset, zOffset), a fresh displaced buffer and its colours; the invariant, including no duplicate offset, is kept |
| Terrain.ChunkManager.GenerateGrid | terrain.js:115-135 | the old chunks are kept unchanged as a prefix; the offsets become the old offsets merged with every cell of rows and columns -n/2..n/2 in visiting order; the invariant is kept |
| Terrain.ChunkManager.GenerateRow | terrain.js:123-130 | one row of generateGrid: the old chunks are kept as a prefix and the row's cells are merged into the offsets |
| Terrain.ChunkManager.ChangeSeaLevel | terrain.js:173-181 | yOffset becomes the new level; every chunk changes only its position's height, to minus the level; offsets, x and z, buffers, list length and the sea chunk are unchanged |
| Terrain.ChunkManager.UpdateNoiseGenerator | terrain.js:184-191 | the new sampler is installed; every chunk keeps its offset, position and buffer reference; every buffer becomes the template displaced by the new sampler and is recoloured, since the invariant is re-established |
| Terrain.ChunkManager.RenoiseChunk | terrain.js:187-190 | chunk i, which fitted the previous sampler, fits the current one afterwards; only its colours change in the list |
| Terrain.ChunkManager.PruneChunks | terrain.js:232-248 | the list becomes the survivors of the bound size * floor(newN / 2); the invariant is kept |
| Terrain.ChunkManager.RegenerateChunks | terrain.js:210-229 | n ends equal to the rounded value, which is returned; a smaller value prunes only; a larger value keeps the old chunks as a prefix and merges the whole new grid; an equal value leaves the chunks and the sea chunk unchanged |
| Quadtree.Quadrants | quadtree.js:60-72 | definition of the four boxes split at the centre, in the order bottom-left, bottom-right, top-left, top-right; QuadrantsTile states how they tile the box |
| Quadtree.MakeNode | quadtree.js:9-14 | definition of a fresh childless node for a box, with its centre and size, as the constructor and createChildren build it |
| Quadtree.Center | quadtree.js:12-13 | the centre of a non-empty box lies inside it, halfway between the corners on each axis |
| Quadtree.Size | quadtree.js:12-13 | sizes are never negative, and for a non-empty box they span it from min to max |
| Quadtree.CreateChildren | quadtree.js:59-85 | four childless, well-formed children whose bounds are the four quadrants, in order |
| Quadtree.QuadrantsTile | quadtree.js:60-72 | the quadrants meet at the centre; each is non-empty, inside the box and half its width and height; their interiors are pairwise disjoint; every point of the box is in one of them |
| Quadtree.WithinDisjoint | quadtree.js:60-72 | boxes inside two disjoint boxes are disjoint |
| Quadtree.Splits | quadtree.js:45-48 | definition of insert's split test: the point is closer to the centre than the node's width, and the width exceeds the minimum node size |
| Quadtree.HalfMeasure | quadtree.js:48-49 | halving a width above the minimum lowers the termination measure |
| Quadtree.ChildrenSmaller | quadtree.js:48-49 | a node that splits is non-empty, and each of its children has half its width and a smaller measure, so insertion terminates |
| Quadtree.Inserted | quadtree.js:44-56 | definition of the tree insert leaves behind: a node that splits gets four fresh children, each refined in turn; any other node is returned as it is |
| Quadtree.InsertedKeepsNode | quadtree.js:44-56 | insertion keeps a node's bounds, centre and size; a node that splits gets exactly four children; one that does not is unchanged |
| Quadtree.InsertedPartitioned | quadtree.js:44-56 | insertion keeps a tree partitioned: every node well formed, every inner node split into its four quadrants |
| Quadtree.InsertedChild | quadtree.js:52-54 | the k-th child after insertion is the k-th quadrant with the point inserted |
| Quadtree.InsertedRefined | quadtree.js:44-56 | inserting into a leaf gives children to exactly the nodes that pass the split test, four each, and leaves every other node childless |
| Quadtree.Leaves | quadtree.js:25-36 | definition of the collected leaves, depth first; its contract says there is at least one and all are childless |
| Quadtree.LeavesOf | quadtree.js:33-35 | definition of the leaves of sibling subtrees, one after the other; its contract says all are childless and there are at least as many as siblings |
| Quadtree.LeavesOfSnoc | quadtree.js:33-35 | the leaves of one more child follow the leaves of the earlier children |
| Quadtree.LeavesOfFour | quadtree.js:33-35 | the leaves of four children are theirs concatenated in order |
| Quadtree.LeavesOfMember | quadtree.js:33-35 | a leaf below a list of children is a leaf of one of them, and conversely |
| Quadtree.LeavesAreChildlessNodes | quadtree.js:25-36 | the collected leaves are exactly the childless nodes of the tree |
| Quadtree.LeavesWithin | quadtree.js:59-85 | every leaf of a partitioned tree lies inside the root's bounds |
| Quadtree.LeavesCover | quadtree.js:59-85 | every point of a partitioned tree's bounds lies in some leaf |
| Quadtree.LeavesDisjoint | quadtree.js:59-85 | no two leaves of a partitioned tree overlap except on shared edges |
| Quadtree.LeavesOfDisjoint | quadtree.js:59-85 | disjointness of the leaves carries over from disjoint sibling subtrees |
| Quadtree.LeafSizeFloor | quadtree.js:48-49 | no leaf of a refined tree is wider than the root; if the root split, every leaf is wider than half the minimum node size |
| Quadtree.QuadTree.constructor | quadtree.js:4-15 | the root is a single well-formed leaf covering the box (min, max), and it is the only leaf |
| Quadtree.QuadTree.GetChildren | quadtree.js:18-22 | returns the leaves of the tree depth first, children in order |
| Quadtree.QuadTree.CollectLeaves | quadtree.js:25-36 | appends exactly the leaves below the node, depth first, to the accumulator |
| Quadtree.QuadTree.InsertObject | quadtree.js:39-41 | the root is refined toward the (x, z) projection of the position, ignoring y; the tree stays partitioned |
| Quadtree.QuadTree.Insert | quadtree.js:44-56 | returns the tree insert leaves behind: a node that passes the split test gets four fresh children, each refined in turn |
| Quadtree.SecondLevel | quadtree.js:44-56 | a 100-wide node near the point with minimum size in [50, 100) splits once, into four leaves of 50 by 50 |
| Quadtree.ExampleQuadrant | quadtree.js:44-56 | each quadrant of the example root becomes four leaves of 50 by 50 |
| Quadtree.WorkedExample | quadtree.js:44-56 | bounds (-100,-100)-(100,100), minimum node size 60 and point (0,0) give 16 leaves of 50 by 50 |

## Left out

- noise.js (the fractal noise sampler) is not part of this model. The sampler is a function-typed field `generator`. A new parameter set becomes a new function passed to `UpdateNoiseGenerator`.
- THREE.js objects are not modelled:
  - mesh, material and plane-geometry construction;
  - shadows and rotation;
  - `scene.add` and `scene.remove`;
  - the `needsUpdate` flag.
- The vertex buffer of a fresh plane geometry is the constructor parameter `template`, and the sea plane's vertex count is the parameter `seaVertexCount`.
- The `boundaries` vectors and `currentChunk` are left out. They are written but never read by the modelled code.
- The timing and `console.log` in generateGrid are left out.
- `Terrain.ChunkManager.constructor`: the chunk size and the camera's x and z are taken as integers (`Layout`, the constructor's parameters), so every offset is an integer. In the source the camera position is a float vector (terrain.js:42) and offsets are floats compared with `==`. That comparison is exact only on integer inputs below 2^53. Fractional camera coordinates and float rounding are not modelled. The sea level is a real. The grid side `n` is also taken as an integer, here and in `RegenerateChunks`. The source accepts any number: `roundToOdd(2.5, "up")` returns 2.5 (terrain.js:264), `generateGrid` then floors it (terrain.js:119), and the sea side becomes `size * 2.5` (terrain.js:70).
- The position attribute is a 32-bit float array, so the height written at terrain.js:203 is rounded to single precision before generateVertexColors reads it (terrain.js:146). The field `generator` stands for `Get` followed by that rounding, which keeps `WithNoise` and `BandOf` exact.
- Colours are an enumeration of the four height bands and the sea colour, not RGB floats.
- `HalfMeasure`, `ChildrenSmaller`, `Quadtree.QuadTree.Insert`, `Quadtree.QuadTree.InsertObject`: insertion requires `minNodeSize > 0`, because the termination measure counts how often the minimum fits into the width. With a non-positive minimum the source's recursion is unbounded only when some chain of descendants keeps passing the distance test, for example a square box containing the point; on other inputs it stops. main.js passes 250 (main.js:68).
- `Quadtree.Splits` compares the squared distance with the squared width instead of taking a square root. The second conjunct (width exceeds a positive minimum) makes the two equivalent.
- `Terrain.ChunkManager.RegenerateChunks`: the write-back of the rounded value into the caller's parameter object is modelled as the returned value.
- `Terrain.ChunkManager.ChangeSeaLevel` does not move the sea chunk, because the code does not (see above).
- `Terrain.ChunkManager.GenerateRow`, `Terrain.ChunkManager.RenoiseChunk`, `Terrain.PruneList` and `Terrain.DisplaceVertices` are the loops (or loop bodies) of generateGrid, updateNoiseGenerator, pruneChunks and modifyVerticesWithNoise. They are extracted into methods of their own so that each proof stays small.
- `Terrain.ChunkManager.GenerateChunk`: that the new buffer is fresh is stated only for the new chunk. The invariant ensures that no two chunks share a buffer.
- `Terrain.ChunkManager.UpdateNoiseGenerator`: that only the chunks' buffers change on the heap is not stated beyond its `modifies` clause.
- main.js (renderer, camera, GUI and animation loop) and gui.js are not part of this model. Neither is the quadtree-to-chunk wiring in main.js.
- The empty per-frame `update()` is kept as the no-op method `Update`.
- `roundToOdd` with a direction other than "up" or "down" returns nothing in the source. The model returns `None`.
