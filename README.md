# blobber editing core, modelled in Dafny

This project models the editing core of blobber's `create.js`, a browser sculpting
tool. The model has five parts:

- **The greedy voxel mesher** (`tesselate`). It sweeps a dense voxel grid along its
  three axes, including one boundary plane before the grid and one after it. For
  every face plane it fills a forward and a backward mask using the
  transparency/translucency face rule. It then merges each mask greedily into
  rectangles and emits one quad (12 coordinates) and one face value per rectangle,
  with the transparent quads after the opaque ones. Finally it turns every quad into
  two triangles and every face value into per-vertex RGB.
  Modules: `FaceRule`, `GreedyMerge`, `MeshData`, `Triangulate`.
- **The mining chunk** (`_makeMiningMesh`). A chunk holds an 11×11×11 potential
  lattice filled with 10, three colour bytes per lattice point, and a `dirtyPos`
  flag. Its brush operations are `set`/`paint`/`erase`/`color`. Its `refresh`
  hands a dirty chunk to the marching worker and clears the flag.
  Module: `PotentialField`.
- **The chunk collection** (`miningMeshes`, `voxelMeshes`). This covers lookup by
  coordinates, the 27-probe find-or-add, the exact voxel lookup, and the reset.
  Modules: `ChunkIndex`, `Workspace`.
- **The single-flight coordinators.** Refresh uses `refreshing`/`refreshQueued`/
  `refreshCbs`; commit uses `committing`/`commitQueued`. Each `await` is split into
  a step that starts the awaited work and a step that finishes it.
  Module: `Workspace` (the `Editor` class and the `Coordination` state functions).
- **The selection update** `_setSelectedObjectMesh`, with binding and unbinding of
  controls recorded as a set. Module: `ObjectSelection`.
- **`parseQuery`**, the query-string parser. `decodeURIComponent` is a parameter.
  Module: `Query`.

The mesher's mask buffers are a class (`MeshData.Tesselator`) holding four arrays that
every call shares, as in the source. The greedy merge zeroes its cells in place on
those arrays. `getPositions` and `getColors` fill fresh arrays in loops. A chunk is a
class whose `potential` and `brush` are arrays that the brush loops overwrite.
`Workspace.Editor` holds the chunk collection as a sequence field that its methods
reassign.

The model follows the code, including these behaviours a reader might not expect:

- The quads moved to the end of the vertex stream are those whose first mask cell
  carries the *transparent* bit (`isTransparent`), not the translucent one.
- `refresh` clears `dirtyPos` before it sends the request. The install step of a pass
  runs even for a chunk that `_newMiningMeshes` dropped while the pass was in flight.
  Nothing guards against installing results for a chunk that no longer exists.
- `erase` and `color` stroke every chunk of `miningMeshes`, not only the chunks the
  probes returned. `paint` strokes only the returned chunks. `Workspace.StrokedMiss`
  shows that chunks the brush does not reach are unchanged either way.
  `ChunkIndex.LargeBrushOutreachesProbes` shows that from radius 5 on, a paint
  stroke can reach a chunk that the probes do not name.
- A commit waits only for the pass in flight, through `_waitForMiningMesh`. It
  resumes when a pass ends with nothing queued.

## Model

| member | source | states |
|---|---|---|
| `FaceRule.Face` | create.js:683-719 | Each face takes its own voxel's colour or none. Equal voxels, neither translucent, draw nothing. Two different solid voxels draw nothing. A solid `a` against an absent or transparent `b` draws only the forward face, coloured `a`; the mirror case draws only the backward face, coloured `b`. Two transparent voxels draw both faces, both flagged. Equal voxels that are not transparent draw nothing, even when translucent. Together these cases fix the result for every pair. |
| `FaceRule.ToUint32` | create.js:716-717 | A colour stored in the `Uint32Array` masks lies in `[0, 2^32)`, and an in-range voxel value is kept unchanged. |
| `GreedyMerge.Idx` | create.js:729-745 | Cell `(i, j)` of a plane lives at an offset inside the plane from which `i` and `j` read back, so two cells never share an offset. |
| `GreedyMerge.GenerateMesh` | create.js:726-800 | The rectangles partition the nonzero cells of the original mask. Each rectangle has `1 <= w <= dimsU - i` and `1 <= h <= dimsV - j`, holds only its start colour, and takes its start cell's mask bit. Every nonzero cell lies in exactly one rectangle and no zero cell lies in any. Rectangles come in scan order. The choice is greedy: each rectangle starts at the first cell, in scan order, that the earlier rectangles leave nonzero; its width stops at the row end or at the first remaining cell of another colour; its height stops at the last row or at the first row whose remaining cells break the run. Afterwards every plane cell is zero, and buffer cells beyond the plane are untouched. |
| `GreedyMerge.NewRectGreedy` | create.js:738-747 | A rectangle found at the first nonzero cell with maximal width and height is a greedy step on the mask left by the earlier rectangles. |
| `GreedyMerge.GreedyUniform` | create.js:726-800 | On a plane filled with one nonzero colour, the greedy partition is the single rectangle covering the whole plane. |
| `GreedyMerge.MergeRow` | create.js:730-799 | One scan row keeps the merge invariant: the rectangles found so far are rectangles of the original mask, they do not overlap, the covered cells are zeroed and all other cells are unchanged. |
| `GreedyMerge.ScanWidth` | create.js:738-740 | The width is maximal: every cell of the run holds `c`, and the run stops at the row end or at the first cell differing from `c`. |
| `GreedyMerge.ScanHeight` | create.js:742-747 | Every row of the `w × h` rectangle holds `c`, and the height stops at the last row or at the first row that breaks the run. |
| `GreedyMerge.MatchRow` | create.js:744-745 | The returned length is a prefix of the run that matches `c` on the row; a length short of `w` means the row breaks the run. |
| `GreedyMerge.ZeroRectangle` | create.js:788-795 | Exactly the cells of the rectangle become colour 0 and bit false; every other cell keeps its value. |
| `GreedyMerge.PartitionDisjoint` | create.js:726-800 | No two rectangles of a partition share a cell. |
| `GreedyMerge.PartitionCovers` | create.js:726-800 | Every nonzero mask cell lies in some rectangle of the partition, which carries that cell's colour. |
| `MeshData.VoxelIndex` | create.js:671-672 | The flat offset `x + dimsX*y + dimsX*dimsY*z` of a grid point lies inside the voxel array. |
| `MeshData.CornerPlaces` | create.js:752-785 | A forward (clockwise) quad visits the start, the `u` corner, the opposite corner and the `v` corner of its rectangle. A backward quad swaps the second and fourth corners (swapped `du`/`dv`). |
| `MeshData.WindingReversed` | create.js:757-764 | The backward quad of a rectangle is its forward quad visited in reverse order from the same start. |
| `MeshData.QuadOnPlane` | create.js:752-785 | Every corner of a quad lies on its face plane, one past the layer the mask was built for. |
| `MeshData.SplitKeepsAll` | create.js:766-786 | The opaque and transparent buffers together hold every emitted quad exactly once. |
| `MeshData.SplitLength` | create.js:766-786 | The opaque and transparent quad counts add up to the number of quads emitted. |
| `MeshData.OpaqueBeforeTransparent` | create.js:766-786 | In the joined quad list a quad is transparent exactly when it comes after every opaque quad. |
| `MeshData.FaceDataAt` | create.js:775-784 | Face value `k` is the colour of quad `k`. |
| `MeshData.SweepVisits` | create.js:637-681 | The sweep visits plane `k` of axis `d` exactly when `-1 <= k < dims[d]`, which gives `dims[0] + dims[1] + dims[2] + 3` planes in all. |
| `MeshData.PlaceInGrid` | create.js:670-681 | A point of plane `k` lies in the grid exactly when `k` and both in-plane coordinates are in range, which is when the `xd >= 0` and `xd < dimsD-1` guards read a real voxel. |
| `MeshData.ForwardFaceDrawnOnce` | create.js:663-803 | A forward face drawn by the face rule at a cell is covered by exactly one forward quad of its plane, in the face's colour. A cell without a forward face lies in no forward quad. |
| `MeshData.BackwardFaceDrawnOnce` | create.js:663-804 | The same for backward faces and the backward quads. |
| `MeshData.PushAllCollect` | create.js:766-786 | Appending quads to the vertex buffers succeeds exactly when every quad fits its 102400-value buffer. The buffers then hold the opaque and the transparent quads' data in emission order. |
| `MeshData.Join` | create.js:808-814 | A successful join returns vertex and face data that each fit one 102400-value buffer; otherwise it reports which buffer overflowed. |
| `MeshData.JoinCollect` | create.js:808-814 | Joining the two buffer groups succeeds exactly when all quads' coordinates fit one vertex buffer; a failure is always the vertex buffer, never the face buffer. |
| `MeshData.JoinContents` | create.js:808-814 | A successful join holds the opaque quads' vertex and face data followed by the transparent ones'. |
| `MeshData.MeshQuads` | create.js:808-814 | The joined data are those of a quad list holding the opaque quads and then the transparent ones, which is a permutation of the emitted quads. |
| `MeshData.Tesselator.ComputeMask` | create.js:666-720 | After the mask loop, every cell of the plane holds the face rule's two colours (as unsigned 32-bit values) and two bits. The voxels are read with out-of-grid neighbours as 0. |
| `MeshData.Tesselator.ComputeMaskRow` | create.js:666-719 | One row of the mask loop fills that row and keeps the earlier rows filled. |
| `MeshData.Tesselator.BuildLayer` | create.js:663-804 | One plane: the masks hold the face rule and the forward and backward rectangles are each the greedy partition of their mask. |
| `MeshData.Tesselator.ProcessLayer` | create.js:663-804 | One plane's quads, forward ones clockwise then backward ones, are appended to the buffers exactly when they fit. |
| `MeshData.Tesselator.SweepAxis` | create.js:663-805 | The planes of one axis from -1 to `dims[d] - 1`, each produced by the mesher. The sweep stops at the first plane that overflows a vertex buffer. |
| `MeshData.Tesselator.SweepChecked` | create.js:656-806 | Each axis first checks `dimsU*dimsV <= MASK_SIZE` and fails with the mask error before sweeping anything. Otherwise it sweeps the axis. |
| `MeshData.Tesselator.SweepAxes` | create.js:637-806 | The three axes in order. It stops at the first axis whose planes do not fit the mask buffers, or at the first vertex buffer overflow. |
| `MeshData.Tesselator.GetMeshData` | create.js:622-815 | It succeeds exactly when every plane was swept, every axis fits the mask buffers and all coordinates fit one vertex buffer. Then the vertices are the opaque quads' 12 coordinates each followed by the transparent ones', the faces are their colours in the same order, and there are 12 vertex values per face value. It fails with the mask error when some axis is too large. |
| `MeshData.Tesselator.Tesselate` | create.js:604-620 | On success the positions are the triangle list of the mesh data and the colours the unpacked face colours; a mesh-data error is passed through. |
| `Triangulate.QuadsOfTriangles` | create.js:817-852 | Triangulating loses nothing: the quads can be read back from the triangle list. |
| `Triangulate.GetPositions` | create.js:817-852 | The output is 18 values per quad: triangles `(v0, v1, v3)` and `(v1, v2, v3)` of every quad in order. |
| `Triangulate.WriteQuadTriangles` | create.js:823-849 | Slots `18i .. 18i+18` receive the two triangles of quad `i` and every other slot is unchanged. |
| `Triangulate.FaceRgb` | create.js:866-869 | The three channels are fractions in `[0, 1]`. |
| `Triangulate.PackedColorRoundTrip` | create.js:866-869 | Unpacking bits 16-23, 8-15 and 0-7 of a packed `r g b` value gives back `r`, `g` and `b` over 255, whatever the high byte is. |
| `Triangulate.FaceColorsAt` | create.js:861-878 | All 6 vertices of quad `i` carry the colour unpacked from `faces[i]`. |
| `Triangulate.GetColors` | create.js:861-878 | The output is 18 values per face, with all 6 vertices of face `i` coloured by `faces[i]`. |
| `Triangulate.WriteQuadColors` | create.js:866-874 | Slots `18i .. 18i+18` receive face `i`'s colour 6 times and every other slot is unchanged. |
| `PotentialField.IndexBounds` | create.js:493-511 | A lattice point's index `ax + ay*121 + az*11` lies in `[0, 1331)`, and its colour bytes `3i .. 3i+2` lie below 3993. |
| `PotentialField.IndexInjective` | create.js:493 | Two lattice points with the same index are the same point. |
| `PotentialField.CellIndex` | create.js:493 | Every index below 1331 belongs to one lattice point, so the index map is onto. |
| `PotentialField.IndexDecode` | create.js:493 | Decoding a lattice point's index gives back the point. |
| `PotentialField.SculptAt` | create.js:480-498 | Only the points whose offset lies in the brush box change; each of them becomes `min(old, -d)` for paint or `max(old, d)` for erase. |
| `PotentialField.StampAt` | create.js:502-523 | Only the colour bytes of points in the brush box change, and each becomes its channel of the current colour. |
| `PotentialField.SculptMonotone` | create.js:495-496 | Paint never raises the potential and leaves each reached point at most `-d`; erase never lowers it and leaves each reached point at least `d`. |
| `PotentialField.ApplyIdempotent` | create.js:480-523 | Running the same pass twice changes nothing further. |
| `PotentialField.ApplyEmpty` | create.js:480-482 | A brush box that is empty on some axis changes nothing. |
| `PotentialField.ApplyJoin` | create.js:480-482 | Two passes over adjacent boxes equal one pass over their union, which is what lets the loops sweep the cube slab by slab. |
| `PotentialField.ApplyFrame` | create.js:528-555 | The colour pass never touches the potential, and the dig pass never touches the colours. |
| `PotentialField.HitsIff` | create.js:483-497 | The closed-form test is exact: the brush cube reaches some lattice point iff it overlaps `[0, 10]` on every axis. |
| `PotentialField.ApplyMiss` | create.js:483-497 | A brush cube that reaches no lattice point changes nothing. |
| `PotentialField.DigPoint` | create.js:493-497 | One in-range offset updates exactly its own lattice point. |
| `PotentialField.StampPoint` | create.js:509-518 | One in-range offset writes the three colour bytes `3i`, `3i+1`, `3i+2` of its own lattice point and nothing else. |
| `PotentialField.MissPoint` | create.js:486-493 | An offset outside `[0, 10]` on some axis changes nothing. |
| `PotentialField.MiningChunk.constructor` | create.js:425-455 | A new chunk has potential 10 everywhere, colour bytes 0, is not dirty and not visible. |
| `PotentialField.MiningChunk.ContainsLattice` | create.js:458-464 | A whole world cell is inside the chunk's box exactly when its local coordinates are a lattice point. |
| `PotentialField.MiningChunk.Set` | create.js:472-525 | The new contents are the dig (`value > 0`) or fill pass over the whole brush cube, followed for `value > 0` by the colour pass. `dirtyPos` becomes true iff some offset lands in the lattice. Visibility is unchanged. |
| `PotentialField.MiningChunk.Paint` | create.js:526 | Dig plus colour stamp; dirty iff the brush reaches the lattice. |
| `PotentialField.MiningChunk.Erase` | create.js:527 | The fill pass only; the colour bytes are unchanged. |
| `PotentialField.MiningChunk.Color` | create.js:528-556 | The colour pass only; the potential is unchanged. |
| `PotentialField.MiningChunk.Refresh` | create.js:558-587 | A dirty chunk clears its flag and sends its current contents; a clean one sends nothing. Contents and visibility are unchanged. |
| `PotentialField.MiningChunk.Install` | create.js:571-583 | After installing a march response, the chunk is visible exactly when the response has positions. |
| `PotentialField.MiningChunk.Stroke` | create.js:480-500 | The `dx`/`dz`/`dy` triple loop equals one pass over the whole brush cube, and it sets the dirty flag iff the cube reaches the lattice. |
| `PotentialField.MiningChunk.StrokePoint` | create.js:483-498 | One loop body: an in-range offset updates its point and marks the chunk dirty; an out-of-range one changes nothing. |
| `ChunkIndex.ProbeValues` | create.js:936-942 | Per axis the three probes `floor((w + 5dx)/10)` give two consecutive coordinates; the middle probe equals one of the outer ones. |
| `ChunkIndex.ProbeWitness` | create.js:936-942 | Every probed coordinate is one of the two outer probes. |
| `ChunkIndex.ProbeSetSize` | create.js:936-953 | The 27 probes name exactly 8 chunk coordinates. |
| `ChunkIndex.ProbeSetMembers` | create.js:936-942 | A coordinate is probed exactly when each of its three components is a probe of its axis. |
| `ChunkIndex.VoxelProbeHolds` | create.js:957-960 | The voxel lookup `floor(w/10)` names a chunk whose cells `10a .. 10a+9` contain `w`. |
| `ChunkIndex.ProbesCoverSmallBrush` | create.js:936-942 | With a brush radius up to 4, every chunk the brush reaches on an axis is one the probes name. |
| `ChunkIndex.LargeBrushOutreachesProbes` | create.js:1153-1157 | With radius 5, a brush at cell 5 reaches chunk -1, which the probes do not name. |
| `Workspace.FindCoord` | create.js:930 | The first position holding `p`, or none exactly when `p` is absent. |
| `Workspace.FindChunk` | create.js:930 | `_findMeshByIndex` returns the first chunk with the coordinates, or none exactly when no chunk has them. |
| `Workspace.FindChunkAppend` | create.js:942-948 | Appending a chunk keeps every earlier lookup result, and the new chunk is found only when no earlier chunk had its coordinates. |
| `Workspace.ProbedChunks` | create.js:931-953 | A chunk of the collection is in the find-or-add result exactly when its coordinates are probed. |
| `Workspace.ProbedCount` | create.js:931-953 | A duplicate-free find-or-add result holds exactly 8 chunks. |
| `Workspace.ProbedCoords` | create.js:931-953 | The coordinates of the find-or-add result are exactly the probed coordinates. |
| `Workspace.ProbeAtIn` | create.js:936-942 | Each of the 27 loop iterations looks up a probed coordinate. |
| `Workspace.AskEmptyRefresh` | create.js:1178-1204 | A refresh asked for during a pass only sets `refreshQueued`; otherwise a pass starts. Waiters are untouched either way. |
| `Workspace.AskCommit` | create.js:1006-1010 | A commit asked for during a commit only sets `commitQueued`. Otherwise a commit starts and, if a pass is in flight, it registers a new waiter in `refreshCbs`. |
| `Workspace.EndCommit` | create.js:1033-1037 | At the end of a commit, a queued commit clears its flag and starts; otherwise the commit goes idle. |
| `Workspace.AskCommitCoalesces` | create.js:1006-1040 | Any number of commits asked for during a commit come down to one queued commit. |
| `Workspace.AskRefreshCoalesces` | create.js:1178-1204 | Any number of refreshes asked for during a pass come down to one queued pass. |
| `Workspace.QueuedCommitRuns` | create.js:1033-1040 | A commit queued during a commit is not lost: it starts when the first one ends. |
| `Workspace.TransitionsSettle` | create.js:1004-1242 | The coordinator transitions keep the invariant: no waiter or queued request without something in flight. |
| `Workspace.VisibleChunks` | create.js:1012 | The filter holds exactly the visible chunks of the collection. |
| `Workspace.VisibleChunksEmpty` | create.js:1012-1013 | The filter is empty exactly when no chunk is visible. |
| `Workspace.StrokedMiss` | create.js:1159-1169 | Stroking a chunk the brush does not reach leaves it unchanged, so erase and colour over every chunk only change reached chunks. |
| `Workspace.StrokedIdempotent` | create.js:472-556 | Repeating an identical paint, erase or colour stroke changes nothing further. |
| `Workspace.RefreshChunks` | create.js:1182 | Each chunk returns a request holding its old contents exactly when it was dirty, and every flag is cleared. |
| `Workspace.StrokeChunks` | create.js:1153-1169 | Every target takes the stroke, and each one's dirty flag is set iff the brush reaches it. |
| `Workspace.StrokeTargets` | create.js:1153-1157 | The target chunks take the stroke and every other chunk of the collection is unchanged. |
| `Workspace.Editor.constructor` | create.js:929 | Empty chunk collections and idle coordinators. |
| `Workspace.Editor.FindOrAddChunk` | create.js:942-948 | An existing chunk with the coordinates is returned and the collection is unchanged. Otherwise a fresh pristine chunk is appended and returned. |
| `Workspace.Editor.FindOrAddChunks` | create.js:931-953 | Chunks are only appended, each fresh, pristine and at a probed coordinate. Coordinates stay unique. The result holds exactly the chunks at probed coordinates, without duplicates: 8 of them. |
| `Workspace.Editor.FindOrAddVoxelChunk` | create.js:957-968 | The voxel chunk at `floor(w/10)` on each axis is found, or appended when missing. |
| `Workspace.Editor.Paint` | create.js:1153-1157 | Only chunks at probed coordinates take the paint stroke; new chunks start pristine and then take it too. |
| `Workspace.Editor.Erase` | create.js:1159-1163 | Every chunk of the collection takes the erase stroke, not only the probed ones. |
| `Workspace.Editor.Color` | create.js:1165-1169 | Every chunk of the collection takes the colour stroke. |
| `Workspace.Editor.StartPass` | create.js:1178-1182 | A pass starts: mining chunks send their contents exactly when they were dirty, and their flags clear. A voxel pass sends no mining chunk. |
| `Workspace.Editor.RequestRefresh` | create.js:1178-1235 | During a pass, a call only sets `refreshQueued` and touches no chunk; otherwise it starts a pass. |
| `Workspace.Editor.InstallAll` | create.js:1183-1185 | Each chunk that sent a request becomes visible exactly when its response has positions. Other chunks keep their visibility, and no contents or flags change. |
| `Workspace.Editor.FinishRefresh` | create.js:1183-1201 | After the installs, the commit tool is shown iff some chunk is visible. A queued request clears its flag and re-runs the function that just finished. Otherwise every waiter is released and `refreshCbs` is emptied. |
| `Workspace.Editor.WaitForMiningMesh` | create.js:1236-1242 | It returns at once when no pass is in flight; otherwise it adds a waiter to `refreshCbs`. |
| `Workspace.Editor.NewMiningChunks` | create.js:969-977 | The collection becomes empty and a refresh is asked for. |
| `Workspace.Editor.RequestCommit` | create.js:1006-1010 | It takes the `AskCommit` transition. |
| `Workspace.Editor.FinishCommit` | create.js:1033-1040 | It takes the `EndCommit` transition. |
| `Workspace.Editor.ResumeCommit` | create.js:1012-1033 | With some visible chunk, the visible chunks become one new object, the collection is emptied and a refresh is asked for. With none visible, the collection is unchanged and the commit ends. |
| `Workspace.Editor.FinishParameterize` | create.js:1030-1040 | After parameterization the commit ends, and a queued commit starts. |
| `ObjectSelection.IndexOf` | create.js:1318 | `indexOf`: -1 exactly when absent, otherwise the first position of the object. |
| `ObjectSelection.ToggleMembers` | create.js:1317-1327 | With shift, the object's membership flips and every other object keeps its membership. |
| `ObjectSelection.SelectedDistinct` | create.js:1306-1327 | No selection update selects an object twice. |
| `ObjectSelection.ToggleTwice` | create.js:1317-1327 | Shift-selecting an unselected object twice restores the selection. |
| `ObjectSelection.Selection.constructor` | create.js:1301-1302 | Nothing selected, nothing hovered, controls not hovered. |
| `ObjectSelection.Selection.Bind` | create.js:1451-1496 | The object's controls are attached; selection and hover are unchanged. |
| `ObjectSelection.Selection.Unbind` | create.js:1497-1502 | The object's controls are detached and `transformControlsHovered` becomes false. |
| `ObjectSelection.Selection.SetSelected` | create.js:1306-1330 | Without shift, or with null, the selection becomes exactly `[o]` or `[]`. With shift, removal keeps the others' order and addition appends. Exactly the selected objects stay bound. The hover clears iff the hovered object was selected before and is not after. |
| `Query.Split` | create.js:28-30 | At least one piece, and no piece contains the separator. |
| `Query.JoinSplit` | create.js:28-30 | Joining the pieces with the separator gives back the string. |
| `Query.SplitJoin` | create.js:28-30 | Splitting a join of separator-free pieces gives back the pieces. |
| `Query.SplitPiece` | create.js:28-30 | A string without the separator splits into itself alone. |
| `Query.SplitPrefix` | create.js:28-30 | A separator-free piece followed by the separator splits off as the first piece. |
| `Query.ParseQuery` | create.js:26-34 | The loop builds the dictionary of the pairs after an optional leading `?`, or fails when a decode fails; a pair whose key decodes to `__proto__` stores nothing, as assigning that key on a plain object does. |
| `Query.AssignDecodesAll` | create.js:29-32 | In a successful parse, every pair decoded. |
| `Query.AssignKeys` | create.js:29-32 | The keys of a successful parse are exactly the decoded keys of the pairs other than `__proto__`. |
| `Query.AssignLastWins` | create.js:29-32 | Each key other than `__proto__` holds the value of the last pair that names it. |
| `Query.ProtoQuery` | create.js:27-31 | Parsing `?__proto__=x&a=1` gives the dictionary holding only `a = 1`. |
| `Query.AssignFails` | create.js:29-32 | A pair that fails to decode fails the whole parse. |
| `Query.EmptyQuery` | create.js:26-34 | The empty string parses to `{"": ""}`. |

## Left out

- `getNormals` (create.js:854-859) calls THREE's `computeVertexNormals` on floats, so `Tesselate` returns positions and colours only.
- The falloff `d = (max - sqrt(dx²+dy²+dz²)) / max` is floating point. It is the abstract parameter `falloff`. Its value, and the bounds it would give the potential, are not modelled.
- `brushSize` enters only as its integer ceiling `radius`.
- The `currentColor.r*255` conversion is floating point; the brush colour is given as a byte triple.
- PotentialField.MiningChunk.Set: the potential is a sequence of exact reals, not 32-bit floats, so `Math.min`/`Math.max` are exact and Float32 rounding is not captured.
- Triangulate.GetColors: the channels are the exact reals `c/255`, not their Float32 roundings as stored in the source's `Float32Array`; the same holds for `Triangulate.FaceRgb` and `Triangulate.WriteQuadColors`.
- MeshData.Tesselator.GetMeshData: voxel coordinates are integers rather than `Float32Array` values. The colours compared by the merge are the `Uint32Array` values (`FaceRule.ToUint32`).
- The march, UV-parameterization and cut workers are foreign asynchronous calls. A march response enters only as its position count (`Workspace.Editor.FinishRefresh`). The merged object of a commit is recorded as the list of chunks it was built from.
- Merging geometries, recentring (`_centerObjectMesh`), the container-matrix placement and the undo action `addObjects` are float geometry over THREE or external collaborators. They are not modelled.
- Failure of a worker request (a rejected promise) is not modelled; every awaited step is assumed to complete.
- The commit tool's `hidden` class is recorded as a boolean. The rest of the DOM is not modelled.
- `VOXMesh` voxel chunks (create.js:882-928), their `set`, `_voxelMiningMeshes` and `_commitVoxelMiningMeshes` feed `VOXLoader`, which is not part of this model. A voxel chunk is recorded only by its coordinates. `_refreshVoxelMiningMeshes` is modelled as a pass that sends no mining chunk.
- Rendering, the scene graph, input handlers, physics, the action log, upload, save and load, multiplayer and the UI frame are I/O or foreign libraries. They are not modelled.
- Transform controls are recorded as the set of bound objects plus the `transformControlsHovered` flag. THREE's `TransformControls` and their event handlers are not modelled.
- `mesh.destroy` (create.js:588-591) and the `scene.add`/`scene.remove` calls only dispose of or attach THREE objects. `_newMiningMeshes` is modelled as emptying the collection.
