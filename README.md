# Skinned-model conversion between Ninja chunk models and Assimp scenes

This project models the core of `SAEditorCommon/Import/AssimpStuff.cs` from
SA Tools: the code that converts Ninja chunk models (`NJS_OBJECT` trees with
`ChunkAttach` vertex and poly chunks) to Assimp scenes and back. The model
covers these parts:

- **Vertex cache allocator** (`vertex_cache.dfy`). This is the
  `VertexCacheManager` that gives each imported mesh a range of the 32767-slot
  vertex cache. It allocates first-fit over a set ordered by start, hands out
  a handle per reservation, and releases a range by its handle.
- **Node indexing and names** (`node_index.dfy`). Export walks the object tree
  in depth-first pre-order. The first pass names the k-th node `n{k:000}_{name}`.
  The second pass reads each name back by the same index. Import numbers the
  scene nodes in the same order (`FillNodeIndexForSort`) and removes a
  `^n[0-9]{3}_` prefix.
- **Skinning** (`skinning.dfy`).
  - On import: collecting each vertex's bone weights, the fallback to the last
    bone, grouping the vertices by Start, Middle and End weight status,
    packing the weight byte and local index into the Ninja flags word, and
    assembling a mesh's vertex chunks bone by bone.
  - On export: replaying weighted vertex chunks into the 32768-cell weight
    buffer.
- **Poly-chunk walk on export** (`poly_chunks.dfy`).
  - The 255-slot poly cache: a store chunk saves the rest of the list, and a
    draw chunk replays the saved rest.
  - Material updates before every chunk.
  - Strip chunks, whose corners are de-duplicated into one vertex list with an
    index per corner. The weights are snapshotted in the same order.
  - Each attach's fresh weight list, and the weight list each exported
    vertex reads from it.
- **Triangle and strip building on import** (`strips.dfy`).
  - The triangle list and the UV map keyed by ushort vertex index.
  - Post-processing of the stripifier's groups: a doubled first index marks a
    reversed strip, and indices are moved by the mesh's vertex offset.
  - Per-mesh vertex offsets.
  - The basic (non-chunk) import's triangle indices.
- **Rebasing a mesh into its cache reservation** (`rebase.dfy`). Index offsets
  and strip indices are moved by the reserved start, as ushorts. The handles
  collected at a node are released at its end.
- **Materials** (`materials.dfy`).
  - Wrap modes chosen from the clamp and flip flags, and read back.
  - The texture id, found by scanning the texture-name list.
  - The basic import's material table.

C# exceptions become `Result.Err` with a `Fault` naming the exception:
- `First` on an empty match → `NoElement`;
- a dictionary lookup of a missing key → `KeyNotFound`;
- `Dictionary.Add` of a key that is already present → `DuplicateKey`;
- an index past an array → `IndexOutOfRange`;
- a null cache slot or weight list → `NullReference`;
- "no space in cache" → `CacheFull`;
- an unknown release handle → `UnknownHandle`.

Where the code truncates to `ushort`, the model writes `% 0x1_0000`
(`Strips.UShort`).

Objects whose fields the code changes in place are classes:
- `VertexCacheManager`;
- the export name list;
- the import index tables;
- the weight buffer (an `array`);
- the poly walker with its poly-cache `array`;
- the import `MeshData`, whose strip index arrays are shifted in place.

Each mutating method is proved against a specification function of the old
state.

Three details of the code that the model keeps as written:
- **Texture id:** the scan keeps the *last* matching texture name
  (`Materials.LastMatch`).
- **Diffuse file name:** the comparison with the diffuse file's base name is
  exact; only the material-name comparison ignores case.
- **Weight byte:** it is `(byte)(w * 255)`, a truncation, so a weight of 0.5
  gives 127 (`Skinning.HalfWeightTruncates`).

## Model

| member | source | states |
|---|---|---|
| VertexCache.FirstFitAvoidsEntries | SAEditorCommon/Import/AssimpStuff.cs:719-724 | the first-fit start found by scanning entries in start order overlaps no existing reservation |
| VertexCache.FirstFitIsLowest | SAEditorCommon/Import/AssimpStuff.cs:719-724 | every start below the first-fit start overlaps some reservation, so first fit is the lowest free start |
| VertexCache.NoFitWhenFirstFitOverflows | SAEditorCommon/Import/AssimpStuff.cs:719-726 | when the first fit passes short.MaxValue, no start in range is free, so the "no space" exception is justified |
| VertexCache.InsertKeepsWellFormed | SAEditorCommon/Import/AssimpStuff.cs:727-733 | adding a non-overlapping entry keeps the set ordered by start, non-overlapping and in range |
| VertexCache.InsertKeepsHandles | SAEditorCommon/Import/AssimpStuff.cs:727-734 | a new entry with the next handle keeps handles distinct and below the counter |
| VertexCache.InsertMembers | SAEditorCommon/Import/AssimpStuff.cs:733 | the set after Add holds the old entries and the new one, and exactly those when its start is new |
| VertexCache.InsertAtTakenStart | SAEditorCommon/Import/AssimpStuff.cs:703-706 | because entries compare by start only, adding an entry whose start is taken leaves the set unchanged |
| VertexCache.RemoveHandleMembers | SAEditorCommon/Import/AssimpStuff.cs:741-746 | after release, exactly the entries with other handles remain |
| VertexCache.RemoveHandleKeepsWellFormed | SAEditorCommon/Import/AssimpStuff.cs:741-746 | removing an entry keeps the set ordered and non-overlapping |
| VertexCache.RemoveHandleAt | SAEditorCommon/Import/AssimpStuff.cs:741-746 | with distinct handles, release removes exactly the one matching entry |
| VertexCache.RemoveHandleNone | SAEditorCommon/Import/AssimpStuff.cs:741-747 | an unknown handle removes nothing |
| VertexCache.ReleaseUndoesReserve | SAEditorCommon/Import/AssimpStuff.cs:719-747 | releasing a fresh reservation's handle restores the set that existed before it |
| VertexCache.VertexCacheManager.constructor | SAEditorCommon/Import/AssimpStuff.cs:709-710 | the cache starts empty with handle counter 0 |
| VertexCache.VertexCacheManager.Clear | SAEditorCommon/Import/AssimpStuff.cs:712-716 | Clear empties the set and resets the handle counter, so the next reservation starts at 0 |
| VertexCache.VertexCacheManager.Reserve | SAEditorCommon/Import/AssimpStuff.cs:718-735 | succeeds iff the first fit plus length is at most 32767 and then returns that start and the old counter, inserts the entry unless its start is taken, and bumps the counter; otherwise CacheFull and nothing changes |
| VertexCache.TakenStartMeansEmpty | SAEditorCommon/Import/AssimpStuff.cs:719-733 | the first fit can equal an existing entry's start only when the request or that entry has length zero |
| VertexCache.EmptyEntryHidesReservation | SAEditorCommon/Import/AssimpStuff.cs:703-706 | behind a zero-length entry at 0, a reservation of any length gets start 0, Add drops it and releasing its handle removes nothing |
| VertexCache.HiddenReservationIsReused | SAEditorCommon/Import/AssimpStuff.cs:719-733 | a dropped non-empty reservation's range is handed out again, so two live reservations overlap |
| VertexCache.VertexCacheManager.Release | SAEditorCommon/Import/AssimpStuff.cs:739-748 | succeeds iff some entry has the handle and removes it; otherwise UnknownHandle and nothing changes |
| NodeIndex.PreOrder | SAEditorCommon/Import/AssimpStuff.cs:63-88 | the walk order starts at the node itself |
| NodeIndex.StripNodePrefix | SAEditorCommon/Import/AssimpStuff.cs:1037-1040 | a name matching `^n[0-9]{3}_` loses exactly its first five characters; any other name is kept |
| NodeIndex.StripUndoesNodeName | SAEditorCommon/Import/AssimpStuff.cs:1033-1040 | import's prefix removal recovers the original name from export's `n{i:000}_name` for every index up to 999 |
| NodeIndex.LongIndexIsNotStripped | SAEditorCommon/Import/AssimpStuff.cs:1033-1040 | from index 1000 the four-digit prefix does not match and the decorated name is kept |
| NodeIndex.ExportNames.constructor | SAEditorCommon/Import/AssimpStuff.cs:43 | the name list starts empty |
| NodeIndex.ExportNames.ProcessNodes | SAEditorCommon/Import/AssimpStuff.cs:63-88 | pass one appends the decorated names of the subtree in pre-order and advances the index by the subtree size |
| NodeIndex.ExportNames.EmitNames | SAEditorCommon/Import/AssimpStuff.cs:90-93 | pass two rebuilds the tree naming each node from the list at its pre-order index, or fails with IndexOutOfRange when the list is too short |
| NodeIndex.RelabelPreOrder | SAEditorCommon/Import/AssimpStuff.cs:270-278 | the rebuilt tree has the same pre-order shape and its k-th node carries the k-th listed name |
| NodeIndex.ExportPassesAgree | SAEditorCommon/Import/AssimpStuff.cs:57-60 | after both passes from index -1, the k-th pre-order node of the emitted tree is the k-th source node named with index k |
| NodeIndex.NumberedAt | SAEditorCommon/Import/AssimpStuff.cs:754-761 | with fresh names, the k-th pre-order node is numbered first + k and earlier keys keep their numbers |
| NodeIndex.ImportIndex.constructor | SAEditorCommon/Import/AssimpStuff.cs:750-751 | both import tables start empty |
| NodeIndex.ImportIndex.FillNodeIndexForSort | SAEditorCommon/Import/AssimpStuff.cs:754-761 | succeeds iff the subtree's names are distinct and new; it then numbers them in pre-order and registers each node, otherwise DuplicateKey |
| Skinning.FirstIndex | SAEditorCommon/Import/AssimpStuff.cs:807 | the position of the first weight naming the bone, or -1 when there is none |
| Skinning.GetWeightStatus | SAEditorCommon/Import/AssimpStuff.cs:805-814 | NoElement iff the bone is absent; Start iff it is the first weight; End iff its first occurrence is last and not first; Middle otherwise |
| Skinning.StatusByPosition | SAEditorCommon/Import/AssimpStuff.cs:805-814 | with distinct bone names, the status of the k-th weight is Start, End or Middle by the position k |
| Skinning.WeightedBonesExact | SAEditorCommon/Import/AssimpStuff.cs:829 | the bones kept are exactly the mesh's bones that have weights |
| Skinning.AddBoneWeights | SAEditorCommon/Import/AssimpStuff.cs:832-833 | one bone's pass appends its weight to the list of each vertex it names, in order; succeeds iff all its vertex ids are in range (IndexOutOfRange otherwise) |
| Skinning.CollectWeights | SAEditorCommon/Import/AssimpStuff.cs:826-835 | succeeds iff every weight's vertex id is in range (IndexOutOfRange otherwise); the bone list is the weighted bones in order and each vertex gets its weights in bone order |
| Skinning.FillMissingWeights | SAEditorCommon/Import/AssimpStuff.cs:845-847 | every vertex ends with at least one weight: unweighted vertices get the last bone at 1.0 and the others are unchanged |
| Skinning.WithStatusMembers | SAEditorCommon/Import/AssimpStuff.cs:856-858 | a vertex is in a bone's status group iff it names the bone with that status |
| Skinning.WithStatusAscending | SAEditorCommon/Import/AssimpStuff.cs:856-858 | each status group lists its vertices in strictly ascending order |
| Skinning.GroupsPartition | SAEditorCommon/Import/AssimpStuff.cs:856-858 | each vertex naming the bone is in exactly one of the three status groups |
| Skinning.GroupByStatus | SAEditorCommon/Import/AssimpStuff.cs:848-858 | the loop builds exactly the three status groups |
| Skinning.WeightByte | SAEditorCommon/Import/AssimpStuff.cs:866 | the byte is in 0..255 and is the floor of weight × 255 |
| Skinning.HalfWeightTruncates | SAEditorCommon/Import/AssimpStuff.cs:866 | weight 0.5 packs as 127 |
| Skinning.DisjointOrIsSum | SAEditorCommon/Import/AssimpStuff.cs:866 | OR of a shifted value with one below the shift is their sum |
| Skinning.PackRoundTrip | SAEditorCommon/Import/AssimpStuff.cs:866 | the flags word unpacks (as export reads it, `>> 16` and `& 0xFFFF`) to the weight byte and the local index whenever the index fits 16 bits |
| Skinning.LargeLocalIdSpills | SAEditorCommon/Import/AssimpStuff.cs:861-866 | a local index of 65536 spills into the weight byte and unpacks as index 0 |
| Skinning.Min | SAEditorCommon/Import/AssimpStuff.cs:861 | the minimum is an element of the group and at most every element |
| Skinning.WeightOf | SAEditorCommon/Import/AssimpStuff.cs:866 | the bone's weight lies in [0,1] when all weights do |
| Skinning.UnpackVertex | SAEditorCommon/Import/AssimpStuff.cs:866 | a vertex's flags word unpacks to its weight byte for the bone and its local index |
| Skinning.PackGroup | SAEditorCommon/Import/AssimpStuff.cs:862-867 | the loop writes one flags word per group vertex, in group order, relative to the offset |
| Skinning.BuildWeightedChunk | SAEditorCommon/Import/AssimpStuff.cs:859-869 | the chunk has the group's status, its offset is the group minimum as a ushort, and flags word k packs vertex k's weight byte for the bone with its index relative to the offset |
| Skinning.ChunkUnpacks | SAEditorCommon/Import/AssimpStuff.cs:859-869 | when offsets fit 16 bits, each flags word of a built chunk unpacks to the vertex's weight byte and offset + local index gives back the vertex |
| Skinning.Groups3Shape | SAEditorCommon/Import/AssimpStuff.cs:851-859 | the groups kept from the three-entry dictionary come in the order Start, Middle, End, each paired with its own status's group, which is non-empty |
| Skinning.Groups3Has | SAEditorCommon/Import/AssimpStuff.cs:851-859 | a status is kept iff its group is non-empty |
| Skinning.StatusGroupsOrdered | SAEditorCommon/Import/AssimpStuff.cs:849-859 | a bone's groups come one per status in the order Start, Middle, End, each the non-empty list of the vertices with that status |
| Skinning.StatusGroupPresent | SAEditorCommon/Import/AssimpStuff.cs:857-859 | a status has a group for the bone iff some vertex names the bone with that status |
| Skinning.WithStatusNonEmpty | SAEditorCommon/Import/AssimpStuff.cs:856-859 | a status group is non-empty iff some vertex names the bone with that status |
| Skinning.StatusGroupsCover | SAEditorCommon/Import/AssimpStuff.cs:856-859 | a vertex is in one of the bone's chunk groups iff it names the bone, and in at most one |
| Skinning.GroupChunk | SAEditorCommon/Import/AssimpStuff.cs:859-869 | a non-empty status group gives exactly one chunk built from it; an empty one gives none |
| Skinning.BoneChunks | SAEditorCommon/Import/AssimpStuff.cs:849-871 | one bone's chunk list holds a chunk built from each non-empty status group, in the order Start, Middle, End |
| Skinning.BoneTable | SAEditorCommon/Import/AssimpStuff.cs:848-872 | the bone loop succeeds iff no bone name repeats, failing with DuplicateKey otherwise; on success the keys are exactly the bones and each bone holds its chunk list |
| Skinning.TableStep | SAEditorCommon/Import/AssimpStuff.cs:871 | filing a bone that is not yet a key keeps the loop's invariant: distinct bones so far, exactly those as keys, each with its chunk list |
| Skinning.KeyedUpdate | SAEditorCommon/Import/AssimpStuff.cs:871 | filing a new bone leaves every earlier bone's chunk list in place |
| Skinning.AssembleSkin | SAEditorCommon/Import/AssimpStuff.cs:838-906 | with two or more bones: first and last node set, unweighted vertices filled from the last bone, and every bone keyed to its chunk list, failing with DuplicateKey iff a bone repeats; with one bone or none: one unweighted chunk under that bone or the empty name |
| Skinning.StartThenAppends | SAEditorCommon/Import/AssimpStuff.cs:145-166 | a Start update followed by Middle/End updates leaves exactly the replayed weights |
| Skinning.AppendsOnly | SAEditorCommon/Import/AssimpStuff.cs:156-166 | Middle/End updates append to an existing list in order |
| Skinning.ExportRebuildsWeightList | SAEditorCommon/Import/AssimpStuff.cs:145-166 | replaying a vertex's weights with the statuses import gives them rebuilds its weight list bone by bone, whatever the cell held |
| Skinning.ApplyFromOutcome | SAEditorCommon/Import/AssimpStuff.cs:141-166 | for a chunk of any status with distinct in-range cache ids: succeeds iff every touched cell takes its step, failing with NullReference otherwise |
| Skinning.ApplyFromCells | SAEditorCommon/Import/AssimpStuff.cs:141-166 | when such a chunk succeeds, the buffer keeps its length, each touched cell holds one step of its old list and every other cell is left alone |
| Skinning.WeightBuffer.constructor | SAEditorCommon/Import/AssimpStuff.cs:41 | the buffer has 32768 empty cells |
| Skinning.WeightBuffer.ApplyChunk | SAEditorCommon/Import/AssimpStuff.cs:127-179 | the loop over a chunk's vertices produces exactly the specified buffer or fault |
| PolyChunks.CornerVertex | SAEditorCommon/Import/AssimpStuff.cs:315-334 | a corner is the cached vertex's position and normal with the strip's color or UV when the strip kind carries them; an index outside the cache or list is IndexOutOfRange |
| PolyChunks.IndexOf | SAEditorCommon/Import/AssimpStuff.cs:348-349 | the first position of a present vertex |
| PolyChunks.DedupStep | SAEditorCommon/Import/AssimpStuff.cs:338-358 | one step of a successful run, to the next corner or past a strip's end, keeps the de-duplication and weight invariants and the run's outcome |
| PolyChunks.DedupFromInv | SAEditorCommon/Import/AssimpStuff.cs:338-358 | the de-duplication invariant holds to the end |
| PolyChunks.DedupChunkProperties | SAEditorCommon/Import/AssimpStuff.cs:338-358 | the vertex list has no duplicates; one weight entry is snapshotted per new vertex; each strip keeps its length and reversal; every stored index points at its corner's vertex while indices fit a ushort |
| PolyChunks.WeightsNewCorner | SAEditorCommon/Import/AssimpStuff.cs:348-353 | a corner whose vertex is new is that vertex's first corner, and the weight list appended is its cell's |
| PolyChunks.DedupFromWeights | SAEditorCommon/Import/AssimpStuff.cs:338-358 | along a successful run, each listed vertex's weight entry stays the weight-buffer list of the cell named by its first corner |
| PolyChunks.DedupChunkWeights | SAEditorCommon/Import/AssimpStuff.cs:338-358 | the weight entry added for vertex p is the weight-buffer list of the cell named by the chunk's first corner standing for vertex p |
| PolyChunks.DedupChunkMatch | SAEditorCommon/Import/AssimpStuff.cs:338-358 | the chunk's new weight entries are, position by position, the lists of cells holding each vertex's position and normal |
| PolyChunks.AddCornerInv | SAEditorCommon/Import/AssimpStuff.cs:341-355 | adding one corner, new vertex or repeated, keeps the de-duplication invariant |
| PolyChunks.DedupStrip | SAEditorCommon/Import/AssimpStuff.cs:340-357 | the corner loop of one strip either fails as the specified run does or closes the strip and leaves the rest of the run unchanged |
| PolyChunks.DedupStrips | SAEditorCommon/Import/AssimpStuff.cs:338-358 | the nested loops compute the specified de-duplication |
| PolyChunks.WalkWeightsAlign | SAEditorCommon/Import/AssimpStuff.cs:283-366 | the weights list keeps its old entries and grows by one entry per vertex of the emitted meshes, in order, each the list of a cell holding that vertex's position and normal |
| PolyChunks.AllVertsAt | SAEditorCommon/Import/AssimpStuff.cs:222-262 | vertex v of mesh m sits at position (vertices of meshes before m) + v of all meshes' vertices |
| PolyChunks.ExportWeightIndexInRange | SAEditorCommon/Import/AssimpStuff.cs:222-262 | the `weights[vertind + i]` read on export is always inside the collected weights, and it yields the list of a cell holding that vertex's position and normal |
| PolyChunks.MeshVertexWeights | SAEditorCommon/Import/AssimpStuff.cs:189-262 | the read loop succeeds iff all meshes' vertices fit in the list (IndexOutOfRange otherwise); mesh m's vertex i then reads the entry at (vertices of meshes before m) + i |
| PolyChunks.PolyWalker.constructor | SAEditorCommon/Import/AssimpStuff.cs:42 | the poly cache has 255 empty slots |
| PolyChunks.PolyWalker.ProcessPolyList | SAEditorCommon/Import/AssimpStuff.cs:283-366 | the recursive walk produces exactly the specified meshes, material, cache and weights, or the specified fault |
| PolyChunks.PolyWalker.ExportAttachMeshes | SAEditorCommon/Import/AssimpStuff.cs:183-231 | starts from an empty weight list; no poly list gives no meshes; otherwise the walk from chunk 0 gives the meshes or its fault, and every vertex gets the list of a cell holding its position and normal |
| Strips.UShort | SAEditorCommon/Import/AssimpStuff.cs:914 | a ushort cast lands in 0..65535 |
| Strips.TriList | SAEditorCommon/Import/AssimpStuff.cs:909-915 | three indices per face |
| Strips.UVMapKeys | SAEditorCommon/Import/AssimpStuff.cs:909-915 | the UV map has a key for exactly the indices in the triangle list |
| Strips.AddCorners | SAEditorCommon/Import/AssimpStuff.cs:912-917 | the corner loop appends the face's three ushort indices and, with UVs, records each corner's coordinate under its index; a corner outside the coordinate channel fails |
| Strips.BuildTriangleList | SAEditorCommon/Import/AssimpStuff.cs:905-915 | succeeds iff every face has three in-range corners, giving the triangle list and, with UVs, the UV map |
| Strips.Body | SAEditorCommon/Import/AssimpStuff.cs:926 | a reversed group drops its doubled first index |
| Strips.StripOf | SAEditorCommon/Import/AssimpStuff.cs:923-933 | fails iff the group has fewer than two indices (IndexOutOfRange) or a UV lookup misses (KeyNotFound); reversed iff the first two indices agree; UVs exactly when present, one per index |
| Strips.StripOfRestoresGroup | SAEditorCommon/Import/AssimpStuff.cs:923-933 | the strip's indices minus the offset, with the doubled index restored when reversed, give back the stripifier's group |
| Strips.PostProcessStrip | SAEditorCommon/Import/AssimpStuff.cs:923-933 | the loop computes the specified strip |
| Strips.PostProcessStrips | SAEditorCommon/Import/AssimpStuff.cs:920-934 | the loop over the stripifier's groups computes the specified strips, stopping at the first failing group |
| Strips.MeshStrips | SAEditorCommon/Import/AssimpStuff.cs:905-933 | bad faces fail with IndexOutOfRange; otherwise the result is post-processing of the stripifier's groups over the built UV map |
| Strips.StripsOfErrStays | SAEditorCommon/Import/AssimpStuff.cs:921-933 | the first failing group decides the result |
| Strips.StripifiedMeshSucceeds | SAEditorCommon/Import/AssimpStuff.cs:905-933 | groups drawn from the triangle list with at least two indices always post-process, one strip per group |
| Strips.SumMonotone | SAEditorCommon/Import/AssimpStuff.cs:1310 | running vertex totals only grow |
| Strips.VertexOffsets | SAEditorCommon/Import/AssimpStuff.cs:1308-1310 | each mesh's offset is the sum of the vertex counts before it |
| Strips.OffsetRangesDisjoint | SAEditorCommon/Import/AssimpStuff.cs:1308-1310 | vertex ranges of different meshes do not overlap |
| Strips.BasicTriangles | SAEditorCommon/Import/AssimpStuff.cs:1251-1257 | succeeds iff every face has three indices; each triangle is the face's indices plus the offset, as ushorts |
| Strips.BasicIndexInOwnRange | SAEditorCommon/Import/AssimpStuff.cs:1253-1256 | while totals fit a ushort, a local index lands in the mesh's own range |
| Rebase.Shifted | SAEditorCommon/Import/AssimpStuff.cs:1062-1065 | shifting keeps the length |
| Rebase.ShiftedWithinReservation | SAEditorCommon/Import/AssimpStuff.cs:1059-1065 | indices local to a mesh, moved by a start the cache handed out, are exact and land in the reserved range |
| Rebase.ShiftedTwice | SAEditorCommon/Import/AssimpStuff.cs:1062 | two ushort shifts compose into one by the sum |
| Rebase.ShiftIndexes | SAEditorCommon/Import/AssimpStuff.cs:1063-1065 | the in-place loop shifts every index of the array |
| Rebase.MeshData.constructor | SAEditorCommon/Import/AssimpStuff.cs:773-778 | the mesh record holds the given count, bones, chunks and strips |
| Rebase.MeshData.ShiftStrips | SAEditorCommon/Import/AssimpStuff.cs:1063-1065 | every strip of the mesh is shifted |
| Rebase.MeshData.RebaseSkinned | SAEditorCommon/Import/AssimpStuff.cs:1059-1065 | reserves the vertex count (CacheFull when it does not fit), keeps the handle, and shifts every vertex chunk and strip by the start |
| Rebase.MeshData.RebaseUnskinned | SAEditorCommon/Import/AssimpStuff.cs:1088-1094 | reserves the count, fails with KeyNotFound when there is no unnamed chunk list, otherwise shifts it and the strips and returns the handle |
| Rebase.ReleaseAll | SAEditorCommon/Import/AssimpStuff.cs:1108-1109 | releases the handles in order, stopping at the first unknown one |
| Rebase.RemoveHeldDistinct | SAEditorCommon/Import/AssimpStuff.cs:741-746 | releasing a held handle keeps the remaining handles distinct |
| Rebase.RemoveHandleHas | SAEditorCommon/Import/AssimpStuff.cs:741-746 | after a release, a handle is held iff it was held before and is not the released one |
| Rebase.RemoveHeldHandle | SAEditorCommon/Import/AssimpStuff.cs:741-746 | with distinct handles, releasing a held handle keeps them distinct and leaves exactly the other handles held |
| Rebase.ReleaseSeqMembers | SAEditorCommon/Import/AssimpStuff.cs:1108-1109 | releasing a handle list succeeds iff every handle is held and none repeats; the cache then keeps exactly the entries whose handle is not listed; otherwise UnknownHandle |
| Materials.WrapModeOf | SAEditorCommon/Import/AssimpStuff.cs:201-211 | Clamp iff clamp; Mirror iff flip without clamp; Wrap otherwise |
| Materials.FlagsOf | SAEditorCommon/Import/AssimpStuff.cs:1716-1731 | with a diffuse texture: texture on, each clamp flag set iff it was set by default or the mode is Clamp, each flip flag iff set by default or Mirror; without one the default flags stay |
| Materials.WrapModeRoundTrip | SAEditorCommon/Import/AssimpStuff.cs:1721-1731 | from defaults without clamp or flip flags, Wrap, Clamp and Mirror survive import then export |
| Materials.FlagsRoundTrip | SAEditorCommon/Import/AssimpStuff.cs:1721-1731 | from defaults without clamp or flip flags, export then import keeps the texture and clamp flags, and a flip only where clamp is off |
| Materials.ExportSlot | SAEditorCommon/Import/AssimpStuff.cs:198-211 | a texture slot is written iff the texture is used and its id is inside the given list, with the chosen wrap modes |
| Materials.Lower | SAEditorCommon/Import/AssimpStuff.cs:962 | lower-casing keeps the length |
| Materials.LastMatch | SAEditorCommon/Import/AssimpStuff.cs:946-949 | with a match: the last matching index; with none: the default |
| Materials.FindTextureId | SAEditorCommon/Import/AssimpStuff.cs:946-949 | the scan computes the last match |
| Materials.TextureChunks | SAEditorCommon/Import/AssimpStuff.cs:939-966 | with a material: a material chunk, then a texture-id chunk iff a texture list exists, holding the last exact diffuse match or the last case-insensitive name match, 0 when none, as a ushort; no material means no chunks |
| Materials.ScanMaterialName | SAEditorCommon/Import/AssimpStuff.cs:1230-1235 | the case-insensitive scan leaves the id at the last match (unchanged without one) and turns the texture on iff it was on or some name matched |
| Materials.BasicTexture | SAEditorCommon/Import/AssimpStuff.cs:1218-1234 | with a diffuse texture and a list: texture on, id = last exact match, or unchanged; without a diffuse texture: id = last case-insensitive match, or unchanged, and the texture is on iff it was or some name matched |
| Materials.MaterialSlots | SAEditorCommon/Import/AssimpStuff.cs:1215 | succeeds iff no two meshes share a material index (DuplicateKey otherwise), mapping each index to its mesh position |

## Left out

- **Other files:** `SAEditorCommon/Import/NodeTable.cs` is not part of this model.
- **Vectors, matrices and colors:** world transforms, bounding spheres, positions, normals, colors and float arithmetic are left out. The model keeps positions and normals as an opaque vertex type. It keeps weights as reals in [0,1], and on export it keeps the weight as its byte.
- **Foreign calls become parameters:**
  - the triangle stripifier is a function parameter of `Strips.MeshStrips`;
  - `UpdateFromPolyChunk` is the `update` parameter of the walk;
  - `VertexChunk.Merge`, `ToTriangles`, `Path.GetFileNameWithoutExtension` and identifier generation are not modelled. The diffuse base name is an input.
- `Materials.Lower`: maps ASCII letters only. Culture-specific lower-casing is not modelled.
- `Skinning.CollectWeights`: takes the bones already ordered. The `OrderBy(nodeIndexForSort)` sort is not modelled.
- **Node orchestration:** these parts are not modelled:
  - root selection and the recursion of `AssimpImportWeighted` (1016-1030, 1112);
  - the decision which meshes a node rebases (1051-1058, 1086-1087);
  - the rest of attach assembly (bounds, transforms, chunk merging, strip and material chunks) and the release-list bookkeeping.
  
  The per-mesh rebasing and the release loop are modelled.
- **Handles:** the handle counter of the vertex cache is unbounded. 32-bit wrap-around is not modelled.
- `PolyChunks.PolyWalker.ProcessPolyList`: recursion through cache-draw chunks is bounded by a `fuel` parameter. Running out is reported as `StackOverflow`, which stands for the unbounded recursion a self-drawing cache would cause.
- `PolyChunks.DedupStrips`: compares vertices by value equality. `VertexData.Equals` is not part of this model.
- **State after an exception:** after a fault the model specifies the fault only, not the partly updated state. Conversion aborts at that point.
- `Skinning.WeightByte`: requires a weight in [0,1]. Weights outside that range, whose byte cast wraps, are not modelled.
- `Skinning.BuildWeightedChunk`: states the unpacking only for vertices whose offset from the group minimum fits 16 bits, which the 32767-vertex cache guarantees.
- **Vertex-cache quirk:** `SortedSet.Add` ignores an entry whose start is already present. The first fit can equal an existing start only when the request or the entry there has length zero. Then the reservation's handle is never stored and releasing it fails. If the entry there has length zero, a reservation of any length is dropped and its range can be handed out again (`VertexCache.HiddenReservationIsReused`). The model keeps this behaviour as written.
- `Materials.FlagsOf`: the defaults of `new NJS_MATERIAL()` are not part of this model. They are a parameter, and the round trips assume they set no clamp or flip flag.
- `PolyChunks.CornerVertex`: a strip whose colour or UV array is null fails in the code with a null reference. The model has no null per-corner lists and reports such a strip as IndexOutOfRange, like a list that is too short. The model's vertex buffer also has no unfilled cells, so a corner naming a cell that no vertex chunk filled, which fails with a null reference in the code, is not modelled.
