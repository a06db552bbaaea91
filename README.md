# Resource-layer bookkeeping of a Vulkan renderer, in Dafny

This project models three pieces of sequential logic from a Vulkan renderer, one Dafny module each.

- **`TextureSlots`** (`texture_slots.dfy`) models the texture slot allocator of the global texture store.
  - There are two in-game texture classes, `RGBA8_1024` and `R8_1024`. Each is backed by a 16-layer texture array.
  - Each class holds three things: a sparse map from slot to texture description, a high-water mark `maxSlotIndex`, and a write cursor `currentEmptySlot`.
  - An insertion records the description at the cursor and uploads the pixels to that layer. It then moves the cursor to the lowest free slot below the mark. If there is none, the cursor and the mark both move to one past the mark.
  - The pure function `Inserted` is this step exactly as the code performs it. The `GlobalTextures` class holds the dictionary and a log of layer uploads. Its `InsertTexture` method runs the scan with a `found` flag and a `break`. Unlike the code, it never writes past the backing array: once the cursor has run past the last layer, it scans for the lowest freed layer and records there, and it refuses the insertion only when every layer holds a description (see Findings).
- **`FrameTables`** (`frame_manager.dfy`) models the frame manager's inline state.
  - The state is the per-frame table of reserved command buffers, the fences, the current frame index and the frame count.
  - The operations are `FrameIndex`, `GetCurrentFrameFence` and both `ReserveCommandBuffer` overloads.
  - `operator[]` on the table is modelled explicitly: it stores an empty list for a frame that had none.
- **`SceneMeshes`** (`scene_meshes.dfy`) models the index generation of the procedural meshes.
  - `GenerateTriangles` is the recursive subdivision of a barycentric triangle, over the vertex and index buffers that the code passes by reference. The method is proved equal to the recursive specification `Subdivided`. The lemmas about `Subdivided` give the counts, the prefixes, the bounds and the residue facts.
  - `GenerateTriangleMesh` starts it from the three corners with indices 0, 1 and 2.
  - The box, quad and icosahedron generators are modelled as constant index tables with a vertex count.

Vertex coordinates are carried along but never inspected. `SubDivideTriangle` is a function parameter (`subdivide`). Command buffers, fences, texture descriptions and pixel payloads are opaque handles.

Where the intended design and the code differ, the model follows the code:
- After `k` insertions into a fresh class, `maxSlotIndex` and `currentEmptySlot` are both `k`, not `k-1` (`FreshInsertions`).
- A slot freed out of band below the mark of a packed class (every slot below the mark taken) is not the target of the next insertion. That insertion still goes to the slot at the mark; only the scan after it moves the cursor to the freed slot (`FreedSlotReusedAfterNext`). Once the cursor is past the last layer, the bounded insertion goes to the lowest freed layer directly (`FullClassReclaimsFreedLayer`).
- The list overload of `ReserveCommandBuffer` does not append to the stored list (see Findings).
- Subdivision at level `L` leaves `4^L + 2` vertices. This counts every edge point once for each triangle that creates it, so shared edge points appear more than once, which is what the remark above `GenerateTriangles` (scene/SceneGenerator.cpp:96) warns about.

## Model

| member | source | states |
|---|---|---|
| TextureSlots.InitialTextureArray | class/GlobalTextures.cpp:24-34 | a freshly initialised class has 16 layers, `maxSlotIndex = currentEmptySlot = 0` and no descriptions, and it satisfies the slot invariant, the packed shape and the layer bound |
| TextureSlots.GlobalTextures.InitTextureDiction | class/GlobalTextures.cpp:20-35 | the dictionary is resized to one entry per class, and each entry gets its name, description, 16 layers and zeroed counters; a description map that already existed is kept, since the code never resets it |
| TextureSlots.GlobalTextures.constructor | class/GlobalTextures.cpp:8-17 | creation runs `InitTextureDiction` on an empty dictionary: every class starts in its initial state, the store is valid and no layer has been uploaded |
| TextureSlots.FirstFreeFrom | class/GlobalTextures.cpp:94-103 | the scan returns the lowest index in `[from, bound)` that has no description, and returns none exactly when every index in the range has one |
| TextureSlots.Inserted | class/GlobalTextures.cpp:87-111 | `desc` is recorded at the entry cursor and no other description changes. If a slot below the mark is free after the write, the cursor moves to the lowest such slot and the mark is unchanged. Otherwise the cursor and the mark both become the old mark + 1, so the mark never decreases and grows by at most 1. The slot invariant and the packed shape are preserved. Name, description and layer count are unchanged |
| TextureSlots.InsertionSlot | class/GlobalTextures.cpp:89-103 | the layer a bounded insertion uses: the cursor when it is a layer of the array; otherwise the lowest layer without a description. There is one exactly when the cursor is a layer or some layer is free |
| TextureSlots.TryInsert | class/GlobalTextures.cpp:87-111 | the insertion succeeds exactly when `InsertionSlot` gives a layer. It then is `Inserted` with the cursor set to that layer, so it equals `Inserted` whenever the cursor is a layer. The description is recorded at that layer, and the slot invariant and the layer bound are preserved |
| TextureSlots.InsertAll | class/GlobalTextures.cpp:87-111 | a sequence of insertions keeps the layer count and the slot invariant |
| TextureSlots.FreshInsertions | class/GlobalTextures.cpp:89-110 | `k` insertions into a fresh class fill slots `0 .. k-1` in order with the inserted descriptions and leave `maxSlotIndex = currentEmptySlot = k` |
| TextureSlots.SeventeenthInsertionOverflows | class/GlobalTextures.cpp:89-91 | after 16 insertions into a fresh class, the cursor equals the layer count 16, and a 17th insertion as written records slot 16 |
| TextureSlots.RefusesOnlyBeyondCapacity | class/GlobalTextures.cpp:26 | with no slot freed, the bounded insertion accepts the next texture of a fresh class after `k` insertions exactly when `k < 16` |
| TextureSlots.FullClassReclaimsFreedLayer | class/GlobalTextures.cpp:89-103 | in a packed class whose mark is the layer count, with one layer freed, the bounded insertion records at the freed layer and changes no other description; the insertion after it is refused |
| TextureSlots.SixteenInsertionsThenFreedLayer | class/GlobalTextures.cpp:89-110 | after 16 insertions into a fresh class and one layer `f` freed, the next bounded insertion records at layer `f`, and the one after it is refused |
| TextureSlots.FreedSlotReusedAfterNext | class/GlobalTextures.cpp:89-103 | in a packed class with one slot below the mark freed, the next insertion goes to the slot at the mark, the freed slot stays empty, the cursor moves to it and the mark stays put |
| TextureSlots.PrepareUniformVarList | class/GlobalTextures.cpp:56-85 | exactly six sampler bindings, with pairwise-distinct names |
| TextureSlots.LowestFreeLayer | class/GlobalTextures.cpp:94-103 | the scan over layers `0 .. layerCount-1` returns the lowest layer without a description, or none when every layer has one |
| TextureSlots.InsertionKeepsStoreValid | class/GlobalTextures.cpp:87-111 | a bounded insertion into one class, with its upload logged at the layer it used, keeps every class's slot invariant and layer bound and every logged upload inside its array |
| TextureSlots.GlobalTextures.InsertTexture | class/GlobalTextures.cpp:87-111 | the insertion succeeds exactly when `InsertionSlot` of class `t`'s entry gives a layer. Then only class `t`'s entry changes, and it becomes `TryInsert` of the old entry; one upload of the pixels to that layer is logged. Otherwise nothing changes. Validity (slot invariant, every description and upload inside its array) is preserved |
| FrameTables.FrameManager.FrameIndex | vulkan/FrameManager.h:18 | returns the current frame index and reads nothing else |
| FrameTables.FrameManager.GetCurrentFrameFence | vulkan/FrameManager.h:19 | requires the current index to name a fence, and returns that fence |
| FrameTables.Touched | vulkan/FrameManager.h:29 | `operator[]` adds the frame index to the keys and leaves every frame's reserved list as it was |
| FrameTables.Appended | vulkan/FrameManager.h:26 | appending to frame `i` makes its list its old contents (empty if absent) followed by the new buffers, and leaves every other frame's list unchanged |
| FrameTables.FrameManager.ReserveCommandBuffer | vulkan/FrameManager.h:26 | the current frame's list gains the buffer at its end; no other list, the fences, the resource table, the frame index or the frame count change |
| FrameTables.FrameManager.ReserveCommandBufferList | vulkan/FrameManager.h:27-31 | the only effect is that the current frame gets an empty list if it had none: every stored list keeps its contents, and the fences, resource table, index and count do not change |
| FrameTables.OneByOneIsAppended | vulkan/FrameManager.h:30 | inserting a list one buffer at a time after `operator[]` is the same as appending the whole list |
| FrameTables.ListReservationDropsBuffers | vulkan/FrameManager.h:29-30 | for any non-empty list, the current frame's list after the list overload differs from the list with the buffers appended |
| FrameTables.FrameManager.AppendCommandBufferList | vulkan/FrameManager.h:27-31 | corrected overload: the current frame's list becomes its old contents followed by the whole given list, in order; nothing else changes |
| SceneMeshes.ResidueIsMod | scene/SceneGenerator.cpp:124-126 | the residue used for the corner offsets is the remainder mod 3 |
| SceneMeshes.GenerateTriangles | scene/SceneGenerator.cpp:97-141 | the buffers it leaves are those of `Subdivided`. At level 0 it appends the three corner indices in order and leaves the vertices alone. Otherwise it appends three slots at the start offset, writes each edge point at start + corner index mod 3, and recurses on the four sub-triangles in the source's order |
| SceneMeshes.SubdividedVertexCount | scene/SceneGenerator.cpp:116-121 | a call at level `L` adds exactly `4^L - 1` vertices |
| SceneMeshes.SubdividedIndexCount | scene/SceneGenerator.cpp:100-105 | a call at level `L` adds exactly `3·4^L` indices |
| SceneMeshes.SubdividedWholeBlocks | scene/SceneGenerator.cpp:116-121 | a vertex count that is a multiple of 3 stays a multiple of 3 |
| SceneMeshes.SubdividedKeepsVertices | scene/SceneGenerator.cpp:116-134 | the vertices present on entry are a prefix of the result: the writes touch only the new slots |
| SceneMeshes.SubdividedKeepsIndices | scene/SceneGenerator.cpp:97-141 | the indices only grow by appending; the existing prefix is preserved |
| SceneMeshes.FreshBlockStores | scene/SceneGenerator.cpp:116-134 | with corners of distinct residues, the three edge points land in three distinct fresh slots, each at start + its corner's residue, and the old vertices are kept |
| SceneMeshes.ChildrenCallable | scene/SceneGenerator.cpp:124-140 | when a call's corners have distinct residues and are in bounds, so do the corners of each of its four recursive calls, on the buffers each of them receives |
| SceneMeshes.SubdividedEmitsTriangles | scene/SceneGenerator.cpp:97-141 | when the corners have distinct residues and are in bounds: every appended index is below the final vertex count, and every appended triangle has corners of pairwise-distinct residues |
| SceneMeshes.SubdividedStoresEdgePoints | scene/SceneGenerator.cpp:128-140 | the three edge points written by a non-leaf call are still in their slots when the recursion returns |
| SceneMeshes.GenerateTriangleMesh | scene/SceneGenerator.cpp:143-161 | the mesh has `3·4^level` indices and `4^level + 2` vertices, the first three being the barycentric corners; every index is below the vertex count, and every triangle has three distinct corners |
| SceneMeshes.GenerateBoxMesh | scene/SceneGenerator.cpp:179-204 | 8 vertices, 36 indices, all below 8, and every triangle has three distinct corners |
| SceneMeshes.GeneratePBRBoxMesh | scene/SceneGenerator.cpp:250-280 | 24 vertices, 36 indices, all below 24, and every triangle has three distinct corners |
| SceneMeshes.GeneratePBRQuadMesh | scene/SceneGenerator.cpp:292-301 | 4 vertices, 6 indices, all below 4, and every triangle has three distinct corners |
| SceneMeshes.GenerateQuadMesh | scene/SceneGenerator.cpp:313-322 | 4 vertices, 6 indices, all below 4, and every triangle has three distinct corners |
| SceneMeshes.GenPBRIcosahedronMesh | scene/SceneGenerator.cpp:352-384 | 12 vertices, 60 indices, all below 12, and every triangle has three distinct corners |

## Left out

- TextureSlots.GlobalTextures.InsertTexture: when the cursor is past the backing array, records at the lowest freed layer, or refuses the insertion when every layer is taken, instead of writing past the array. The code as written is `Inserted`; see Findings.
- TextureSlots.Inserted: does not model the 32-bit wrap-around of `maxSlotIndex + 1`. The counters are unbounded naturals; wrap-around would need 2^32 insertions.
- SceneMeshes.GenerateTriangles: does not model the 32-bit truncation of `vertices.size()` into `startOffset` or of the index values. Buffer sizes and indices are unbounded naturals.
- GPU resource creation is not modelled: `CreateEmptyTexture2DArray`, `CreateEmptyTextureCube`, `CreateOffscreenTexture` and all of `InitIBLTextures`. They are foreign Vulkan calls. A backing array is reduced to its layer count of 16.
- The upload `pTextureArray->InsertTexture` is reduced to a `LayerWrite` event in the store's log.
- The failure path of `GlobalTextures::Create` and the base-class `Init` are not modelled. They are object-lifetime plumbing outside the allocator.
- `InGameTextureTypeCount` is taken to be 2, one per class used by `InitTextureDiction`. The header that declares the enumeration is not part of this model.
- The fields of `TextureDesc` and of the pixel payload are not modelled. The allocator never reads them.
- The uniform binding kind has only the `CombinedSampler` value. The other kinds are declared in headers that are not part of this model.
- `FrameManager::WaitForFence`, `SetFrameIndex`, `AllocatePerFrameResource`, `Init` and `Create` are not modelled. Their bodies are not part of this model, and fence waiting is CPU/GPU synchronisation. No advancement of the frame index is assumed.
- The frame resource table and the frame count are carried as state that the reservations provably leave alone; nothing else reads them here.
- `SubDivideTriangle` is a function parameter. Its body is not part of this model, and it computes in floating point.
- Vertex coordinates of the box, quad and icosahedron meshes are not modelled, including the `sqrt`/`glm::length` of the icosahedron. They are floating point. `Mesh::Create` and the vertex formats are not modelled either; each constant mesh is its vertex count and index table.
- Scene assembly, materials and the off-screen camera are not modelled. They are object-graph construction through singletons and shader paths.

## Findings

| source | as written | input that shows it | evidently intended | confidence | as-written member | corrected member |
|---|---|---|---|---|---|---|
| class/GlobalTextures.cpp:89-91 | the description is recorded at, and the pixels uploaded to, `currentEmptySlot` with no check against the 16 layers of the backing array | 17 insertions into a freshly initialised class: the 17th records and uploads slot 16 | never write past the array: once the cursor is past the last layer, record at the lowest freed layer, and refuse the insertion only when no layer is free | not executed | TextureSlots.SeventeenthInsertionOverflows | TextureSlots.TryInsert |
| vulkan/FrameManager.h:29-30 | the list overload copies the current frame's list into a local, appends the given buffers to the copy and drops it | any non-empty list: the stored list keeps its old contents | append the buffers to the stored list, as the single-buffer overload does | not executed | FrameTables.ListReservationDropsBuffers | FrameTables.FrameManager.AppendCommandBufferList |
