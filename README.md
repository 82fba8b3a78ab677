# CloudScapes `Model` — a verified model of the drawable-asset lifecycle

`Model` (in `src/CloudScapes/Model.cpp`) is the renderer's drawable asset. It
holds mesh geometry on the host (a vertex array and an index array), the
device buffers uploaded from that geometry, a uniform buffer holding the model
transform, and a diffuse texture with its image view and sampler. The device
is borrowed. Every other handle the Model holds, it created itself.

This project models two parts of that file:

- **Mesh flattening** (`Model::LoadModel`). The OBJ parser's output (flat
  position and texture-coordinate arrays, plus shapes made of face-corner
  records) becomes one vertex and one index per corner. The position gets
  `w = 1`, the colour is white, the texture coordinate's vertical component
  is flipped to `1 - v`, and each index is the index array's size at the
  moment of the append, cast to 32 bits. The loop is a `while` loop over the
  shapes with an inner loop over one shape's corners. Both are proved
  against the specification functions `FlattenVertices`, `Records` and
  `Sequential`.
- **Resource ownership** (both constructors, `SetTexture` and `~Model`). The
  device is a ledger class (`DeviceLedger.Device`):
  - a map of the live handles and their kinds;
  - a counter of minted handles;
  - the ordered log of released handles.

  The `Model` class keeps the C++ members as fields. The constructors fill
  the handle fields step by step and the destructor (`Teardown`) releases
  them. The facts proved:
  - construction creates a vertex buffer exactly when there are vertices and
    an index buffer exactly when there are indices;
  - the uniform buffer, holding the identity, is always created;
  - the file path always creates all four texture objects, and the array
    path none;
  - teardown releases, with the same emptiness and null tests, only live
    handles, each exactly once, and exactly the created handles other than
    the texture image and its memory. Those two stay live in the ledger
    after a file-built Model is destroyed.

The size accessors are the element count times the stride, truncated to
`uint32_t`.

Two points of the source that the model keeps as they are:

- There is no no-texture branch on the file path: the file constructor
  always calls `SetTexture` (`Model.cpp:42`), so the model always creates
  the image, its memory, the view and the sampler there.
- `~Model` (`Model.cpp:45-69`) never destroys `texture` and never frees
  `textureMemory`, so the model shows those two left live after a file-built
  Model is destroyed (`FileModelLifecycle`).

Files:

- `ledger.dfy` (module `DeviceLedger`): handles, kinds, and the ledger class.
- `geometry.dfy` (module `ObjGeometry`): the vertex layout, the parser's
  records, the flattening functions and their lemmas, and the byte size.
- `ownership.dfy` (module `Ownership`): a value snapshot (`Slots`) of the
  ten handle fields. It holds the ownership invariant, the destructor's
  release plan (`TeardownReleases`), and the lemmas relating creation to
  teardown.
- `model.dfy` (module `CloudScapes`): the `Model` class with its
  constructors, loops, upload and texture steps, destructor and accessors,
  and two whole-lifecycle methods.

## Model

| member | source | states |
|---|---|---|
| DeviceLedger.Device.Create | src/CloudScapes/Model.cpp:10-11 | creating an object mints a non-null handle never seen before, adds it with its kind, and keeps the ledger's invariant |
| DeviceLedger.Device.Release | src/CloudScapes/Model.cpp:49-50 | releasing needs a live handle of the expected kind; it leaves the live map and is appended to the release log, which never holds a handle twice |
| CloudScapes.Identity | src/CloudScapes/Model.cpp:19 | the stored transform is the 4x4 identity: ones on the diagonal, zeros elsewhere |
| CloudScapes.CreateBufferFromData | src/CloudScapes/Model.cpp:10-11 | an upload adds exactly a fresh buffer and a fresh memory object, distinct from each other, and releases nothing |
| CloudScapes.LoadTexture | src/CloudScapes/Model.cpp:75-78 | loading a texture adds exactly a fresh image and a fresh memory object |
| CloudScapes.ReleaseBufferIf | src/CloudScapes/Model.cpp:47-51 | when the guard holds, the buffer and then its memory are released, in that order; otherwise nothing happens |
| CloudScapes.ReleaseUnlessNull | src/CloudScapes/Model.cpp:62-64 | a non-null handle is released; a null one is not |
| CloudScapes.Model.FromArrays | src/CloudScapes/Model.cpp:6-22 | the array constructor stores the device and the arrays; it creates a vertex buffer iff there are vertices, an index buffer iff there are indices, and always a uniform buffer holding the identity; it creates no texture objects and releases nothing, and the ledger grows by exactly the new handles |
| CloudScapes.Model.Unloaded | src/CloudScapes/Model.cpp:24-25 | before the file constructor's body runs, the arrays are empty, every handle is null, and no device is stored |
| CloudScapes.Model.FromFiles | src/CloudScapes/Model.cpp:24-43 | file constructor (with the device stored): a parse failure ends construction with the parser's text, leaving the ledger untouched; otherwise the Model is valid, its arrays are the flattening of all records with sequential indices, all four texture objects exist, and the ledger grows by exactly the Model's handles |
| CloudScapes.Model.FromFilesAsWritten | src/CloudScapes/Model.cpp:24-43 | file constructor exactly as written: the same parse-failure behaviour (the parser's text, ledger untouched); otherwise the built Model has the flattened arrays with sequential indices, all four texture objects, and a ledger grown by exactly its handles, and it holds its invariant against the device, but its own device member stays null, so it is not a valid Model |
| CloudScapes.Model.LoadFiles | src/CloudScapes/Model.cpp:26-42 | the shared body of the file constructor: parse and flatten, upload, then load the texture; a parse failure stops before anything is created |
| CloudScapes.Model.LoadModel | src/CloudScapes/Model.cpp:85-125 | a parse failure reports the parser's text and leaves both arrays unchanged; otherwise the vertices gain the flattening of every record, shape after shape, and the indices gain one sequential 32-bit index per record |
| CloudScapes.Model.AppendShape | src/CloudScapes/Model.cpp:104-123 | one shape's corners append their vertices, in order, and sequential indices continuing from the array's size |
| CloudScapes.Model.UploadGeometry | src/CloudScapes/Model.cpp:9-21 | the upload steps leave the Model valid: conditional vertex and index buffers, the identity uniform buffer, and a ledger grown by exactly those handles |
| CloudScapes.Model.UploadVertices | src/CloudScapes/Model.cpp:9-12 | a fresh vertex buffer and memory are created exactly when there are vertices; otherwise both stay null and the ledger is unchanged |
| CloudScapes.Model.UploadIndices | src/CloudScapes/Model.cpp:14-17 | a fresh index buffer and memory are created exactly when there are indices; otherwise both stay null |
| CloudScapes.Model.UploadTransform | src/CloudScapes/Model.cpp:19-21 | the transform is set to the identity and a fresh uniform buffer and memory are always created |
| CloudScapes.Model.SetTexture | src/CloudScapes/Model.cpp:71-84 | the image, its memory, the view and the sampler come into existence together: all four are fresh, non-null and pairwise distinct, and the ledger gains exactly them with their kinds |
| CloudScapes.Model.StoreTexture | src/CloudScapes/Model.cpp:42 | writing SetTexture's four handles into the empty texture members keeps the Model valid and fills all four |
| CloudScapes.Model.Teardown | src/CloudScapes/Model.cpp:45-69 | the destructor appends exactly the release plan to the ledger's log and removes exactly its handles from the live map; the plan is: index pair if there are indices, vertex pair if there are vertices, the uniform pair, then the view and the sampler when non-null |
| CloudScapes.Model.VertexBufferSize | src/CloudScapes/Model.cpp:154-157 | the vertex byte size is count times stride when it fits in 32 bits, and congruent to it modulo 2^32 otherwise |
| CloudScapes.Model.IndexBufferSize | src/CloudScapes/Model.cpp:158-161 | the same for the index array, with a 4-byte stride |
| CloudScapes.AccessorsReflectInvariant | src/CloudScapes/Model.cpp:127-179 | on a valid Model, the vertex (index) buffer getter returns a live buffer iff the vertex (index) array is non-empty; the uniform buffer is live and holds the identity; the view and sampler getters return null together or a live view and a live sampler |
| CloudScapes.ArrayModelLifecycle | src/CloudScapes/Model.cpp:6-69 | building from arrays and then destroying leaves the live map exactly as before and releases 2, 4 or 6 handles according to which arrays are non-empty |
| CloudScapes.FileModelLifecycle | src/CloudScapes/Model.cpp:24-69 | building from files (through the corrected FromFiles, since the Model built as written has no device to tear down through) and then destroying: a parse failure returns the parser's text and changes neither the live map nor the release log; otherwise exactly two new handles stay live, an image and its memory |
| ObjGeometry.FlattenVerticesAt | src/CloudScapes/Model.cpp:106-121 | vertex k of the flattening is the vertex made from record k |
| ObjGeometry.CornerVertex | src/CloudScapes/Model.cpp:106-121 | vertex k has position (P[3vi], P[3vi+1], P[3vi+2], 1), colour white, and texture coordinate (T[2ti], 1 - T[2ti+1]) |
| ObjGeometry.RecordsPrefix | src/CloudScapes/Model.cpp:102-104 | the records of the first t shapes are a prefix of all the records |
| ObjGeometry.RecordPosition | src/CloudScapes/Model.cpp:102-104 | the records before shape s, followed by shape s's corners in file order, are a prefix of all the records: nothing is dropped or reordered |
| ObjGeometry.RecordsInBounds | src/CloudScapes/Model.cpp:108-119 | if every record is in bounds, so are those of each prefix and of each single shape |
| ObjGeometry.FlattenAppend | src/CloudScapes/Model.cpp:102-124 | the flattening distributes over concatenation of record sequences |
| ObjGeometry.FlattenStep | src/CloudScapes/Model.cpp:102-124 | one more shape's flattening, appended to the flattening so far, is the flattening of both |
| ObjGeometry.SequentialAt | src/CloudScapes/Model.cpp:122 | entry i of the appended indices is (size before + i) mod 2^32 |
| ObjGeometry.SequentialAppend | src/CloudScapes/Model.cpp:122 | appending m sequential indices and then n more equals appending m + n |
| ObjGeometry.SequentialStep | src/CloudScapes/Model.cpp:122 | one more shape's indices continue the sequence from the index array's size |
| ObjGeometry.SequentialFromZero | src/CloudScapes/Model.cpp:122 | starting from an empty index array, index i is i while at most 2^32 corners are loaded |
| ObjGeometry.SequentialInRange | src/CloudScapes/Model.cpp:122 | every index names an existing vertex, wrap-around or not |
| ObjGeometry.SequentialDistinct | src/CloudScapes/Model.cpp:122 | no two indices are equal (there is no de-duplication) while at most 2^32 are appended |
| ObjGeometry.SequentialWraps | src/CloudScapes/Model.cpp:122 | beyond 2^32 corners, the 32-bit cast makes corner 2^32 repeat corner 0's index |
| ObjGeometry.ByteSize | src/CloudScapes/Model.cpp:154-161 | a byte size cast to 32 bits is exact when it fits and congruent modulo 2^32 otherwise |
| Ownership.AddTexture | src/CloudScapes/Model.cpp:42 | filling the empty texture slots with four fresh, distinct handles of the right kinds keeps the ownership invariant and the "ledger grew by exactly the slots" relation |
| Ownership.UploadRegisters | src/CloudScapes/Model.cpp:9-21 | the three guarded upload steps together give a snapshot that is shaped, registered and distinct, and a ledger grown by exactly its handles |
| Ownership.TeardownSteps | src/CloudScapes/Model.cpp:45-69 | each handle the destructor releases is still live, of the expected kind, when its turn comes, and after the last release exactly the plan's handles are gone |
| Ownership.TeardownMirrorsCreation | src/CloudScapes/Model.cpp:45-69 | every released handle is live, none is released twice, and the released handles are exactly the created ones minus the texture image and its memory |
| Ownership.TeardownReleasesOnce | src/CloudScapes/Model.cpp:47-68 | the release plan holds no handle twice |
| Ownership.KindsApart | src/CloudScapes/Model.cpp:47-68 | registered handles of different kinds are never equal (every cross-kind pair of slots, including the texture image and its memory) |
| Ownership.CreateThenTeardown | src/CloudScapes/Model.cpp:45-69 | creating a Model's handles and then applying its teardown gives back the original ledger, except that a created texture image and its memory remain |
| Ownership.TeardownCount | src/CloudScapes/Model.cpp:45-69 | teardown releases as many handles as were created, minus the texture image and its memory |

## Left out

- External calls are modelled only by their effect on the ledger: `BufferUtils::CreateBufferFromData`, `Image::loadTexture`, `Image::createImageView`, `Image::createSampler`, `vkDestroy*` and `vkFreeMemory`. Byte contents, staging buffers, formats, tiling and usage flags are not modelled.
- The command pool and the mesh and texture path strings are not modelled; they only flow into foreign calls.
- `tinyobj::LoadObj` is an input (`ParseResult`). Its grammar, triangulation, normals and materials are not modelled.
- Failures of the device calls and of texture decoding are not modelled: every creation succeeds. Only the parse failure is an error path. Because that failure happens before anything is created, the C++ rule that the destructor does not run after a throwing constructor has nothing to clean up.
- Floats are `real`, so single-precision rounding in `1.0f - v` is not modelled. `glm::mat4(1.0f)` is a 4x4 `real` identity.
- The header `model.h` is not part of this model. Two things are assumed about it:
  - `sizeof(Vertex)` is the constant 36 (nine floats); only its positivity matters;
  - it initialises every handle member to null, and the arrays start empty. The file constructor relies on this (`Model.Unloaded`). So does the array constructor (`Model.FromArrays`), whose texture handles stay null because no code in `Model.cpp` assigns them.
- LoadModel: each face-corner record must be in bounds (`InBounds`). This requires `0 <= texcoordIndex` and `2 * texcoordIndex + 1 < |texcoords|`, and the same for the position. The source checks neither (`Model.cpp:108-119`). For a face without texture coordinates (`f 1 2 3`), the OBJ parser reports `texcoord_index = -1`. The source then reads `attrib.texcoords[-2]` and `attrib.texcoords[-1]`, which is out of bounds, so its behaviour is undefined. The model does not cover such meshes, and this source defect is recorded here.
- Copying or moving a `Model` is not modelled.
- Running out of vertex or index memory, and 64-bit `size_t` overflow, are not modelled. Sizes are unbounded before the explicit 32-bit cast.
- CloudScapes.Model.Teardown: requires a valid Model, so it cannot be applied to the model of the file constructor exactly as written (its device member is null). In C++ that destructor would dereference an unset pointer.
- The getters `GetVertices`, `GetIndices`, `GetVertexBuffer`, `GetIndexBuffer`, `GetModelBufferObject`, `GetModelBuffer`, `GetTextureView` and `GetTextureSampler` are plain read-only functions of the fields. What they return on a valid Model is stated once, in `AccessorsReflectInvariant`.
- The model splits some steps out as helper methods; each covers a contiguous part of the source:
  - `AppendShape`: the inner loop of `LoadModel`;
  - `UploadVertices`, `UploadIndices` and `UploadTransform`: the three upload steps;
  - `LoadFiles` and `StoreTexture`: the file constructor's body and its `SetTexture` call;
  - `ReleaseBufferIf` and `ReleaseUnlessNull`: the destructor's guarded releases.

## Findings

| source | as written | input that shows it | evidently intended | confidence | as-written member | corrected member |
|---|---|---|---|---|---|---|
| src/CloudScapes/Model.cpp:24-25 | the file constructor has no initialiser list, and its `device` parameter shadows the member, so `this->device` is never assigned; `~Model` later releases through `device->GetVkDevice()` | any successful file-path construction: the built Model holds live buffers and texture objects but a null device member, so it is not a valid Model and cannot be torn down | store the device, as the array constructor does at line 7 | not executed | CloudScapes.Model.FromFilesAsWritten | CloudScapes.Model.FromFiles |
