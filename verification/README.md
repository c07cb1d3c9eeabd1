# libmoview_glfw viewer core in Dafny

This project models the deterministic core of the libmoview_glfw viewer. The viewer is an OpenGL player for libmovie (`ae_*`) compositions. The model covers five parts:

- **Mesh batching renderer** of `Composition` (`batching.dfy`, `frame.dfy`):
  - a bounded vertex/index batch (4096 vertices, 6144 indices);
  - the current binding: RGB texture, alpha texture and blend mode;
  - when a submitted mesh forces a flush, and what it writes into the batch (packed colour, UV choice, indices rebased and cut to 16 bits);
  - the per-frame dispatch `Draw` over the engine's render meshes, including the track-matte path that projects UVs through `CalcPointUV`.

  A flush is a pure step. It yields an abstract `DrawEvent` and empties the batch. The event records which passes run, the blend mode, the premultiplied flag, the two textures, and the index count and buffer contents.
- **Packed vertex colour** `FloatColorToUint` (`colorpacker.dfy`), and the **track-matte descriptor** lifecycle (`trackmatte.dfy`). The descriptors are a map keyed by node identity.
- **`simplemath.h`** (`simplemath.dfy`): the orthographic matrix and the affine UV projector, over exact reals.
- **Resource cache** (`stringhash.dfy`, `resources.dfy`):
  - the table from a name's 64-bit hash to a texture or an image;
  - the hash itself, which is not FNV-1a despite its name;
  - texture loading through an abstract decoder;
  - the image lookup, `Initialize`, `Shutdown` and the white texture.
- **`Movie` glue** (`movie.dfy`): base-folder extraction, the in-memory reader `my_io_read`, and the image branch of the resource provider.

Representation choices:

- Strings are byte sequences. The hash casts a plain `char` to `size_t`. `char` is signed on the x86/x64 targets, so bytes from 0x80 up sign-extend.
- Nullable pointers become `Option`.
- `glGenTextures` names are parameters of type `TextureName` (never 0).
- The `stb_image` decoder is a function parameter `Bytes -> Option<Decoded>`.
- The engine's mesh iteration is an input sequence of `FrameMesh` values.

## Model

| member | source | states |
|---|---|---|
| ColorPacker.ChannelToUint | src/composition.cpp:87-90 | the result is the floor of x*255.5 (q <= 255.5x < q+1) for a channel in [0,1]; it fits a byte and, divided by 255, is within 1/255 below and 1/510 above the channel |
| ColorPacker.PackColor | src/composition.cpp:92 | alpha in bits 24-31, blue 16-23, green 8-15, red 0-7: each byte channel extracts back exactly |
| ColorPacker.UnpackColor | src/composition.cpp:92 | every 32-bit colour is the packing of its four extracted bytes, each below 256 |
| ColorPacker.FloatColorToUint | src/composition.cpp:86-93 | each byte of the packed vertex colour reads back as the quantised channel (r, g, b, opacity) it came from |
| SimpleMath.MakeOrtho2DMat | src/simplemath.h:3-13 | x = left/right go to -1/+1, y = top/bottom to +1/-1, z = -zNear/-zFar to -1/+1; m[15] = 1 and every entry other than 0, 5, 10, 12, 13, 14, 15 is 0 |
| SimpleMath.AlphaIsS | src/simplemath.h:40-58 | the projector's coefficient `a` at A + s(B-A) + t(C-A) is s |
| SimpleMath.BetaIsT | src/simplemath.h:40-59 | the projector's coefficient `b` at the same point is t |
| SimpleMath.ProjectorIsAffine | src/simplemath.h:33-70 | for any s, t (inside the triangle or not) the UV at A + s(B-A) + t(C-A) is uvA + s(uvB-uvA) + t(uvC-uvA) |
| SimpleMath.AffineCoordinates | src/simplemath.h:40 | with a non-zero determinant every point has affine coordinates s = (P-A)x(C-A)/d, t = (B-A)x(P-A)/d |
| SimpleMath.CalcPointUV | src/simplemath.h:16-70 | built from `__minus_v2`, `__mul_v2_f` and `__dot_v3` as the source does, at every point the projector returns the reference affine map at that point's affine coordinates (s, t) = ((p-A)x(C-A)/d, (B-A)x(p-A)/d) |
| SimpleMath.ProjectorAtCorners | src/simplemath.h:33-70 | at A, B and C the projector returns exactly uvA, uvB and uvC |
| SimpleMath.ProjectorAtCoordinates | src/simplemath.h:33-70 | a point and a UV with the same affine coordinates are matched by the projector |
| SimpleMath.ProjectorExample | src/simplemath.h:33-70 | triangle (0,0),(10,0),(0,10) with UVs (0,0),(1,0),(0,1) sends (5,5) to (0.5,0.5) |
| TrackMatte.OnProvideTrackMatte | src/composition.cpp:786-795 | a descriptor for the node with the callback's matrix, first mesh and mode; no other node's descriptor changes |
| TrackMatte.OnUpdateTrackMatte | src/composition.cpp:797-815 | UPDATE_BEGIN/UPDATE_PROCESS replace matrix and mesh of an existing descriptor, the mode never changes, other states change nothing, the key set is kept |
| TrackMatte.OnDeleteTrackMatte | src/composition.cpp:817-822 | the node's descriptor is removed and every other one stays |
| TrackMatte.LastActing | src/composition.cpp:797-815 | the index of the last acting update: it acts, and every later update does not |
| TrackMatte.MatteLifecycle | src/composition.cpp:786-822 | after provide and any updates the mode is the provided one, matrix and mesh are those of the last acting update (or of the provide), and delete removes the descriptor |
| StringHash.CharToSize | src/movie_resmgr.cpp:18 | the `size_t` of a signed `char` keeps its low byte; ASCII bytes keep their value; a byte b from 0x80 up is the signed value b - 256 taken modulo 2^64, i.e. sign-extended |
| StringHash.HashOfShortStrings | src/movie_resmgr.cpp:12-23 | the empty string hashes to 0, a one-byte string to that byte's `size_t` value |
| StringHash.RunFollowsSchedule | src/movie_resmgr.cpp:16-21 | `mult` and `c` after n steps depend on n only (start 1 and 816753) |
| StringHash.RunAppend | src/movie_resmgr.cpp:17-21 | one loop iteration (`Step`) after the bytes of s adds the next byte's value times the multiplier of its position to `result`, modulo 2^64 |
| StringHash.HashAppend | src/movie_resmgr.cpp:17-21 | appending a byte adds its value times the multiplier of its position, modulo 2^64 |
| StringHash.Hash | src/movie_resmgr.cpp:12-23 | the hash is the sum of each byte's value times the weight of its position, reduced modulo 2^64 |
| StringHash.ComputeHash | src/movie_resmgr.cpp:12-23 | the loop as written returns the recursive hash and the reduced weighted sum |
| ResourceManager.FormatForComponents | src/movie_resmgr.cpp:108-129 | the format chosen for 1..4 components has code components - 1 (R8 = 0 .. R8G8B8A8 = 3) |
| ResourceManager.Resource.Tag | src/movie_resmgr.h:9-21 | a texture entry is tagged 1000 and an image 3, so the texture tag is above every content tag and never passes the image test, nor the reverse |
| ResourceManager.Insert | src/movie_resmgr.cpp:91 | `insert` adds a free key and never replaces the entry of a present key |
| ResourceManager.Initialize | src/movie_resmgr.cpp:34-49 | the white texture exists afterwards; an existing one is kept unchanged; the table is untouched |
| ResourceManager.InitializeIdempotent | src/movie_resmgr.cpp:34-49 | initializing twice is initializing once |
| ResourceManager.WhiteTextureLifecycle | src/movie_resmgr.cpp:34-72 | `GetWhiteTexture` is 0 for a new manager, the generated name after `Initialize`, kept by a second `Initialize`, released by `Shutdown` and 0 afterwards |
| ResourceManager.Shutdown | src/movie_resmgr.cpp:51-68 | exactly the white texture and every cached texture are deleted; afterwards there is no white texture and the table is empty |
| ResourceManager.LoadTextureRes | src/movie_resmgr.cpp:96-149 | a failed decode returns no texture and leaves the cache; a decoded one gets the decoded size, the format of its component count and the new GL name, and is inserted under the file name's hash unless taken |
| ResourceManager.GetTextureRes | src/movie_resmgr.cpp:74-82 | a cached texture is returned without decoding and the cache is unchanged; a miss or an image entry delegates to the loader; existing entries are never altered |
| ResourceManager.GetImageRes | src/movie_resmgr.cpp:84-94 | a cached image is returned as is; a free key gets a new image (no texture, premultiplied) inserted; a texture under the key yields a new image that is not cached |
| ResourceManager.GetTextureResCaches | src/movie_resmgr.cpp:74-82 | once loaded under a free key, a file name's texture is what every later lookup returns, whatever the decoder would now say |
| ResourceManager.HashCollisionIsAHit | src/movie_resmgr.cpp:75-78 | a different file name with the same hash gets the first file's texture |
| ResourceManager.GetImageResStable | src/movie_resmgr.cpp:84-94 | a second image lookup returns the same image and changes nothing |
| Batching.FlushDraw | src/composition.cpp:666-715 | events only when indices are pending; filled pass iff mode is not wireframe, wire pass iff mode is not solid, premultiplied flag iff PremultAlpha; the draw holds the whole batch; counts reset, binding kept |
| Batching.BeginDraw | src/composition.cpp:585-591 | the buffers are mapped; counts, contents, binding and draw mode are left as they are |
| Batching.EndDraw | src/composition.cpp:593-598 | the pending batch is drawn exactly as `FlushDraw` draws it (nothing for an index-free batch); afterwards the batch is empty, the buffers unmapped, binding and draw mode kept |
| Batching.BindingFor | src/composition.cpp:604-621 | each texture is the image's only when the image and its texture exist, else white; Add iff the mesh is additive, PremultAlpha iff not additive and the RGB image is premultiplied, Alpha otherwise |
| Batching.MeshVertices | src/composition.cpp:638-654 | positions copied; uv0 the alternative UV when given and the mesh UV otherwise; uv1 the mesh UV; the packed colour |
| Batching.RebaseIndices | src/composition.cpp:656-658 | each index is (mesh index + vertex base) cut to 16 bits, and unchanged by the cut when it fits |
| Batching.Stage | src/composition.cpp:600-661 | a flush first exactly when capacity (4096/6144) would be exceeded or the binding differs; then the mesh's vertices and rebased indices follow the kept batch, the binding is the mesh's, the batch stays within capacity |
| Batching.DrawMesh | src/composition.cpp:600-664 | the batch is empty after every submit and the binding is the mesh's; on an empty batch exactly one draw of that mesh when it has indices, none otherwise |
| Batching.NewImageBinding | src/movie_resmgr.h:48-53 | a freshly constructed image (no texture, premultiplied) binds the white texture as RGB and, unless the mesh is additive, premultiplied blending |
| Batching.SingleMeshBatch | src/composition.cpp:623-663 | staging on an empty batch flushes nothing and leaves exactly the mesh with unshifted indices |
| Batching.BindingChangeFlushes | src/composition.cpp:623-633 | a second mesh with another binding flushes once, and that draw covers the first mesh only |
| Batching.CapacityFlushes | src/composition.cpp:600-629 | with 4094 vertices batched, a three-vertex mesh flushes the batch first and then holds only its own vertices |
| Batching.IndexRebasing | src/composition.cpp:656-661 | two meshes with one binding share a batch; the second's indices shift by the first's vertex count and stay within the combined vertex range |
| Frame.MatteUVs | src/composition.cpp:240-252 | one projected UV per matte vertex: the UV with the affine coordinates the vertex has in the base mesh's first triangle; a vertex on one of those corners gets the corner's UV |
| Frame.SubmissionOf | src/composition.cpp:217-262 | a mesh is drawn iff the dispatch conditions hold; plain meshes draw themselves with no alpha image and no alternative UVs, with the resource as RGB for sequences and images and no RGB image for shapes and solids; matted ones draw the matte mesh with the element as RGB, the resource as alpha and `MatteUVs` of base and matte as alternative UVs |
| Frame.DrawAll | src/composition.cpp:215-264 | over the frame's meshes, starting empty, the batch ends empty and the draws are the reference draws of the submissions in order |
| Frame.Submissions | src/composition.cpp:215-264 | every submission of a frame fits the batch and has UVs for each vertex |
| Frame.Draw | src/composition.cpp:205-269 | afterwards the batch is empty, the buffers unmapped and the mode the requested one; from an empty batch the draws are exactly one per submitted mesh with indices, in order |
| Frame.FirstFrame | src/composition.cpp:102-120 | the constructed renderer has an empty batch, so its first frame issues exactly the reference draws, and a frame with no submission keeps the initial (0, 0, Alpha) binding |
| Frame.EventsFollowMode | src/composition.cpp:666-670 | every draw of a frame has a non-zero index count and runs the passes its mode asks for |
| Frame.SolidQuadFrame | src/composition.cpp:219-224 | one untextured solid quad draws once, with the white texture twice, Alpha blending, four vertices and six indices |
| Movie.FindLastOf | src/movie.cpp:100-103 | no position iff the byte is absent; otherwise a position holding it, with none after it |
| Movie.BaseFolder | src/movie.cpp:97-107 | a prefix of the file name; empty without delimiters; up to the last backslash when there is one (a later slash is ignored), else up to the last slash |
| Movie.BackslashWins | src/movie.cpp:100-106 | a slash after the last backslash does not count |
| Movie.BaseFolderIdempotent | src/movie.cpp:100-106 | the base folder of a base folder is itself |
| Movie.IoRead | src/movie.cpp:48-59 | reads min(size, bytes left) bytes, exactly those after the cursor, and advances the cursor by the count, never past the end; a null reader or one at the end reads nothing |
| Movie.ReadsConcatenate | src/movie.cpp:48-59 | reading n then m bytes is reading n + m at once |
| Movie.ShortReadMeansEnd | src/movie.cpp:51-55 | a read that returns less than asked leaves the cursor at the end |
| Movie.ProvideImageResource | src/movie.cpp:221-243 | a plain image is exactly what `GetTextureRes` of base folder + path returns, cache included (the cached texture if present, none if decoding fails); an atlas image is exactly what `ProvideAtlasImage` returns: the named image with the atlas texture, stored back when it is the cached one, the table holding exactly the keys of the two lookups; entries other than the name's are never replaced |
| Movie.ProvideAtlasImage | src/movie.cpp:234-241 | the named image gets the atlas texture and keeps its premultiplied flag; the table has exactly the keys of the two lookups (so the atlas texture is cached) and every entry but the name's is the lookups' one; the name's entry holds the image unless it holds a texture |
| Movie.AtlasImageBindsTexture | src/movie.cpp:234-241 | after providing, the image lookup returns the image with the atlas texture, and that texture is cached under the atlas path |
| Movie.AtlasProvidedTwice | src/movie.cpp:234-241 | providing the same atlas image again changes nothing and returns the same image, without decoding |

## Left out

- OpenGL itself is abstracted into `DrawEvent` values and `mapped` flags. This covers buffer creation and mapping, shaders, texture uploads, VAO setup and `glDrawElements`.
- The libmovie engine (`ae_*`) is left out: playback, sub-compositions, provider registration and the `ae_compute_movie_mesh` iterator. The meshes of a frame are an input sequence.
- `Draw` with no composition loaded does nothing; the model assumes a composition is present.
- The `stb_image` decoder is a parameter. Texture pixels, filtering and wrapping are not modelled.
- Floating point is left out. `CalcPointUV`, `MakeOrtho2DMat` and the `floorf(x * 255.5f)` of the colour packing are over exact reals, so IEEE rounding is not modelled.
- ColorPacker.PackColor: takes byte channels, which is all `FloatColorToUint` passes, and packs them as a sum. Overlapping channels of 256 or more are not modelled.
- SimpleMath.CalcPointUV: requires a non-zero determinant. The source divides without a guard.
- SimpleMath.MakeOrtho2DMat: requires non-zero extents. The source divides without a guard.
- Batching.Stage and Batching.DrawMesh: require the mesh to fit the buffers (at most 4096 vertices and 6144 indices). The source writes past the buffers otherwise.
- Frame.Draw: requires at most 512 vertices in a matte mesh. The static 1024-float UV scratch buffer would overflow beyond that.
- Frame.Draw: requires the base mesh of a matted layer to have three vertices with a non-zero determinant.
- Frame.Draw: takes the layer's resource as an `Image` view. For an image outside an atlas, the provider stores a `ResourceTexture*` as the resource data. `Draw` reads that pointer as a `ResourceImage*`, which is a type confusion whose result depends on memory layout. The model cannot express it.
- `BeginDraw` only maps the buffers; it does not reset the counts or the binding (src/composition.cpp:585-591). The counts are still zero at every `BeginDraw` because every submit and `EndDraw` ends with a flush.
- Movie.ProvideImageResource: the returned image is a copy of the cached one. In the source the resource data aliases the cached `ResourceImage`, so a later atlas provide under the same name (or a name with the same hash, even from another movie, as the manager is a process-wide singleton) re-targets the texture that earlier layers draw with; the model's earlier handles keep the texture they were given.
- The track-matte descriptors live in a map keyed by node identity. The heap allocation and `delete` become map insert and remove.
- `Shutdown`'s deletion of the table's objects is left out. Only the GL texture names it releases are modelled.
- `LoadFromFile`'s file reading, `LoadFromMemory`, `my_memory_copy`, the logging and the non-image resource kinds of `OnProvideResource` are left out. `my_resource_provider` is an unused callback with an empty body and no return statement, so it is left out too.
- `viewer_glfw.cpp` (window, input, UI, main loop) and `utils.h` (file opening, log macros) are not part of this model.
