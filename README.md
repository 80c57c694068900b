# Solar System demo: bitmap loader, object registry and draw loop

A model of the non-graphics logic in `main.cpp` of a small OpenGL demo that draws a sun and an earth:

- `load_bmp`, a minimal Windows bitmap reader. It returns null when the file does not open. It checks a two-byte signature. It reads `bfSize`, `bfOffBits`, `biWidth`, `biHeight` and `biBitCount` little-endian through a file cursor. It then copies the pixel region `[bfOffBits, bfSize)` into a new buffer in a read loop. The texture upload picks BGR for 24-bit bitmaps and BGRA for every other depth.
- `add_obj`, which uploads the first shape of a loaded mesh into a vertex array object. Attribute slot 0 (positions) is always enabled. Slot 1 (texcoords) and the texture are set up only when texcoords exist, and slot 2 (normals) only when normals exist. It then appends the object and its index count to the two global vectors `objects` and `indicesCount`, and returns the new object's index. A loader error or a mesh with no shapes ends the process with exit code 1.
- `render`, which issues one indexed draw per registered object, in index order, using `indicesCount[i]` for object `i`.
- The start-up in `main`: the sun is added with the first program, then the earth with the second.

Modules:

- `Wrappers` holds `Option`.
- `Bmp` models the loader. `LoadBmp` is a method over the file's bytes with an explicit cursor and a copy loop over a fresh array. It is proved equal to `Decode`, which reads the fields at their fixed byte positions. An encoder `Encode` of the standard 54-byte header is proved to round-trip through `Decode`.
- `Scene` models the registry. `Registry` is a class holding the two vectors as sequences. `AddObj` and `Render` are its methods. `UploadMesh` records the vertex-array state that an upload leaves behind.

Decisions:

- The signature test is reproduced as written: `type[0]==0x42 || type[1]==0x4d` accepts a file whose first byte is `B` OR whose second byte is `M`, so "BX" and "XM" are accepted. `StrictSignature` gives the format's own rule, and `SignatureIsLax` relates the two. The source's `char` may be signed, but both constants are below 0x80, so a byte comparison is exact.
- When the bitmap loader returns null, the texture upload still happens. Its format, width and height then come from uninitialised variables, so the model records only `NullImage`.
- `indicesCount` is a `vector<int>` filled from a `size_t`, and `add_obj` returns `objects.size()-1` as an `int`. Both conversions are modelled explicitly by `Int32Of`, which wraps modulo 2^32.
- Handles that the driver generates (vertex array, texture) are parameters of `AddObj`. So are the `fopen` outcome and the file's bytes.

## Model

| member | source | states |
|---|---|---|
| `Bmp.U32At` | main.cpp:154 | a field read with `fread(&x, 4, 1, fp)` is the little-endian unsigned 32-bit value of the four bytes at the cursor, below 2^32 |
| `Bmp.U16At` | main.cpp:167 | the bit-count read is the little-endian unsigned 16-bit value of the two bytes at the cursor, below 2^16 |
| `Bmp.U32RoundTrip` | main.cpp:154-164 | writing a 32-bit value as four little-endian bytes and reading it back gives the value |
| `Bmp.U32BytesOfField` | main.cpp:154-164 | re-encoding a 32-bit field read from a file gives back exactly the four bytes it was read from |
| `Bmp.U16RoundTrip` | main.cpp:167 | writing a 16-bit value as two little-endian bytes and reading it back gives the value |
| `Bmp.U16BytesOfField` | main.cpp:167 | re-encoding the 16-bit field gives back exactly its two bytes |
| `Bmp.LoadBmp` | main.cpp:143-177 | null when the file did not open; otherwise null exactly when the inclusive-OR signature test fails; on acceptance the cursor reads land on bytes 2-5 (size), 10-13 (offset), 18-21 (width), 22-25 (height) and 28-29 (bits); the copy loop stops when the cursor reaches `size`; the buffer has length `size - offset` and equals the file bytes `[offset, size)` |
| `Bmp.SignatureIsLax` | main.cpp:153 | the "BM" signature is accepted; any other pair is accepted exactly when one of the two bytes matches, e.g. "BX" and "XM" |
| `Bmp.DecodeEncode` | main.cpp:152-173 | for a standard file (header "BM", size, offset 54, width, height, bit count, then the pixels) the loader returns exactly the width, height, bit count and pixels that were written |
| `Bmp.UploadFormat` | main.cpp:230 | the texture is uploaded as BGR exactly when the bit count is 24 and as BGRA for every other value |
| `Scene.Int32Of` | main.cpp:255-263 | the index count stored in `indicesCount`, and the index `add_obj` returns, are `size_t` values converted to a 32-bit `int`: in range, congruent modulo 2^32, and unchanged below 2^31 |
| `Scene.ImageOf` | main.cpp:226-235 | a textured mesh always gets a texture upload: null data when the bitmap loader returned null, otherwise the decoded bitmap in the format its bit count selects |
| `Scene.UploadMesh` | main.cpp:195-253 | slot 0 is always enabled; slot 1 is enabled and the bitmap is loaded and uploaded exactly when texcoords are non-empty; slot 2 is enabled exactly when normals are non-empty; no other slot is enabled; the element buffer's count is the number of indices |
| `Scene.Registry.constructor` | main.cpp:24-27 | the registry starts with both vectors empty |
| `Scene.Registry.AddObj` | main.cpp:180-264 | on a loader error or zero shapes: exit code 1 and both vectors unchanged; otherwise exactly one object and one index count are appended, the two vectors stay in lockstep, earlier entries are unchanged, the result is the index of the new last entry (`objects.size()-1` converted to `int`, so exactly that index while the registry has at most 2^31 entries), and that entry carries the given program and handles and the vertex-array state of shape 0 |
| `Scene.Registry.Render` | main.cpp:305-318 | one draw per object, in index order 0..n-1; draw `i` uses object `i`'s program, vertex array and texture and the count `indicesCount[i]`, which is the number of indices uploaded for that object |
| `Scene.SetupScene` | main.cpp:359-361 | the sun is added first and becomes object 0, the earth becomes object 1; a frame then draws the sun with the first program and then the earth with the second; the first failed load ends start-up with exit code 1 |

## Left out

- `Bmp.LoadBmp`: files shorter than 2 bytes, and accepted files shorter than 30 bytes or with `bfOffBits > bfSize` or `bfSize` past the end of the file, are excluded by `Readable`. On them the source reads uninitialised variables, wraps the `size - offset` allocation, or loops forever because `fread` keeps returning 0.
- `Bmp.LoadBmp`: `fread` is modelled as delivering every requested byte that remains in the file. A short read for another reason (an I/O error) is not modelled.
- `Bmp.U32At` and `Bmp.U16At`: the source reads each field with `fread` straight into an `unsigned int` or `unsigned short`, so the fields are 4- and 2-byte little-endian values only on a little-endian host where those types have 4 and 2 bytes. The model fixes that host layout.
- `setup_shader` (lines 40-131) is left out. It is a wrapper over the driver's compile and link calls.
- `readfile` (lines 133-140) is left out. It is file I/O.
- The .obj parser `tinyobj::LoadObj` is not part of this model. Its result is the input `ObjLoad`.
- The OpenGL calls are left out apart from what `VertexArray` records (enabled slots, element count, texture image). Left out in particular: buffer contents, VAO binding, texture filtering and mipmap generation, `glClear`, and the `model` uniform pushed in `render` (line 314). The vertex buffer handles are left out too.
- `releaseObjects`, `setUniformMat4` and `setUniformVec3` are left out. They are GL calls only.
- The `model` matrix field of `object_struct` is left out. It is a float matrix: the constructor of `object_struct` sets it to the identity (line 21), `main` sets it to the identity again (lines 372 and 377), and the animation step overwrites it every frame.
- The window and callbacks in `main` are left out, and so are the per-frame animation step (`float` sin/cos and matrix arithmetic) and the FPS counter (wall-clock time).
