/**
 * The object registry of main.cpp: `add_obj` uploads the first shape of a
 * loaded mesh into a vertex array object and appends the resulting object and
 * its index count to two global vectors kept in lockstep; `render` walks the
 * registry in index order and issues one indexed draw per object.
 *
 * The GPU is abstracted to what each upload leaves behind: which vertex
 * attribute slots the vertex array enables, how many indices its element
 * buffer holds, and which image (if any) went into its texture. Handles the
 * driver generates are parameters.
 */
module Scene {
  import opened Wrappers
  import opened Bmp

  const INT32_MIN: int := -0x8000_0000
  const INT32_LIMIT: int := 0x8000_0000

  /** The first shape of a parsed .obj file: its attribute arrays and its index array. */
  datatype Mesh = Mesh(positions: seq<real>, texcoords: seq<real>, normals: seq<real>, indices: seq<nat>)

  /** What the .obj loader reports: an error text (empty on success) and the shapes it found. */
  datatype ObjLoad = ObjLoad(err: string, shapes: seq<Mesh>)

  /** add_obj gives up (and the process exits) on a loader error or when no shape was found. */
  predicate LoadFailed(load: ObjLoad)
  {
    load.err != [] || |load.shapes| == 0
  }

  /** What the texture object was given. */
  datatype TextureImage =
    | NoImage                                  // the mesh has no texcoords: nothing uploaded
    | NullImage                                // the bitmap loader returned null
    | Image(format: Format, bitmap: Bitmap)    // a decoded bitmap, in the format chosen from its bit depth

  /** The recorded state of one vertex array object after the upload. */
  datatype VertexArray = VertexArray(enabled: set<nat>, elementCount: nat, image: TextureImage)

  /** One entry of `objects`: the program it is drawn with and its GPU handles. */
  datatype RenderObject = RenderObject(program: nat, vao: nat, texture: nat, layout: VertexArray)

  /** One `glDrawElements` call with the program, vertex array and texture bound for it. */
  datatype Draw = Draw(program: nat, vao: nat, texture: nat, count: int)

  /** The conversion of a `size_t` count to the `int` stored in `indicesCount` (modulo 2^32). */
  function Int32Of(n: nat): (r: int)
    ensures INT32_MIN <= r < INT32_LIMIT
    ensures (r - n) % 0x1_0000_0000 == 0
    ensures n < INT32_LIMIT ==> r == n
  {
    var m := n % 0x1_0000_0000;
    if m < INT32_LIMIT then m else m - 0x1_0000_0000
  }

  /** The texture upload done for a mesh with texcoords, given the bitmap loader's result. */
  function ImageOf(bmp: Option<Bitmap>): (img: TextureImage)
    ensures img != NoImage
    ensures img == NullImage <==> bmp == None
    ensures bmp.Some? ==> img.bitmap == bmp.value && (img.format == Bgr <==> bmp.value.bits == 24)
  {
    match bmp
    case None => NullImage
    case Some(b) => Image(UploadFormat(b.bits), b)
  }

  /**
   * The vertex array a mesh yields: slot 0 always, slot 1 and the texture
   * exactly when there are texcoords, slot 2 exactly when there are normals,
   * and an element buffer whose count is the number of indices.
   */
  ghost predicate Follows(va: VertexArray, mesh: Mesh, bmpOpen: bool, bmpFile: seq<byte>)
    requires |mesh.texcoords| > 0 && bmpOpen ==> Readable(bmpFile)
  {
    && va.enabled <= {0, 1, 2}
    && 0 in va.enabled
    && (1 in va.enabled <==> |mesh.texcoords| > 0)
    && (2 in va.enabled <==> |mesh.normals| > 0)
    && va.elementCount == |mesh.indices|
    && va.image == (if |mesh.texcoords| > 0 then ImageOf(Decode(bmpOpen, bmpFile)) else NoImage)
  }

  /**
   * The GL part of add_obj: record the vertex array, enabling each attribute
   * slot whose array is present and loading the bitmap only for textured meshes.
   */
  method UploadMesh(mesh: Mesh, bmpOpen: bool, bmpFile: seq<byte>) returns (va: VertexArray)
    requires |mesh.texcoords| > 0 && bmpOpen ==> Readable(bmpFile)
    ensures Follows(va, mesh, bmpOpen, bmpFile)
    ensures 1 in va.enabled <==> va.image != NoImage
  {
    var enabled: set<nat> := {0};
    var image := NoImage;
    if |mesh.texcoords| > 0 {
      enabled := enabled + {1};
      var bgr := LoadBmp(bmpOpen, bmpFile);
      image := ImageOf(bgr);
    }
    if |mesh.normals| > 0 {
      enabled := enabled + {2};
    }
    va := VertexArray(enabled, |mesh.indices|, image);
  }

  /** The result of add_obj: the index of the new object, or the exit the process takes. */
  datatype AddOutcome = Added(index: int) | Exit(code: int)

  /** The bitmap is read only for a loaded mesh with texcoords, and then it must be one the loader is defined on. */
  predicate TextureReadable(load: ObjLoad, bmpOpen: bool, bmpFile: seq<byte>)
  {
    !LoadFailed(load) && |load.shapes[0].texcoords| > 0 && bmpOpen ==> Readable(bmpFile)
  }

  /** The two global vectors `objects` and `indicesCount`. */
  class Registry {
    var objects: seq<RenderObject>
    var indicesCount: seq<int>

    /**
     * The vectors grow in lockstep, and each stored index count is the number
     * of indices uploaded into that object's element buffer.
     */
    ghost predicate Valid()
      reads this
    {
      && |objects| == |indicesCount|
      && forall i :: 0 <= i < |objects| ==> indicesCount[i] == Int32Of(objects[i].layout.elementCount)
    }

    constructor ()
      ensures Valid()
      ensures objects == [] && indicesCount == []
    {
      objects := [];
      indicesCount := [];
    }

    /**
     * add_obj: on a loader failure the process exits with code 1 and nothing is
     * appended; otherwise exactly one object and one index count are appended
     * and the index of the new (last) object is returned, converted from
     * `size_t` to `int` like the stored index counts.
     */
    method AddObj(program: nat, load: ObjLoad, vao: nat, texture: nat, bmpOpen: bool, bmpFile: seq<byte>)
      returns (outcome: AddOutcome)
      requires Valid()
      requires TextureReadable(load, bmpOpen, bmpFile)
      modifies this
      ensures Valid()
      ensures LoadFailed(load) ==>
                outcome == Exit(1) && objects == old(objects) && indicesCount == old(indicesCount)
      ensures !LoadFailed(load) ==>
                && |objects| == |old(objects)| + 1
                && outcome == Added(Int32Of(|objects| - 1))
                && (|objects| <= INT32_LIMIT ==> outcome.index == |objects| - 1)
                && objects[..|old(objects)|] == old(objects)
                && indicesCount == old(indicesCount) + [Int32Of(|load.shapes[0].indices|)]
                && objects[|objects| - 1].program == program
                && objects[|objects| - 1].vao == vao
                && objects[|objects| - 1].texture == texture
                && Follows(objects[|objects| - 1].layout, load.shapes[0], bmpOpen, bmpFile)
    {
      if LoadFailed(load) {
        return Exit(1);
      }
      var mesh := load.shapes[0];
      var va := UploadMesh(mesh, bmpOpen, bmpFile);
      indicesCount := indicesCount + [Int32Of(|mesh.indices|)];
      var node := RenderObject(program, vao, texture, va);
      objects := objects + [node];
      outcome := Added(Int32Of(|objects| - 1));
    }

    /**
     * render: one draw per object, in index order, each with the object's own
     * program, vertex array and texture and the index count stored for it.
     */
    method Render() returns (draws: seq<Draw>)
      requires Valid()
      ensures |draws| == |objects|
      ensures forall i :: 0 <= i < |objects| ==>
                draws[i] == Draw(objects[i].program, objects[i].vao, objects[i].texture, indicesCount[i])
      ensures forall i :: 0 <= i < |objects| ==> draws[i].count == Int32Of(objects[i].layout.elementCount)
    {
      draws := [];
      var i := 0;
      while i < |objects|
        invariant 0 <= i <= |objects|
        invariant |draws| == i
        invariant forall k :: 0 <= k < i ==>
                    draws[k] == Draw(objects[k].program, objects[k].vao, objects[k].texture, indicesCount[k])
      {
        draws := draws + [Draw(objects[i].program, objects[i].vao, objects[i].texture, indicesCount[i])];
        i := i + 1;
      }
    }
  }

  /**
   * The start-up of main: the sun is added with the first program, then the
   * earth with the second; the process ends at the first failed load. When both
   * loads succeed the sun is object 0, the earth object 1, and a frame draws the
   * sun first and then the earth.
   */
  method SetupScene(program: nat, program2: nat,
                    sunLoad: ObjLoad, sunVao: nat, sunTexture: nat, sunBmpOpen: bool, sunBmp: seq<byte>,
                    earthLoad: ObjLoad, earthVao: nat, earthTexture: nat, earthBmpOpen: bool, earthBmp: seq<byte>)
    returns (sun: AddOutcome, earth: AddOutcome, draws: seq<Draw>)
    requires TextureReadable(sunLoad, sunBmpOpen, sunBmp)
    requires TextureReadable(earthLoad, earthBmpOpen, earthBmp)
    ensures LoadFailed(sunLoad) ==> sun == Exit(1) && draws == []
    ensures !LoadFailed(sunLoad) ==> sun == Added(0)
    ensures !LoadFailed(sunLoad) && LoadFailed(earthLoad) ==> earth == Exit(1) && draws == []
    ensures !LoadFailed(sunLoad) && !LoadFailed(earthLoad) ==>
              && earth == Added(1)
              && |draws| == 2
              && draws[0].program == program && draws[0].vao == sunVao && draws[0].texture == sunTexture
              && draws[0].count == Int32Of(|sunLoad.shapes[0].indices|)
              && draws[1].program == program2 && draws[1].vao == earthVao && draws[1].texture == earthTexture
              && draws[1].count == Int32Of(|earthLoad.shapes[0].indices|)
  {
    var registry := new Registry();
    earth := Exit(1);
    draws := [];
    sun := registry.AddObj(program, sunLoad, sunVao, sunTexture, sunBmpOpen, sunBmp);
    if sun.Exit? {
      return;
    }
    earth := registry.AddObj(program2, earthLoad, earthVao, earthTexture, earthBmpOpen, earthBmp);
    if earth.Exit? {
      return;
    }
    draws := registry.Render();
  }
}
