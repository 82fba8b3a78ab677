/**
  A drawable asset: mesh geometry on the host, the device buffers uploaded
  from it, a uniform buffer holding the model transform, and a diffuse
  texture with its view and sampler.  The device is borrowed; every other
  handle the Model holds it created itself and is responsible for.
*/
module CloudScapes {
  import opened DeviceLedger
  import opened ObjGeometry
  import opened Ownership

  /** A 4x4 matrix, as four rows of four reals. */
  type Mat4 = seq<seq<real>>

  /** The identity transform. */
  function Identity(): (m: Mat4)
    ensures |m| == 4
    ensures forall i :: 0 <= i < 4 ==> |m[i]| == 4
    ensures forall i, j :: 0 <= i < 4 && 0 <= j < 4 ==> m[i][j] == if i == j then 1.0 else 0.0
  {
    [[1.0, 0.0, 0.0, 0.0],
     [0.0, 1.0, 0.0, 0.0],
     [0.0, 0.0, 1.0, 0.0],
     [0.0, 0.0, 0.0, 1.0]]
  }

  /** The contents of the uniform buffer. */
  datatype ModelBufferObject = ModelBufferObject(modelMatrix: Mat4)

  datatype Result<T> = Success(value: T) | Failure(error: string)

  datatype Outcome = Pass | Fail(error: string)

  /** Uploading host data into a new device-local buffer: the ledger gains a
      buffer and the memory bound to it.  (The staging buffer used on the way
      is created and released inside the call and leaves no trace.) */
  method CreateBufferFromData(d: Device) returns (buffer: Handle, memory: Handle)
    requires d.Valid()
    modifies d
    ensures d.Valid()
    ensures buffer != Null && memory != Null && buffer != memory
    ensures buffer !in old(d.live) && memory !in old(d.live)
    ensures d.live == old(d.live)[buffer := Buffer][memory := Memory]
    ensures d.released == old(d.released)
  {
    buffer := d.Create(Buffer);
    memory := d.Create(Memory);
  }

  /** Loads a texture: creates the image and the device memory bound to it.
      Decoding the file and copying its pixels through a staging buffer leave
      no trace in the ledger. */
  method LoadTexture(d: Device) returns (image: Handle, memory: Handle)
    requires d.Valid()
    modifies d
    ensures d.Valid() && d.released == old(d.released)
    ensures image != Null && memory != Null && image != memory
    ensures image !in old(d.live) && memory !in old(d.live)
    ensures d.live == old(d.live)[image := Image][memory := Memory]
  {
    image := d.Create(Image);
    memory := d.Create(Memory);
  }

  /** Destroys a buffer, then frees the memory bound to it, when `cond`
      holds; does nothing otherwise. */
  method ReleaseBufferIf(d: Device, cond: bool, buffer: Handle, memory: Handle)
    requires d.Valid()
    requires cond ==> buffer in d.live && d.live[buffer] == Buffer
    requires cond ==> memory in d.live && d.live[memory] == Memory
    modifies d
    ensures d.Valid()
    ensures d.released == old(d.released) + PairIf(cond, buffer, memory)
    ensures d.live == old(d.live) - Elems(PairIf(cond, buffer, memory))
  {
    if cond {
      d.Release(buffer, Buffer);
      d.Release(memory, Memory);
    }
  }

  /** Destroys `h` unless it is null. */
  method ReleaseUnlessNull(d: Device, h: Handle, k: Kind)
    requires d.Valid() && LiveAs(d.live, h, k)
    modifies d
    ensures d.Valid()
    ensures d.released == old(d.released) + UnlessNull(h)
    ensures d.live == old(d.live) - Elems(UnlessNull(h))
  {
    if h != Null {
      d.Release(h, k);
    }
  }

  class Model {
    /** The borrowed device, used again by the destructor. */
    var device: Device?
    var vertices: seq<Vertex>
    var indices: seq<uint32>
    var vertexBuffer: Handle
    var vertexBufferMemory: Handle
    var indexBuffer: Handle
    var indexBufferMemory: Handle
    var modelBufferObject: ModelBufferObject
    var modelBuffer: Handle
    var modelBufferMemory: Handle
    var texture: Handle
    var textureMemory: Handle
    var textureView: Handle
    var textureSampler: Handle

    /** The ten handle fields, as one value. */
    function Handles(): Slots
      reads this
    {
      Slots(vertexBuffer, vertexBufferMemory, indexBuffer, indexBufferMemory,
            modelBuffer, modelBufferMemory, texture, textureMemory, textureView, textureSampler)
    }

    /** The Model's ownership invariant with respect to the ledger of `d`:
        the handles it holds are filled according to the emptiness of its
        arrays, are live in `d` with the right kinds, are pairwise distinct,
        and the transform is the identity. */
    ghost predicate ValidIn(d: Device)
      reads this, d
    {
      && d.Valid()
      && Owned(Handles(), |vertices| > 0, |indices| > 0, d.live)
      && modelBufferObject.modelMatrix == Identity()
    }

    /** A fully built Model: it knows its device, and holds its invariant there. */
    ghost predicate Valid()
      reads this, device
    {
      device != null && ValidIn(device)
    }

    /** Array path: takes the vertex and index arrays as given and uploads
        them; creates no texture. */
    constructor FromArrays(device: Device, vertices: seq<Vertex>, indices: seq<uint32>)
      requires device.Valid()
      modifies device
      ensures Valid() && this.device == device
      ensures this.vertices == vertices && this.indices == indices
      ensures vertexBuffer != Null <==> |vertices| > 0
      ensures indexBuffer != Null <==> |indices| > 0
      ensures modelBuffer != Null && modelBufferObject.modelMatrix == Identity()
      ensures texture == Null && textureMemory == Null && textureView == Null && textureSampler == Null
      ensures Extends(old(device.live), device.live, Handles())
      ensures device.released == old(device.released)
    {
      this.device := device;
      this.vertices := vertices;
      this.indices := indices;
      vertexBuffer, vertexBufferMemory := Null, Null;
      indexBuffer, indexBufferMemory := Null, Null;
      modelBufferObject := ModelBufferObject(Identity());
      modelBuffer, modelBufferMemory := Null, Null;
      texture, textureMemory, textureView, textureSampler := Null, Null, Null, Null;
      new;
      UploadGeometry(device);
    }

    /** The members of a file-path Model before its body runs: empty arrays,
        null handles, and no device stored. */
    constructor Unloaded()
      ensures device == null && vertices == [] && indices == []
      ensures Handles() == Slots(Null, Null, Null, Null, Null, Null, Null, Null, Null, Null)
    {
      device := null;
      vertices, indices := [], [];
      vertexBuffer, vertexBufferMemory := Null, Null;
      indexBuffer, indexBufferMemory := Null, Null;
      modelBufferObject := ModelBufferObject(Identity());
      modelBuffer, modelBufferMemory := Null, Null;
      texture, textureMemory, textureView, textureSampler := Null, Null, Null, Null;
    }

    /** File path (as intended): parse the mesh, upload it, then always load
        the texture.  A parse failure ends construction with the parser's
        error text before anything is created on the device. */
    static method FromFiles(device: Device, parse: ParseResult) returns (r: Result<Model>)
      requires device.Valid()
      requires parse.Parsed? ==> AllInBounds(parse.attrib, Records(parse.shapes))
      modifies device
      ensures device.Valid()
      ensures parse.ParseFailed? ==> r == Failure(parse.err)
      ensures parse.ParseFailed? ==> device.live == old(device.live) && device.released == old(device.released)
      ensures parse.Parsed? ==> r.Success? && fresh(r.value)
      ensures r.Success? ==> r.value.Valid() && r.value.device == device
      ensures r.Success? ==> var m := r.value;
        && m.vertices == FlattenVertices(parse.attrib, Records(parse.shapes))
        && m.indices == Sequential(0, |Records(parse.shapes)|)
        && m.texture != Null && m.textureMemory != Null && m.textureView != Null && m.textureSampler != Null
        && Extends(old(device.live), device.live, m.Handles())
        && device.released == old(device.released)
    {
      var m := new Model.Unloaded();
      m.device := device;
      var loaded := m.LoadFiles(device, parse);
      if loaded.Fail? {
        return Failure(loaded.error);
      }
      r := Success(m);
    }

    /** File path exactly as written: identical to FromFiles except that the
        `device` member is never assigned, so the built Model cannot satisfy
        Valid() and its destructor has no device to release through. */
    static method FromFilesAsWritten(device: Device, parse: ParseResult) returns (r: Result<Model>)
      requires device.Valid()
      requires parse.Parsed? ==> AllInBounds(parse.attrib, Records(parse.shapes))
      modifies device
      ensures device.Valid()
      ensures parse.ParseFailed? ==> r == Failure(parse.err)
      ensures parse.Parsed? ==> r.Success? && fresh(r.value)
      ensures parse.ParseFailed? ==> device.live == old(device.live) && device.released == old(device.released)
      ensures r.Success? ==> r.value.ValidIn(device) && r.value.device == null && !r.value.Valid()
      ensures r.Success? ==> var m := r.value;
        && m.vertices == FlattenVertices(parse.attrib, Records(parse.shapes))
        && m.indices == Sequential(0, |Records(parse.shapes)|)
        && m.texture != Null && m.textureMemory != Null && m.textureView != Null && m.textureSampler != Null
        && Extends(old(device.live), device.live, m.Handles())
        && device.released == old(device.released)
    {
      var m := new Model.Unloaded();
      var loaded := m.LoadFiles(device, parse);
      if loaded.Fail? {
        return Failure(loaded.error);
      }
      r := Success(m);
    }

    /** The body both file-path constructors run: parse and flatten the mesh,
        upload the geometry, then load the texture.  A parse failure stops
        before anything is created on the device. */
    method LoadFiles(d: Device, parse: ParseResult) returns (outcome: Outcome)
      requires d.Valid()
      requires parse.Parsed? ==> AllInBounds(parse.attrib, Records(parse.shapes))
      requires vertices == [] && indices == []
      requires Handles() == Slots(Null, Null, Null, Null, Null, Null, Null, Null, Null, Null)
      modifies this`vertices, this`indices, this`vertexBuffer, this`vertexBufferMemory
      modifies this`indexBuffer, this`indexBufferMemory, this`modelBufferObject, this`modelBuffer
      modifies this`modelBufferMemory, this`texture, this`textureMemory, this`textureView
      modifies this`textureSampler, d
      ensures d.Valid() && d.released == old(d.released)
      ensures parse.ParseFailed? ==> outcome == Fail(parse.err) && d.live == old(d.live)
      ensures parse.Parsed? ==> outcome == Pass && ValidIn(d) && Extends(old(d.live), d.live, Handles())
      ensures parse.Parsed? ==>
        && vertices == FlattenVertices(parse.attrib, Records(parse.shapes))
        && indices == Sequential(0, |Records(parse.shapes)|)
      ensures parse.Parsed? ==>
        texture != Null && textureMemory != Null && textureView != Null && textureSampler != Null
    {
      outcome := LoadModel(parse);
      if outcome.Fail? {
        return;
      }
      UploadGeometry(d);
      StoreTexture(d, old(d.live));
    }

    /** The file constructor's call of SetTexture, which writes the four new
        handles straight into the Model's empty texture members. */
    method StoreTexture(d: Device, ghost before: map<Handle, Kind>)
      requires ValidIn(d) && Extends(before, d.live, Handles())
      requires texture == Null && textureMemory == Null && textureView == Null && textureSampler == Null
      modifies this`texture, this`textureMemory, this`textureView, this`textureSampler, d
      ensures ValidIn(d) && Extends(before, d.live, Handles())
      ensures texture != Null && textureMemory != Null && textureView != Null && textureSampler != Null
      ensures d.released == old(d.released)
    {
      ghost var s0, l0 := Handles(), d.live;
      texture, textureMemory, textureView, textureSampler := SetTexture(d);
      AddTexture(before, s0, |vertices| > 0, |indices| > 0, l0, texture, textureMemory, textureView, textureSampler,
                 Handles(), d.live);
    }

    /** Flattens the parser's records onto the vertex and index arrays: one
        vertex and one index per face corner, shape after shape; each index
        is the index array's size at the time of the append, cast to 32 bits.
        A parser failure leaves both arrays untouched and reports its text. */
    method LoadModel(parse: ParseResult) returns (outcome: Outcome)
      requires parse.Parsed? ==> AllInBounds(parse.attrib, Records(parse.shapes))
      modifies this`vertices, this`indices
      ensures parse.ParseFailed? ==> outcome == Fail(parse.err)
      ensures parse.ParseFailed? ==> vertices == old(vertices) && indices == old(indices)
      ensures parse.Parsed? ==> outcome == Pass
      ensures parse.Parsed? ==>
        && vertices == old(vertices) + FlattenVertices(parse.attrib, Records(parse.shapes))
        && indices == old(indices) + Sequential(|old(indices)|, |Records(parse.shapes)|)
    {
      if parse.ParseFailed? {
        return Fail(parse.err);
      }
      var attrib, shapes := parse.attrib, parse.shapes;
      ghost var v0, i0 := vertices, indices;
      var s := 0;
      while s < |shapes|
        invariant 0 <= s <= |shapes|
        invariant AllInBounds(attrib, Records(shapes[..s]))
        invariant vertices == v0 + FlattenVertices(attrib, Records(shapes[..s]))
        invariant indices == i0 + Sequential(|i0|, |Records(shapes[..s])|)
      {
        var recs := shapes[s].indices;
        RecordsInBounds(attrib, shapes, s);
        ghost var vMid, iMid := vertices, indices;
        AppendShape(attrib, recs);
        FlattenStep(attrib, v0, Records(shapes[..s]), recs, vMid, vertices);
        SequentialStep(i0, |Records(shapes[..s])|, |recs|, iMid, indices);
        s := s + 1;
      }
      assert shapes[..s] == shapes;
      outcome := Pass;
    }

    /** The inner loop of LoadModel: one vertex and one index per corner of
        one shape. */
    method AppendShape(attrib: Attrib, recs: seq<IndexRecord>)
      requires AllInBounds(attrib, recs)
      modifies this`vertices, this`indices
      ensures vertices == old(vertices) + FlattenVertices(attrib, recs)
      ensures indices == old(indices) + Sequential(|old(indices)|, |recs|)
    {
      ghost var v0, i0 := vertices, indices;
      var j := 0;
      while j < |recs|
        invariant 0 <= j <= |recs|
        invariant |vertices| == |v0| + j && vertices[..|v0|] == v0
        invariant forall i :: 0 <= i < j ==> vertices[|v0| + i] == MakeVertex(attrib, recs[i])
        invariant indices == i0 + Sequential(|i0|, j)
      {
        var rec := recs[j];
        var vertex := Vertex(
          Vec4(attrib.vertices[3 * rec.vertexIndex + 0],
               attrib.vertices[3 * rec.vertexIndex + 1],
               attrib.vertices[3 * rec.vertexIndex + 2],
               1.0),
          Vec3(1.0, 1.0, 1.0),
          Vec2(attrib.texcoords[2 * rec.texcoordIndex + 0],
               1.0 - attrib.texcoords[2 * rec.texcoordIndex + 1]));
        vertices := vertices + [vertex];
        indices := indices + [|indices| % Word];
        j := j + 1;
      }
      forall i | 0 <= i < |recs|
        ensures vertices[|v0| + i] == FlattenVertices(attrib, recs)[i]
      {
        FlattenVerticesAt(attrib, recs, i);
      }
    }

    /** The steps both constructors share: a vertex buffer when there are
        vertices, an index buffer when there are indices, and always the
        uniform buffer holding the identity transform. */
    method UploadGeometry(d: Device)
      requires d.Valid()
      requires vertexBuffer == Null && vertexBufferMemory == Null
      requires indexBuffer == Null && indexBufferMemory == Null
      requires modelBuffer == Null && modelBufferMemory == Null
      requires texture == Null && textureMemory == Null && textureView == Null && textureSampler == Null
      modifies this`vertexBuffer, this`vertexBufferMemory, this`indexBuffer, this`indexBufferMemory
      modifies this`modelBufferObject, this`modelBuffer, this`modelBufferMemory, d
      ensures ValidIn(d)
      ensures Extends(old(d.live), d.live, Handles())
      ensures d.released == old(d.released)
    {
      ghost var l0 := d.live;
      UploadVertices(d);
      ghost var l1 := d.live;
      UploadIndices(d);
      ghost var l2 := d.live;
      UploadTransform(d);
      UploadRegisters(l0, l1, l2, d.live, |vertices| > 0, |indices| > 0,
                      vertexBuffer, vertexBufferMemory, indexBuffer, indexBufferMemory, modelBuffer, modelBufferMemory);
    }

    /** The vertex buffer and its memory, created only when there are vertices. */
    method UploadVertices(d: Device)
      requires d.Valid() && vertexBuffer == Null && vertexBufferMemory == Null
      modifies this`vertexBuffer, this`vertexBufferMemory, d
      ensures d.Valid() && d.released == old(d.released)
      ensures PairStep(old(d.live), d.live, |vertices| > 0, vertexBuffer, vertexBufferMemory)
    {
      if |vertices| > 0 {
        vertexBuffer, vertexBufferMemory := CreateBufferFromData(d);
      }
    }

    /** The index buffer and its memory, created only when there are indices. */
    method UploadIndices(d: Device)
      requires d.Valid() && indexBuffer == Null && indexBufferMemory == Null
      modifies this`indexBuffer, this`indexBufferMemory, d
      ensures d.Valid() && d.released == old(d.released)
      ensures PairStep(old(d.live), d.live, |indices| > 0, indexBuffer, indexBufferMemory)
    {
      if |indices| > 0 {
        indexBuffer, indexBufferMemory := CreateBufferFromData(d);
      }
    }

    /** The identity transform and the uniform buffer holding it. */
    method UploadTransform(d: Device)
      requires d.Valid()
      modifies this`modelBufferObject, this`modelBuffer, this`modelBufferMemory, d
      ensures d.Valid() && d.released == old(d.released)
      ensures modelBufferObject.modelMatrix == Identity()
      ensures PairStep(old(d.live), d.live, true, modelBuffer, modelBufferMemory)
    {
      modelBufferObject := ModelBufferObject(Identity());
      modelBuffer, modelBufferMemory := CreateBufferFromData(d);
    }

    /** Loads the texture image and its memory, then creates its view and its
        sampler, and hands all four back to the caller: all four come into
        existence together, fresh and distinct. */
    static method SetTexture(d: Device) returns (image: Handle, memory: Handle, view: Handle, sampler: Handle)
      requires d.Valid()
      modifies d
      ensures d.Valid() && d.released == old(d.released)
      ensures image != Null && memory != Null && view != Null && sampler != Null
      ensures image !in old(d.live) && memory !in old(d.live) && view !in old(d.live) && sampler !in old(d.live)
      ensures image != memory && image != view && image != sampler
      ensures memory != view && memory != sampler && view != sampler
      ensures d.live == old(d.live)[image := Image][memory := Memory][view := ImageView][sampler := Sampler]
    {
      image, memory := LoadTexture(d);
      view := d.Create(ImageView);
      sampler := d.Create(Sampler);
    }

    /** The destructor: releases the index buffer and its memory if there are
        indices, the vertex buffer and its memory if there are vertices, the
        uniform buffer and its memory, and the texture view and sampler when
        they are not null.  It never releases the texture image or its memory. */
    method Teardown()
      requires Valid()
      modifies device
      ensures device.Valid()
      ensures device.released == old(device.released) + TeardownReleases(Handles(), |vertices| > 0, |indices| > 0)
      ensures device.live == old(device.live) - Elems(TeardownReleases(Handles(), |vertices| > 0, |indices| > 0))
    {
      var d := device;
      ghost var s, r0 := Handles(), d.released;
      ghost var l1, l2, l3, l4, l5 := TeardownSteps(s, |vertices| > 0, |indices| > 0, d.live);
      ReleaseBufferIf(d, |indices| > 0, indexBuffer, indexBufferMemory);
      ReleaseBufferIf(d, |vertices| > 0, vertexBuffer, vertexBufferMemory);
      ReleaseBufferIf(d, true, modelBuffer, modelBufferMemory);
      ReleaseUnlessNull(d, textureView, ImageView);
      ReleaseUnlessNull(d, textureSampler, Sampler);
      AppendFive(r0, PairIf(|indices| > 0, indexBuffer, indexBufferMemory),
                 PairIf(|vertices| > 0, vertexBuffer, vertexBufferMemory),
                 PairIf(true, modelBuffer, modelBufferMemory),
                 UnlessNull(textureView), UnlessNull(textureSampler));
    }

    function GetVertices(): seq<Vertex>
      reads this
    {
      vertices
    }

    function GetIndices(): seq<uint32>
      reads this
    {
      indices
    }

    function GetVertexBuffer(): Handle
      reads this
    {
      vertexBuffer
    }

    function GetIndexBuffer(): Handle
      reads this
    {
      indexBuffer
    }

    /** Byte size of the vertex data, computed from the current vertex count. */
    function VertexBufferSize(): (r: uint32)
      reads this
      ensures |vertices| * VertexStride < Word ==> r == |vertices| * VertexStride
      ensures (|vertices| * VertexStride - r) % Word == 0
    {
      ByteSize(|vertices|, VertexStride)
    }

    /** Byte size of the index data, computed from the current index count. */
    function IndexBufferSize(): (r: uint32)
      reads this
      ensures |indices| * IndexStride < Word ==> r == |indices| * IndexStride
      ensures (|indices| * IndexStride - r) % Word == 0
    {
      ByteSize(|indices|, IndexStride)
    }

    function GetModelBufferObject(): ModelBufferObject
      reads this
    {
      modelBufferObject
    }

    function GetModelBuffer(): Handle
      reads this
    {
      modelBuffer
    }

    function GetTextureView(): Handle
      reads this
    {
      textureView
    }

    function GetTextureSampler(): Handle
      reads this
    {
      textureSampler
    }
  }

  /** What the accessors of a valid Model hand out: the vertex and index
      buffers are live buffers exactly when there are vertices and indices,
      the uniform buffer is always a live buffer holding the identity
      transform, and the texture view and sampler are null together or else
      a live view and a live sampler. */
  lemma AccessorsReflectInvariant(m: Model)
    requires m.Valid()
    ensures m.GetVertexBuffer() != Null <==> |m.GetVertices()| > 0
    ensures m.GetIndexBuffer() != Null <==> |m.GetIndices()| > 0
    ensures LiveAs(m.device.live, m.GetVertexBuffer(), Buffer)
    ensures LiveAs(m.device.live, m.GetIndexBuffer(), Buffer)
    ensures m.GetModelBuffer() != Null && LiveAs(m.device.live, m.GetModelBuffer(), Buffer)
    ensures m.GetModelBufferObject().modelMatrix == Identity()
    ensures m.GetTextureView() == Null <==> m.GetTextureSampler() == Null
    ensures LiveAs(m.device.live, m.GetTextureView(), ImageView)
    ensures LiveAs(m.device.live, m.GetTextureSampler(), Sampler)
  {
  }

  /** A Model built from arrays and then destroyed gives back everything it
      created: the ledger's live set is as before, and two, four or six
      handles were released depending on which arrays were non-empty. */
  method ArrayModelLifecycle(d: Device, vertices: seq<Vertex>, indices: seq<uint32>)
    requires d.Valid()
    modifies d
    ensures d.Valid()
    ensures d.live == old(d.live)
    ensures |d.released| == |old(d.released)| + 2
                            + (if |vertices| > 0 then 2 else 0) + (if |indices| > 0 then 2 else 0)
  {
    var m := new Model.FromArrays(d, vertices, indices);
    ghost var built := d.live;
    m.Teardown();
    CreateThenTeardown(old(d.live), built, d.live, m.Handles(), |vertices| > 0, |indices| > 0);
  }

  /** A Model built from files and then destroyed: a parse failure touches
      nothing; otherwise everything it created is released except the
      texture image and its memory, which stay live.  It is built with
      FromFiles, which stores the device: the Model the file constructor
      builds as written has no device to release through, so it cannot be
      torn down. */
  method FileModelLifecycle(d: Device, parse: ParseResult) returns (r: Outcome, image: Handle, imageMemory: Handle)
    requires d.Valid()
    requires parse.Parsed? ==> AllInBounds(parse.attrib, Records(parse.shapes))
    modifies d
    ensures d.Valid()
    ensures parse.ParseFailed? ==> r == Fail(parse.err) && d.live == old(d.live) && d.released == old(d.released)
    ensures parse.Parsed? ==> r == Pass
    ensures parse.Parsed? ==>
      && image != Null && imageMemory != Null
      && image !in old(d.live) && imageMemory !in old(d.live)
      && d.live == old(d.live)[image := Image][imageMemory := Memory]
  {
    var built := Model.FromFiles(d, parse);
    if built.Failure? {
      return Fail(built.error), Null, Null;
    }
    var m := built.value;
    ghost var afterBuild := d.live;
    m.Teardown();
    CreateThenTeardown(old(d.live), afterBuild, d.live, m.Handles(), |m.vertices| > 0, |m.indices| > 0);
    r, image, imageMemory := Pass, m.texture, m.textureMemory;
  }
}
