/**
  Host-side geometry of a drawable asset: the vertex layout, the records an
  OBJ parser hands back, and the flattening that turns those records into the
  vertex and index arrays of a Model.
*/
module ObjGeometry {

  /** Indices and buffer byte sizes are `uint32_t`; arithmetic on them wraps
      modulo Word. */
  const Word: int := 0x1_0000_0000

  type uint32 = x: int | 0 <= x < 0x1_0000_0000

  datatype Vec2 = Vec2(x: real, y: real)
  datatype Vec3 = Vec3(x: real, y: real, z: real)
  datatype Vec4 = Vec4(x: real, y: real, z: real, w: real)

  /** A homogeneous position, a colour and a texture coordinate. */
  datatype Vertex = Vertex(position: Vec4, color: Vec3, texCoord: Vec2)

  const White: Vec3 := Vec3(1.0, 1.0, 1.0)

  /** sizeof(Vertex): nine single-precision floats.  Only its positivity is
      relied upon below. */
  const VertexStride: nat := 36

  /** sizeof(uint32_t) */
  const IndexStride: nat := 4

  /** A face corner as the parser reports it: where its position and its
      texture coordinate live in the flat attribute arrays. */
  datatype IndexRecord = IndexRecord(vertexIndex: int, texcoordIndex: int)

  /** One object of the file: its (already triangulated) face corners in
      file order. */
  datatype Shape = Shape(indices: seq<IndexRecord>)

  /** The flat attribute arrays: three reals per position, two per texture
      coordinate. */
  datatype Attrib = Attrib(vertices: seq<real>, texcoords: seq<real>)

  /** What the external OBJ parser returns: its records, or its failure
      together with its error text. */
  datatype ParseResult =
    | Parsed(attrib: Attrib, shapes: seq<Shape>)
    | ParseFailed(err: string)

  /** The record reads `vertices[3*vi .. 3*vi+2]` and `texcoords[2*ti .. 2*ti+1]`;
      nothing checks these bounds before the reads. */
  predicate InBounds(attrib: Attrib, rec: IndexRecord)
  {
    && 0 <= rec.vertexIndex && 3 * rec.vertexIndex + 2 < |attrib.vertices|
    && 0 <= rec.texcoordIndex && 2 * rec.texcoordIndex + 1 < |attrib.texcoords|
  }

  predicate AllInBounds(attrib: Attrib, recs: seq<IndexRecord>)
  {
    forall i :: 0 <= i < |recs| ==> InBounds(attrib, recs[i])
  }

  /** The vertex one face corner becomes: its position with w = 1, white,
      and its texture coordinate with the vertical axis flipped. */
  function MakeVertex(attrib: Attrib, rec: IndexRecord): Vertex
    requires InBounds(attrib, rec)
  {
    var p, t := 3 * rec.vertexIndex, 2 * rec.texcoordIndex;
    Vertex(Vec4(attrib.vertices[p], attrib.vertices[p + 1], attrib.vertices[p + 2], 1.0),
           White,
           Vec2(attrib.texcoords[t], 1.0 - attrib.texcoords[t + 1]))
  }

  /** All face corners of all shapes, shape after shape, each in file order. */
  function Records(shapes: seq<Shape>): seq<IndexRecord>
  {
    if |shapes| == 0 then [] else Records(shapes[..|shapes| - 1]) + shapes[|shapes| - 1].indices
  }

  /** The records of the first `t` shapes are a prefix of all the records. */
  lemma {:induction false} RecordsPrefix(shapes: seq<Shape>, t: nat)
    requires t <= |shapes|
    ensures Records(shapes[..t]) <= Records(shapes)
    decreases |shapes| - t
  {
    if t == |shapes| {
      assert shapes[..t] == shapes;
    } else {
      var front := shapes[..|shapes| - 1];
      RecordsPrefix(front, t);
      assert front[..t] == shapes[..t];
    }
  }

  /** Where shape `s`'s corners land: the records of the shapes before `s`,
      followed by shape `s`'s corners in file order, are a prefix of all the
      records, so the flattening keeps shape order and file order and neither
      drops nor reorders a corner. */
  lemma RecordPosition(shapes: seq<Shape>, s: nat)
    requires s < |shapes|
    ensures Records(shapes[..s + 1]) == Records(shapes[..s]) + shapes[s].indices
    ensures Records(shapes[..s]) + shapes[s].indices <= Records(shapes)
  {
    assert shapes[..s + 1][..s] == shapes[..s];
    RecordsPrefix(shapes, s + 1);
  }

  /** One vertex per face corner, in record order. */
  function FlattenVertices(attrib: Attrib, recs: seq<IndexRecord>): (r: seq<Vertex>)
    requires AllInBounds(attrib, recs)
    ensures |r| == |recs|
  {
    if |recs| == 0 then []
    else FlattenVertices(attrib, recs[..|recs| - 1]) + [MakeVertex(attrib, recs[|recs| - 1])]
  }

  /** Vertex `k` of the flattening is made from record `k`. */
  lemma {:induction false} FlattenVerticesAt(attrib: Attrib, recs: seq<IndexRecord>, k: nat)
    requires AllInBounds(attrib, recs) && k < |recs|
    ensures FlattenVertices(attrib, recs)[k] == MakeVertex(attrib, recs[k])
  {
    if k < |recs| - 1 {
      FlattenVerticesAt(attrib, recs[..|recs| - 1], k);
    }
  }

  /** Vertex `k` of the flattening, spelled out: the position is read from
      `vertices[3*vi .. 3*vi+2]` of corner `k` and given w = 1, the colour is
      white, and the texture coordinate is read from `texcoords[2*ti ..
      2*ti+1]` with its vertical component flipped to `1 - v`. */
  lemma CornerVertex(attrib: Attrib, recs: seq<IndexRecord>, k: nat)
    requires AllInBounds(attrib, recs) && k < |recs|
    ensures var v, vi, ti := FlattenVertices(attrib, recs)[k], recs[k].vertexIndex, recs[k].texcoordIndex;
      && v.position == Vec4(attrib.vertices[3 * vi], attrib.vertices[3 * vi + 1], attrib.vertices[3 * vi + 2], 1.0)
      && v.color == Vec3(1.0, 1.0, 1.0)
      && v.texCoord == Vec2(attrib.texcoords[2 * ti], 1.0 - attrib.texcoords[2 * ti + 1])
  {
    FlattenVerticesAt(attrib, recs, k);
  }

  /** The records of a prefix of the shapes, and those of the next shape, are
      in bounds when all records are. */
  lemma RecordsInBounds(attrib: Attrib, shapes: seq<Shape>, s: nat)
    requires AllInBounds(attrib, Records(shapes)) && s < |shapes|
    ensures Records(shapes[..s + 1]) == Records(shapes[..s]) + shapes[s].indices
    ensures AllInBounds(attrib, Records(shapes[..s])) && AllInBounds(attrib, shapes[s].indices)
  {
    assert shapes[..s + 1][..s] == shapes[..s];
    RecordsPrefix(shapes, s + 1);
  }

  /** Flattening distributes over concatenation of record sequences. */
  lemma {:induction false} FlattenAppend(attrib: Attrib, a: seq<IndexRecord>, b: seq<IndexRecord>)
    requires AllInBounds(attrib, a) && AllInBounds(attrib, b)
    ensures AllInBounds(attrib, a + b)
    ensures FlattenVertices(attrib, a + b) == FlattenVertices(attrib, a) + FlattenVertices(attrib, b)
  {
    assert forall i :: 0 <= i < |a + b| ==> (a + b)[i] == if i < |a| then a[i] else b[i - |a|];
    if |b| > 0 {
      var b' := b[..|b| - 1];
      assert (a + b)[..|a + b| - 1] == a + b';
      FlattenAppend(attrib, a, b');
    } else {
      assert a + b == a;
    }
  }

  /** The indices appended when `n` corners are flattened onto an index array
      that already holds `from` entries: each new index is the array's size at
      the time of the append, truncated to 32 bits. */
  function Sequential(from: nat, n: nat): (r: seq<uint32>)
    ensures |r| == n
  {
    if n == 0 then [] else Sequential(from, n - 1) + [(from + n - 1) % Word]
  }

  /** Concatenation is associative. */
  lemma SeqAssoc<T>(a: seq<T>, b: seq<T>, c: seq<T>)
    ensures a + (b + c) == (a + b) + c
  {
  }

  /** One step of the shape loop, for the vertices: appending the flattening
      of one more shape's records to an array that holds the flattening of
      the earlier records gives the flattening of both. */
  lemma FlattenStep(attrib: Attrib, v0: seq<Vertex>, done: seq<IndexRecord>, recs: seq<IndexRecord>,
                    vMid: seq<Vertex>, vNew: seq<Vertex>)
    requires AllInBounds(attrib, done) && AllInBounds(attrib, recs)
    requires vMid == v0 + FlattenVertices(attrib, done) && vNew == vMid + FlattenVertices(attrib, recs)
    ensures AllInBounds(attrib, done + recs)
    ensures vNew == v0 + FlattenVertices(attrib, done + recs)
  {
    FlattenAppend(attrib, done, recs);
    SeqAssoc(v0, FlattenVertices(attrib, done), FlattenVertices(attrib, recs));
  }

  /** Index `i` of the appended run is `from + i`, modulo 2^32. */
  lemma {:induction false} SequentialAt(from: nat, n: nat, i: nat)
    requires i < n
    ensures Sequential(from, n)[i] == (from + i) % Word
  {
    if i < n - 1 {
      SequentialAt(from, n - 1, i);
    }
  }

  /** Appending `m` indices and then `n` more is appending `m + n`. */
  lemma SequentialAppend(from: nat, m: nat, n: nat)
    ensures Sequential(from, m + n) == Sequential(from, m) + Sequential(from + m, n)
  {
    var whole, parts := Sequential(from, m + n), Sequential(from, m) + Sequential(from + m, n);
    forall i | 0 <= i < m + n
      ensures whole[i] == parts[i]
    {
      SequentialAt(from, m + n, i);
      if i < m {
        SequentialAt(from, m, i);
      } else {
        SequentialAt(from + m, n, i - m);
      }
    }
  }

  /** One step of the shape loop, for the indices: `n` sequential indices
      followed by `m` more, each continuing from the array's size, are
      `n + m` sequential indices. */
  lemma SequentialStep(i0: seq<uint32>, n: nat, m: nat, iMid: seq<uint32>, iNew: seq<uint32>)
    requires iMid == i0 + Sequential(|i0|, n) && iNew == iMid + Sequential(|iMid|, m)
    ensures iNew == i0 + Sequential(|i0|, n + m)
  {
    SequentialAppend(|i0|, n, m);
    SeqAssoc(i0, Sequential(|i0|, n), Sequential(|i0| + n, m));
  }

  /** Starting from an empty index array, the indices are exactly 0, 1, ...,
      n - 1 as long as they fit in 32 bits. */
  lemma {:induction false} SequentialFromZero(n: nat)
    requires n <= Word
    ensures forall i :: 0 <= i < n ==> Sequential(0, n)[i] == i
  {
    forall i | 0 <= i < n
      ensures Sequential(0, n)[i] == i
    {
      SequentialAt(0, n, i);
    }
  }

  /** Every index produced from an empty array names a vertex that exists,
      wrap-around or not. */
  lemma {:induction false} SequentialInRange(n: nat)
    ensures forall i :: 0 <= i < n ==> Sequential(0, n)[i] < n
  {
    forall i | 0 <= i < n
      ensures Sequential(0, n)[i] < n
    {
      SequentialAt(0, n, i);
    }
  }

  /** No two corners share an index (there is no de-duplication) while at
      most 2^32 indices are appended. */
  lemma SequentialDistinct(from: nat, n: nat)
    requires n <= Word
    ensures forall i, j :: 0 <= i < j < n ==> Sequential(from, n)[i] != Sequential(from, n)[j]
  {
    forall i, j | 0 <= i < j < n
      ensures Sequential(from, n)[i] != Sequential(from, n)[j]
    {
      SequentialAt(from, n, i);
      SequentialAt(from, n, j);
      ModDistinct(from + i, from + j);
    }
  }

  lemma ModDistinct(a: nat, b: nat)
    requires a < b < a + Word
    ensures a % Word != b % Word
  {
    var qa, qb := a / Word, b / Word;
    assert a == qa * Word + a % Word;
    assert b == qb * Word + b % Word;
    assert qa <= qb <= qa + 1;
  }

  /** Beyond 2^32 corners the truncation shows: corner number 2^32 receives
      the same index as corner 0. */
  lemma SequentialWraps(from: nat, n: nat)
    requires n > Word
    ensures Sequential(from, n)[Word] == Sequential(from, n)[0]
  {
    SequentialAt(from, n, Word);
    SequentialAt(from, n, 0);
    assert (from + Word) % Word == from % Word;
  }

  /** Byte size of `count` elements of `stride` bytes, cast to `uint32_t`. */
  function ByteSize(count: nat, stride: nat): (r: uint32)
    ensures count * stride < Word ==> r == count * stride
    ensures (count * stride - r) % Word == 0
  {
    (count * stride) % Word
  }
}
