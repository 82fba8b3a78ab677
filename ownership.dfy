/**
  The ownership bookkeeping of a Model, stated over a snapshot of its ten
  handle fields: which slots must be filled for a given geometry, what it
  means for those handles to be registered in the device ledger, which
  handles the destructor gives back, and in which order.
*/
module Ownership {
  import opened DeviceLedger

  /** The handle fields of a Model, in declaration order. */
  datatype Slots = Slots(
    vertexBuffer: Handle, vertexBufferMemory: Handle,
    indexBuffer: Handle, indexBufferMemory: Handle,
    modelBuffer: Handle, modelBufferMemory: Handle,
    texture: Handle, textureMemory: Handle, textureView: Handle, textureSampler: Handle)

  /** Every non-null handle the slots hold. */
  function Created(s: Slots): set<Handle>
  {
    {s.vertexBuffer, s.vertexBufferMemory, s.indexBuffer, s.indexBufferMemory,
     s.modelBuffer, s.modelBufferMemory,
     s.texture, s.textureMemory, s.textureView, s.textureSampler} - {Null}
  }

  /** The texture's image, memory, view and sampler exist together or not at all. */
  predicate TextureAllOrNothing(s: Slots)
  {
    || (s.texture == Null && s.textureMemory == Null && s.textureView == Null && s.textureSampler == Null)
    || (s.texture != Null && s.textureMemory != Null && s.textureView != Null && s.textureSampler != Null)
  }

  /** The emptiness predicates shared by construction and teardown: a vertex
      buffer and its memory exactly when there are vertices, an index buffer
      and its memory exactly when there are indices, the uniform buffer and its
      memory always. */
  predicate Shaped(s: Slots, hasVertices: bool, hasIndices: bool)
  {
    && (s.vertexBuffer != Null <==> hasVertices) && (s.vertexBufferMemory != Null <==> hasVertices)
    && (s.indexBuffer != Null <==> hasIndices) && (s.indexBufferMemory != Null <==> hasIndices)
    && s.modelBuffer != Null && s.modelBufferMemory != Null
    && TextureAllOrNothing(s)
  }

  /** Holds of a handle that is null, or live in the ledger as a `k`. */
  predicate LiveAs(live: map<Handle, Kind>, h: Handle, k: Kind)
  {
    h != Null ==> h in live && live[h] == k
  }

  /** Every filled slot names a live object of the slot's kind. */
  predicate Registered(s: Slots, live: map<Handle, Kind>)
  {
    && LiveAs(live, s.vertexBuffer, Buffer) && LiveAs(live, s.vertexBufferMemory, Memory)
    && LiveAs(live, s.indexBuffer, Buffer) && LiveAs(live, s.indexBufferMemory, Memory)
    && LiveAs(live, s.modelBuffer, Buffer) && LiveAs(live, s.modelBufferMemory, Memory)
    && LiveAs(live, s.texture, Image) && LiveAs(live, s.textureMemory, Memory)
    && LiveAs(live, s.textureView, ImageView) && LiveAs(live, s.textureSampler, Sampler)
  }

  predicate Apart(a: Handle, b: Handle)
  {
    a == Null || a != b
  }

  /** No two filled slots of the same kind share a handle (slots of different
      kinds cannot, once Registered holds). */
  predicate Distinct(s: Slots)
  {
    && Apart(s.vertexBuffer, s.indexBuffer) && Apart(s.vertexBuffer, s.modelBuffer)
    && Apart(s.indexBuffer, s.modelBuffer)
    && Apart(s.vertexBufferMemory, s.indexBufferMemory) && Apart(s.vertexBufferMemory, s.modelBufferMemory)
    && Apart(s.vertexBufferMemory, s.textureMemory) && Apart(s.indexBufferMemory, s.modelBufferMemory)
    && Apart(s.indexBufferMemory, s.textureMemory) && Apart(s.modelBufferMemory, s.textureMemory)
  }

  /** The ownership invariant over a snapshot: shaped, registered, distinct. */
  predicate Owned(s: Slots, hasVertices: bool, hasIndices: bool, live: map<Handle, Kind>)
  {
    Shaped(s, hasVertices, hasIndices) && Registered(s, live) && Distinct(s)
  }

  /** Filling the empty texture slots of `s` with four fresh handles of the
      right kinds, giving `s'`, keeps the invariant, and the ledger has then
      grown, since `before`, by the filled slots' handles. */
  lemma AddTexture(before: map<Handle, Kind>, s: Slots, hasVertices: bool, hasIndices: bool,
                   live: map<Handle, Kind>, t: Handle, tm: Handle, tv: Handle, ts: Handle,
                   s': Slots, live': map<Handle, Kind>)
    requires Owned(s, hasVertices, hasIndices, live) && Extends(before, live, s)
    requires s.texture == Null && s.textureMemory == Null && s.textureView == Null && s.textureSampler == Null
    requires t != Null && tm != Null && tv != Null && ts != Null
    requires t !in live && tm !in live && tv !in live && ts !in live
    requires t != tm && t != tv && t != ts && tm != tv && tm != ts && tv != ts
    requires s' == s.(texture := t, textureMemory := tm, textureView := tv, textureSampler := ts)
    requires live' == live[t := Image][tm := Memory][tv := ImageView][ts := Sampler]
    ensures Owned(s', hasVertices, hasIndices, live') && Extends(before, live', s')
  {
    assert Created(s') == Created(s) + {t, tm, tv, ts};
  }

  /** The ledger `after` is `before` plus exactly the slots' handles, all of
      them new. */
  predicate Extends(before: map<Handle, Kind>, after: map<Handle, Kind>, s: Slots)
  {
    && Created(s) !! before.Keys
    && after.Keys == before.Keys + Created(s)
    && (forall h :: h in before ==> after[h] == before[h])
  }

  /** One guarded buffer upload as the ledger sees it: when `cond` holds, a
      fresh buffer and a fresh memory object are added; otherwise nothing is
      created and both handles stay null. */
  predicate PairStep(before: map<Handle, Kind>, after: map<Handle, Kind>, cond: bool,
                     buffer: Handle, memory: Handle)
  {
    if cond then
      && buffer != Null && memory != Null && buffer != memory
      && buffer !in before && memory !in before
      && after == before[buffer := Buffer][memory := Memory]
    else
      buffer == Null && memory == Null && after == before
  }

  /** The three uploads of construction (vertex buffer when there are
      vertices, index buffer when there are indices, uniform buffer always)
      fill the buffer slots so that the ownership invariant holds and the
      ledger has grown by exactly those handles. */
  lemma UploadRegisters(l0: map<Handle, Kind>, l1: map<Handle, Kind>, l2: map<Handle, Kind>,
                        l3: map<Handle, Kind>, hasVertices: bool, hasIndices: bool,
                        vb: Handle, vbm: Handle, ib: Handle, ibm: Handle, mb: Handle, mbm: Handle)
    requires PairStep(l0, l1, hasVertices, vb, vbm)
    requires PairStep(l1, l2, hasIndices, ib, ibm)
    requires PairStep(l2, l3, true, mb, mbm)
    ensures Owned(Slots(vb, vbm, ib, ibm, mb, mbm, Null, Null, Null, Null), hasVertices, hasIndices, l3)
    ensures Extends(l0, l3, Slots(vb, vbm, ib, ibm, mb, mbm, Null, Null, Null, Null))
  {
    var s := Slots(vb, vbm, ib, ibm, mb, mbm, Null, Null, Null, Null);
    assert Created(s) == (if hasVertices then {vb, vbm} else {}) + (if hasIndices then {ib, ibm} else {}) + {mb, mbm};
  }

  /** The handles the destructor gives back, in the order it gives them back:
      index buffer and memory if there are indices, vertex buffer and memory
      if there are vertices, the uniform buffer and memory, then the texture's
      view and sampler when they are not null.  The texture image and its
      memory are not among them. */
  function TeardownReleases(s: Slots, hasVertices: bool, hasIndices: bool): seq<Handle>
  {
    PairIf(hasIndices, s.indexBuffer, s.indexBufferMemory)
    + PairIf(hasVertices, s.vertexBuffer, s.vertexBufferMemory)
    + PairIf(true, s.modelBuffer, s.modelBufferMemory)
    + UnlessNull(s.textureView)
    + UnlessNull(s.textureSampler)
  }

  /** A buffer and its memory when `cond` holds, nothing otherwise. */
  function PairIf(cond: bool, buffer: Handle, memory: Handle): seq<Handle>
  {
    if cond then [buffer, memory] else []
  }

  /** The handle, unless it is null. */
  function UnlessNull(h: Handle): seq<Handle>
  {
    if h != Null then [h] else []
  }

  /** No handle occurs twice in `xs`. */
  predicate Once(xs: seq<Handle>)
  {
    forall i, j :: 0 <= i < j < |xs| ==> xs[i] != xs[j]
  }

  /** The handles occurring in `xs`. */
  function Elems(xs: seq<Handle>): set<Handle>
  {
    set h | h in xs
  }

  /** The live maps a Model's teardown passes through, release by release:
      each handle a step releases is still live, with the kind the step
      expects, when the step comes, and after the last step exactly the
      handles of the plan are gone. */
  lemma TeardownSteps(s: Slots, hasVertices: bool, hasIndices: bool, l0: map<Handle, Kind>)
    returns (l1: map<Handle, Kind>, l2: map<Handle, Kind>, l3: map<Handle, Kind>,
             l4: map<Handle, Kind>, l5: map<Handle, Kind>)
    requires Owned(s, hasVertices, hasIndices, l0)
    ensures hasIndices ==> s.indexBuffer in l0 && l0[s.indexBuffer] == Buffer
    ensures hasIndices ==> s.indexBufferMemory in l0 && l0[s.indexBufferMemory] == Memory
    ensures l1 == l0 - Elems(PairIf(hasIndices, s.indexBuffer, s.indexBufferMemory))
    ensures hasVertices ==> s.vertexBuffer in l1 && l1[s.vertexBuffer] == Buffer
    ensures hasVertices ==> s.vertexBufferMemory in l1 && l1[s.vertexBufferMemory] == Memory
    ensures l2 == l1 - Elems(PairIf(hasVertices, s.vertexBuffer, s.vertexBufferMemory))
    ensures s.modelBuffer in l2 && l2[s.modelBuffer] == Buffer
    ensures s.modelBufferMemory in l2 && l2[s.modelBufferMemory] == Memory
    ensures l3 == l2 - Elems(PairIf(true, s.modelBuffer, s.modelBufferMemory))
    ensures LiveAs(l3, s.textureView, ImageView)
    ensures l4 == l3 - Elems(UnlessNull(s.textureView))
    ensures LiveAs(l4, s.textureSampler, Sampler)
    ensures l5 == l4 - Elems(UnlessNull(s.textureSampler))
    ensures l5 == l0 - Elems(TeardownReleases(s, hasVertices, hasIndices))
  {
    var a := PairIf(hasIndices, s.indexBuffer, s.indexBufferMemory);
    var b := PairIf(hasVertices, s.vertexBuffer, s.vertexBufferMemory);
    var c := PairIf(true, s.modelBuffer, s.modelBufferMemory);
    var e := UnlessNull(s.textureView);
    var f := UnlessNull(s.textureSampler);
    l1 := l0 - Elems(a);
    l2 := l1 - Elems(b);
    l3 := l2 - Elems(c);
    l4 := l3 - Elems(e);
    l5 := l4 - Elems(f);
    MinusConcat(l0, a, b);
    MinusConcat(l0, a + b, c);
    MinusConcat(l0, a + b + c, e);
    MinusConcat(l0, a + b + c + e, f);
  }

  /** Removing the elements of `a`, then of `b`, removes those of `a + b`. */
  lemma MinusConcat(l: map<Handle, Kind>, a: seq<Handle>, b: seq<Handle>)
    ensures (l - Elems(a)) - Elems(b) == l - Elems(a + b)
  {
    assert Elems(a + b) == Elems(a) + Elems(b);
  }

  /** Appending five pieces one by one appends their concatenation. */
  lemma AppendFive(r0: seq<Handle>, a: seq<Handle>, b: seq<Handle>, c: seq<Handle>,
                   e: seq<Handle>, f: seq<Handle>)
    ensures ((((r0 + a) + b) + c) + e) + f == r0 + ((((a + b) + c) + e) + f)
  {
    assert (r0 + a) + b == r0 + (a + b);
    assert ((r0 + a) + b) + c == r0 + ((a + b) + c);
    assert (((r0 + a) + b) + c) + e == r0 + (((a + b) + c) + e);
  }

  /** Two duplicate-free sequences with no element in common concatenate to
      a duplicate-free sequence. */
  lemma ConcatOnce(a: seq<Handle>, b: seq<Handle>)
    requires Once(a) && Once(b)
    requires forall h :: h in a ==> h !in b
    ensures Once(a + b)
  {
    forall i, j | 0 <= i < j < |a + b|
      ensures (a + b)[i] != (a + b)[j]
    {
      if i < |a| && |a| <= j {
        assert (a + b)[i] in a && (a + b)[j] in b;
      }
    }
  }

  /** Teardown mirrors construction: every handle it gives back is live,
      each is given back once, and together they are all the created handles
      except the texture image and its memory. */
  lemma TeardownMirrorsCreation(s: Slots, hasVertices: bool, hasIndices: bool, live: map<Handle, Kind>)
    requires Shaped(s, hasVertices, hasIndices) && Registered(s, live) && Distinct(s)
    ensures forall h :: h in TeardownReleases(s, hasVertices, hasIndices) ==> h in live
    ensures Elems(TeardownReleases(s, hasVertices, hasIndices)) == Created(s) - {s.texture, s.textureMemory}
    ensures Once(TeardownReleases(s, hasVertices, hasIndices))
  {
    TeardownReleasesOnce(s, hasVertices, hasIndices, live);
  }

  lemma TeardownReleasesOnce(s: Slots, hasVertices: bool, hasIndices: bool, live: map<Handle, Kind>)
    requires Shaped(s, hasVertices, hasIndices) && Registered(s, live) && Distinct(s)
    ensures Once(TeardownReleases(s, hasVertices, hasIndices))
  {
    var a := PairIf(hasIndices, s.indexBuffer, s.indexBufferMemory);
    var b := PairIf(hasVertices, s.vertexBuffer, s.vertexBufferMemory);
    var c := PairIf(true, s.modelBuffer, s.modelBufferMemory);
    var d := UnlessNull(s.textureView);
    var e := UnlessNull(s.textureSampler);
    KindsApart(s, live);
    assert Once(a + b) by { ConcatOnce(a, b); }
    assert Once(a + b + c) by { ConcatOnce(a + b, c); }
    assert Once(a + b + c + d) by { ConcatOnce(a + b + c, d); }
    assert Once(a + b + c + d + e) by { ConcatOnce(a + b + c + d, e); }
    assert TeardownReleases(s, hasVertices, hasIndices) == a + b + c + d + e;
  }

  /** Registered slots of different kinds cannot share a handle. */
  lemma KindsApart(s: Slots, live: map<Handle, Kind>)
    requires Registered(s, live)
    ensures Apart(s.indexBuffer, s.indexBufferMemory) && Apart(s.vertexBuffer, s.vertexBufferMemory)
    ensures Apart(s.modelBuffer, s.modelBufferMemory)
    ensures Apart(s.indexBuffer, s.vertexBufferMemory) && Apart(s.indexBuffer, s.modelBufferMemory)
    ensures Apart(s.indexBufferMemory, s.vertexBuffer) && Apart(s.indexBufferMemory, s.modelBuffer)
    ensures Apart(s.vertexBuffer, s.modelBufferMemory) && Apart(s.vertexBufferMemory, s.modelBuffer)
    ensures Apart(s.textureView, s.indexBuffer) && Apart(s.textureView, s.indexBufferMemory)
    ensures Apart(s.textureView, s.vertexBuffer) && Apart(s.textureView, s.vertexBufferMemory)
    ensures Apart(s.textureView, s.modelBuffer) && Apart(s.textureView, s.modelBufferMemory)
    ensures Apart(s.textureSampler, s.indexBuffer) && Apart(s.textureSampler, s.indexBufferMemory)
    ensures Apart(s.textureSampler, s.vertexBuffer) && Apart(s.textureSampler, s.vertexBufferMemory)
    ensures Apart(s.textureSampler, s.modelBuffer) && Apart(s.textureSampler, s.modelBufferMemory)
    ensures Apart(s.textureSampler, s.textureView)
    ensures Apart(s.texture, s.indexBuffer) && Apart(s.texture, s.indexBufferMemory)
    ensures Apart(s.texture, s.vertexBuffer) && Apart(s.texture, s.vertexBufferMemory)
    ensures Apart(s.texture, s.modelBuffer) && Apart(s.texture, s.modelBufferMemory)
    ensures Apart(s.texture, s.textureView) && Apart(s.texture, s.textureSampler)
    ensures Apart(s.textureMemory, s.indexBuffer) && Apart(s.textureMemory, s.vertexBuffer)
    ensures Apart(s.textureMemory, s.modelBuffer)
    ensures Apart(s.textureMemory, s.textureView) && Apart(s.textureMemory, s.textureSampler)
    ensures Apart(s.texture, s.textureMemory)
  {
  }

  /** Creating the slots' handles and then giving back what teardown gives
      back leaves the ledger as it was, except for the texture image and its
      memory, which stay live. */
  lemma CreateThenTeardown(before: map<Handle, Kind>, after: map<Handle, Kind>, final: map<Handle, Kind>,
                           s: Slots, hasVertices: bool, hasIndices: bool)
    requires Extends(before, after, s) && Owned(s, hasVertices, hasIndices, after)
    requires final == after - Elems(TeardownReleases(s, hasVertices, hasIndices))
    ensures final == if s.texture == Null then before else before[s.texture := Image][s.textureMemory := Memory]
  {
    TeardownMirrorsCreation(s, hasVertices, hasIndices, after);
    if s.texture == Null {
      assert final.Keys == before.Keys;
    } else {
      var expected := before[s.texture := Image][s.textureMemory := Memory];
      assert final.Keys == expected.Keys;
    }
  }

  /** Teardown gives back one handle per created handle other than the
      texture image and its memory. */
  lemma TeardownCount(s: Slots, hasVertices: bool, hasIndices: bool, live: map<Handle, Kind>)
    requires Owned(s, hasVertices, hasIndices, live)
    ensures |TeardownReleases(s, hasVertices, hasIndices)| == |Created(s) - {s.texture, s.textureMemory}|
  {
    TeardownMirrorsCreation(s, hasVertices, hasIndices, live);
    OnceCard(TeardownReleases(s, hasVertices, hasIndices));
  }

  /** A duplicate-free sequence has as many elements as it has distinct ones. */
  lemma {:induction false} OnceCard(xs: seq<Handle>)
    requires Once(xs)
    ensures |Elems(xs)| == |xs|
  {
    if xs != [] {
      var front := xs[..|xs| - 1];
      assert Once(front);
      OnceCard(front);
      assert xs == front + [xs[|xs| - 1]];
      assert Elems(xs) == Elems(front) + {xs[|xs| - 1]};
      assert xs[|xs| - 1] !in Elems(front);
    }
  }
}
