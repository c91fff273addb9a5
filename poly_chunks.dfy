/** Export's walk over a chunk attach's poly chunks: cache-store and
    cache-draw chunks, and strip chunks whose corners are looked up in the
    vertex buffer and de-duplicated into one vertex list per strip chunk.
    Vertex positions, normals and colours are opaque values compared for
    equality; the material update every chunk performs is a parameter. */
module PolyChunks {
  import opened Wrappers
  import Skinning

  /** The number of poly-cache slots: a cache list byte of 255 is out of range. */
  const PolyCacheSize: int := 255

  datatype StripKind =
    | Strip | StripUVN | StripUVH | StripNormal | StripUVNNormal | StripUVHNormal
    | StripColor | StripUVNColor | StripUVHColor | Strip2 | StripUVN2 | StripUVH2

  /** The strip kinds that carry a colour per corner. */
  predicate HasVColor(kind: StripKind) {
    kind == StripColor || kind == StripUVNColor || kind == StripUVHColor
  }

  /** The strip kinds that carry a UV per corner. */
  predicate HasUV(kind: StripKind) {
    kind == StripUVN || kind == StripUVH || kind == StripUVNColor || kind == StripUVHColor
    || kind == StripUVN2 || kind == StripUVH2
  }

  /** One strip as stored: vertex-cache indices, the reversal flag and the
      optional per-corner colours and UVs (opaque values). */
  datatype StripIn = StripIn(indexes: seq<int>, reversed: bool, vcolors: seq<int>, uvs: seq<int>)

  datatype PolyChunk =
    | CachePolygonList(list: int)
    | DrawPolygonList(list: int)
    | StripChunk(kind: StripKind, strips: seq<StripIn>)
    | OtherChunk(tag: int)   // material, texture and other chunks: they only update the material

  /** A vertex-buffer cell: position and normal (opaque) and an optional colour. */
  datatype CachedVertex<P> = CachedVertex(pn: P, color: Option<int>)

  /** A mesh vertex: position and normal, colour and UV. */
  datatype VertexData<P> = VertexData(pn: P, color: Option<int>, uv: Option<int>)

  /** One output strip: indices into its mesh's vertex list, and the reversal flag. */
  datatype StripOut = StripOut(indexes: seq<int>, reversed: bool)

  type WeightList = Option<seq<Skinning.WeightData>>

  /** The vertex a strip corner stands for: the cached position and normal,
      the strip's colour when the kind has one (else the cached colour) and
      the strip's UV when the kind has one. The cache index and the per-corner
      lists are indexed as the list indexers do. */
  function CornerVertex<P>(kind: StripKind, st: StripIn, k: nat, vb: seq<CachedVertex<P>>): (r: Result<VertexData<P>>)
    requires k < |st.indexes|
    ensures r.Ok? <==> 0 <= st.indexes[k] < |vb| && (HasVColor(kind) ==> k < |st.vcolors|) && (HasUV(kind) ==> k < |st.uvs|)
    ensures r.Err? ==> r.fault == IndexOutOfRange
    ensures r.Ok? ==> r.value.pn == vb[st.indexes[k]].pn
    ensures r.Ok? ==> r.value.color == if HasVColor(kind) then Some(st.vcolors[k]) else vb[st.indexes[k]].color
    ensures r.Ok? ==> r.value.uv == if HasUV(kind) then Some(st.uvs[k]) else None
  {
    var i := st.indexes[k];
    if !(0 <= i < |vb|) then Err(IndexOutOfRange)
    else if HasVColor(kind) && k >= |st.vcolors| then Err(IndexOutOfRange)
    else if HasUV(kind) && k >= |st.uvs| then Err(IndexOutOfRange)
    else
      Ok(VertexData(vb[i].pn,
                    if HasVColor(kind) then Some(st.vcolors[k]) else vb[i].color,
                    if HasUV(kind) then Some(st.uvs[k]) else None))
  }

  /** List.IndexOf: the first position holding `x`. */
  function IndexOf<T(==)>(s: seq<T>, x: T): (i: int)
    requires x in s
    ensures 0 <= i < |s| && s[i] == x
    ensures forall j :: 0 <= j < i ==> s[j] != x
  {
    if s[0] == x then 0 else 1 + IndexOf(s[1..], x)
  }

  lemma IndexOfAppend<T>(s: seq<T>, y: T, x: T)
    requires x in s
    ensures x in s + [y] && IndexOf(s + [y], x) == IndexOf(s, x)
  {
    var i := IndexOf(s, x);
    var j := IndexOf(s + [y], x);
    assert (s + [y])[i] == x;
    assert j <= i;
    assert s[j] == (s + [y])[j];
  }

  predicate NoDup<T(==)>(s: seq<T>) {
    forall i, j :: 0 <= i < j < |s| ==> s[i] != s[j]
  }

  // ---------------------------------------------------------------------------
  // De-duplication of one strip chunk's corners

  /** Progress of a strip chunk: finished strips, the current strip's
      indices so far, the chunk's vertex list and the walk's weight list. */
  datatype DedupAcc<P> = DedupAcc(done: seq<StripOut>, cur: seq<int>, verts: seq<VertexData<P>>, weights: seq<WeightList>)

  /** One corner: a vertex already in the list is referred to by the first
      position holding it; a new one is appended, with its weight-buffer list
      appended to the weights. The index is stored as a ushort. */
  function AddCorner<P(==)>(acc: DedupAcc<P>, v: VertexData<P>, w: WeightList): (r: DedupAcc<P>)
  {
    if v in acc.verts then acc.(cur := acc.cur + [IndexOf(acc.verts, v) % 0x1_0000])
    else acc.(cur := acc.cur + [|acc.verts| % 0x1_0000], verts := acc.verts + [v], weights := acc.weights + [w])
  }

  /** The chunk's strips from corner `k` of strip `s` on. */
  function DedupFrom<P(==)>(kind: StripKind, strips: seq<StripIn>, s: nat, k: nat, acc: DedupAcc<P>,
                            vb: seq<CachedVertex<P>>, wb: seq<WeightList>): (r: Result<DedupAcc<P>>)
    requires |wb| == |vb|
    decreases |strips| - s, if s < |strips| then |strips[s].indexes| - k else 0
  {
    if s >= |strips| then Ok(acc)
    else if k >= |strips[s].indexes| then
      DedupFrom(kind, strips, s + 1, 0, acc.(done := acc.done + [StripOut(acc.cur, strips[s].reversed)], cur := []), vb, wb)
    else
      var c := CornerVertex(kind, strips[s], k, vb);
      if c.Err? then Err(c.fault)
      else DedupFrom(kind, strips, s, k + 1, AddCorner(acc, c.value, wb[strips[s].indexes[k]]), vb, wb)
  }

  /** Corner `j` of strip `t` is looked up, its vertex is in the list, and
      the stored index is the ushort of the vertex's first position. */
  predicate Resolved<P(==)>(kind: StripKind, st: StripIn, j: nat, vb: seq<CachedVertex<P>>, verts: seq<VertexData<P>>, stored: int)
    requires j < |st.indexes|
  {
    var c := CornerVertex(kind, st, j, vb);
    c.Ok? && c.value in verts && stored == IndexOf(verts, c.value) % 0x1_0000
  }

  /** What holds of the progress after all corners before (s, k). */
  predicate DedupInv<P(==)>(kind: StripKind, strips: seq<StripIn>, s: nat, k: nat, acc: DedupAcc<P>,
                            vb: seq<CachedVertex<P>>, w0: seq<WeightList>)
  {
    && s <= |strips| && (s < |strips| ==> k <= |strips[s].indexes|) && (s == |strips| ==> k == 0)
    && |acc.done| == s && |acc.cur| == k
    && NoDup(acc.verts)
    && |acc.weights| == |w0| + |acc.verts| && acc.weights[..|w0|] == w0
    && (forall t :: 0 <= t < s ==>
          acc.done[t].reversed == strips[t].reversed && |acc.done[t].indexes| == |strips[t].indexes|)
    && (forall t, j :: 0 <= t < s && 0 <= j < |strips[t].indexes| ==>
          Resolved(kind, strips[t], j, vb, acc.verts, acc.done[t].indexes[j]))
    && (forall j :: 0 <= j < k ==> Resolved(kind, strips[s], j, vb, acc.verts, acc.cur[j]))
  }

  lemma ResolvedGrows<P>(kind: StripKind, st: StripIn, j: nat, vb: seq<CachedVertex<P>>, verts: seq<VertexData<P>>, v: VertexData<P>, stored: int)
    requires j < |st.indexes|
    requires Resolved(kind, st, j, vb, verts, stored)
    ensures Resolved(kind, st, j, vb, verts + [v], stored)
  {
    IndexOfAppend(verts, v, CornerVertex(kind, st, j, vb).value);
  }

  /** Adding a looked-up corner keeps the invariant. */
  lemma AddCornerInv<P>(kind: StripKind, strips: seq<StripIn>, s: nat, k: nat, acc: DedupAcc<P>,
                        vb: seq<CachedVertex<P>>, wb: seq<WeightList>, w0: seq<WeightList>)
    requires |wb| == |vb|
    requires DedupInv(kind, strips, s, k, acc, vb, w0)
    requires s < |strips| && k < |strips[s].indexes|
    requires CornerVertex(kind, strips[s], k, vb).Ok?
    ensures DedupInv(kind, strips, s, k + 1,
              AddCorner(acc, CornerVertex(kind, strips[s], k, vb).value, wb[strips[s].indexes[k]]), vb, w0)
  {
    if CornerVertex(kind, strips[s], k, vb).value !in acc.verts {
      AddNewCornerInv(kind, strips, s, k, acc, vb, wb[strips[s].indexes[k]], w0);
    }
  }

  /** A corner whose vertex is not listed yet: the vertex and its weight
      list are appended, and every earlier corner still resolves. */
  lemma AddNewCornerInv<P>(kind: StripKind, strips: seq<StripIn>, s: nat, k: nat, acc: DedupAcc<P>,
                           vb: seq<CachedVertex<P>>, w: WeightList, w0: seq<WeightList>)
    requires DedupInv(kind, strips, s, k, acc, vb, w0)
    requires s < |strips| && k < |strips[s].indexes|
    requires CornerVertex(kind, strips[s], k, vb).Ok? && CornerVertex(kind, strips[s], k, vb).value !in acc.verts
    ensures DedupInv(kind, strips, s, k + 1, AddCorner(acc, CornerVertex(kind, strips[s], k, vb).value, w), vb, w0)
  {
    var v := CornerVertex(kind, strips[s], k, vb).value;
    var acc' := AddCorner(acc, v, w);
    assert acc'.verts == acc.verts + [v] && acc'.done == acc.done;
    forall t, j | 0 <= t < s && 0 <= j < |strips[t].indexes|
      ensures Resolved(kind, strips[t], j, vb, acc'.verts, acc'.done[t].indexes[j])
    {
      ResolvedGrows(kind, strips[t], j, vb, acc.verts, v, acc.done[t].indexes[j]);
    }
    forall j | 0 <= j < k
      ensures Resolved(kind, strips[s], j, vb, acc'.verts, acc'.cur[j])
    {
      ResolvedGrows(kind, strips[s], j, vb, acc.verts, v, acc.cur[j]);
    }
    assert IndexOf(acc'.verts, v) == |acc.verts|;
    assert acc'.weights[..|w0|] == acc.weights[..|w0|];
    assert NoDup(acc'.verts);
  }

  /** Closing a strip whose corners are all added keeps the invariant. */
  lemma CloseStripInv<P>(kind: StripKind, strips: seq<StripIn>, s: nat, acc: DedupAcc<P>,
                         vb: seq<CachedVertex<P>>, w0: seq<WeightList>)
    requires s < |strips| && DedupInv(kind, strips, s, |strips[s].indexes|, acc, vb, w0)
    ensures DedupInv(kind, strips, s + 1, 0, acc.(done := acc.done + [StripOut(acc.cur, strips[s].reversed)], cur := []), vb, w0)
  {
    var acc' := acc.(done := acc.done + [StripOut(acc.cur, strips[s].reversed)], cur := []);
    forall t, j | 0 <= t < s + 1 && 0 <= j < |strips[t].indexes|
      ensures Resolved(kind, strips[t], j, vb, acc'.verts, acc'.done[t].indexes[j])
    {
      if t < s {
        assert acc'.done[t] == acc.done[t];
      } else {
        assert acc'.done[t].indexes == acc.cur;
      }
    }
  }

  /** At the end of strip `s` the run carries on from the next strip. */
  lemma DedupFromClose<P>(kind: StripKind, strips: seq<StripIn>, s: nat, k: nat, acc: DedupAcc<P>,
                          vb: seq<CachedVertex<P>>, wb: seq<WeightList>)
    requires |wb| == |vb| && s < |strips| && k >= |strips[s].indexes|
    ensures DedupFrom(kind, strips, s, k, acc, vb, wb) ==
      DedupFrom(kind, strips, s + 1, 0, acc.(done := acc.done + [StripOut(acc.cur, strips[s].reversed)], cur := []), vb, wb)
  {
  }

  /** A corner that resolves is added and the run carries on from the next corner. */
  lemma DedupFromCorner<P>(kind: StripKind, strips: seq<StripIn>, s: nat, k: nat, acc: DedupAcc<P>,
                           vb: seq<CachedVertex<P>>, wb: seq<WeightList>)
    requires |wb| == |vb| && s < |strips| && k < |strips[s].indexes|
    requires CornerVertex(kind, strips[s], k, vb).Ok?
    ensures DedupFrom(kind, strips, s, k, acc, vb, wb) ==
      DedupFrom(kind, strips, s, k + 1, AddCorner(acc, CornerVertex(kind, strips[s], k, vb).value, wb[strips[s].indexes[k]]), vb, wb)
  {
  }

  /** Every run of the chunk that succeeds ends with the invariant. */
  lemma {:induction false} DedupFromInv<P>(kind: StripKind, strips: seq<StripIn>, s: nat, k: nat, acc: DedupAcc<P>,
                                           vb: seq<CachedVertex<P>>, wb: seq<WeightList>, w0: seq<WeightList>, r: DedupAcc<P>)
    requires |wb| == |vb|
    requires DedupInv(kind, strips, s, k, acc, vb, w0)
    requires DedupFrom(kind, strips, s, k, acc, vb, wb) == Ok(r)
    ensures DedupInv(kind, strips, |strips|, 0, r, vb, w0)
    decreases |strips| - s, if s < |strips| then |strips[s].indexes| - k else 0
  {
    if s < |strips| {
      var s', k', acc' := DedupStep(kind, strips, s, k, acc, vb, wb, w0);
      DedupFromInv(kind, strips, s', k', acc', vb, wb, w0, r);
    }
  }


  /** A strip chunk de-duplicated from scratch: each output strip keeps its
      input's reversal flag and length, no vertex is listed twice, the weight
      list grows by exactly one entry per listed vertex, and every stored
      index is the ushort of the first position of its corner's vertex; so,
      while the list stays within 65536 vertices, each stored index leads
      back to exactly the vertex its corner stands for. */
  lemma DedupChunkProperties<P>(kind: StripKind, strips: seq<StripIn>, vb: seq<CachedVertex<P>>,
                                wb: seq<WeightList>, w0: seq<WeightList>, r: DedupAcc<P>)
    requires |wb| == |vb|
    requires DedupFrom(kind, strips, 0, 0, DedupAcc([], [], [], w0), vb, wb) == Ok(r)
    ensures |r.done| == |strips|
    ensures NoDup(r.verts)
    ensures |r.weights| == |w0| + |r.verts| && r.weights[..|w0|] == w0
    ensures forall t :: 0 <= t < |strips| ==>
      r.done[t].reversed == strips[t].reversed && |r.done[t].indexes| == |strips[t].indexes|
    ensures forall t, j :: 0 <= t < |strips| && 0 <= j < |strips[t].indexes| ==>
      Resolved(kind, strips[t], j, vb, r.verts, r.done[t].indexes[j])
    ensures |r.verts| <= 0x1_0000 ==>
      forall t, j :: 0 <= t < |strips| && 0 <= j < |strips[t].indexes| ==>
        0 <= r.done[t].indexes[j] < |r.verts| && CornerVertex(kind, strips[t], j, vb).Ok? &&
        r.verts[r.done[t].indexes[j]] == CornerVertex(kind, strips[t], j, vb).value
  {
    DedupFromInv(kind, strips, 0, 0, DedupAcc([], [], [], w0), vb, wb, w0, r);
    assert DedupInv(kind, strips, |strips|, 0, r, vb, w0);
    if |r.verts| <= 0x1_0000 {
      forall t, j | 0 <= t < |strips| && 0 <= j < |strips[t].indexes|
        ensures 0 <= r.done[t].indexes[j] < |r.verts| && CornerVertex(kind, strips[t], j, vb).Ok?
        ensures r.verts[r.done[t].indexes[j]] == CornerVertex(kind, strips[t], j, vb).value
      {
        assert Resolved(kind, strips[t], j, vb, r.verts, r.done[t].indexes[j]);
        var i := IndexOf(r.verts, CornerVertex(kind, strips[t], j, vb).value);
        assert i % 0x1_0000 == i;
      }
    }
  }

  // ---------------------------------------------------------------------------
  // Which weight list each listed vertex gets

  /** Corner `j` of strip `t` comes before corner `k` of strip `s`. */
  predicate Before(t: int, j: int, s: int, k: int) {
    t < s || (t == s && j < k)
  }

  /** Corner `j` of strip `t` is the chunk's first corner that stands for `v`. */
  predicate FirstCorner<P(==)>(kind: StripKind, strips: seq<StripIn>, t: int, j: int, vb: seq<CachedVertex<P>>, v: VertexData<P>) {
    && 0 <= t < |strips| && 0 <= j < |strips[t].indexes|
    && CornerVertex(kind, strips[t], j, vb) == Ok(v)
    && forall t', j' :: 0 <= t' < |strips| && 0 <= j' < |strips[t'].indexes| && Before(t', j', t, j) ==>
         CornerVertex(kind, strips[t'], j', vb) != Ok(v)
  }

  /** `w` is the weight-buffer list of the cell named by corner `j` of
      strip `t`, and that corner is the first standing for `v`. */
  ghost predicate FromFirstCorner<P>(kind: StripKind, strips: seq<StripIn>, t: int, j: int, vb: seq<CachedVertex<P>>,
                                        wb: seq<WeightList>, v: VertexData<P>, w: WeightList)
  {
    FirstCorner(kind, strips, t, j, vb, v) && 0 <= strips[t].indexes[j] < |wb| && w == wb[strips[t].indexes[j]]
  }

  /** `w` comes, as above, from some corner of the chunk. */
  ghost predicate FromSomeFirstCorner<P>(kind: StripKind, strips: seq<StripIn>, vb: seq<CachedVertex<P>>,
                                            wb: seq<WeightList>, v: VertexData<P>, w: WeightList)
  {
    exists t, j :: FromFirstCorner(kind, strips, t, j, vb, wb, v, w)
  }

  /** `w` comes, as above, from a first corner before (s, k). */
  ghost predicate SourcedBefore<P>(kind: StripKind, strips: seq<StripIn>, s: int, k: int, vb: seq<CachedVertex<P>>,
                                      wb: seq<WeightList>, v: VertexData<P>, w: WeightList)
  {
    exists t, j :: Before(t, j, s, k) && FromFirstCorner(kind, strips, t, j, vb, wb, v, w)
  }

  /** After all corners before (s, k): the weight list entry of each listed
      vertex is the weight-buffer list of the cell its first corner names. */
  ghost predicate WeightsInv<P>(kind: StripKind, strips: seq<StripIn>, s: nat, k: nat, acc: DedupAcc<P>,
                                   vb: seq<CachedVertex<P>>, wb: seq<WeightList>, w0: seq<WeightList>)
  {
    && |acc.weights| == |w0| + |acc.verts|
    && forall p :: 0 <= p < |acc.verts| ==> SourcedBefore(kind, strips, s, k, vb, wb, acc.verts[p], acc.weights[|w0| + p])
  }

  /** A source before one corner is a source before any later corner. */
  lemma SourcedLater<P>(kind: StripKind, strips: seq<StripIn>, s: int, k: int, s': int, k': int, vb: seq<CachedVertex<P>>,
                        wb: seq<WeightList>, v: VertexData<P>, w: WeightList)
    requires SourcedBefore(kind, strips, s, k, vb, wb, v, w)
    requires s < s' || (s == s' && k <= k') || (s' == s + 1 && 0 <= s < |strips| && k == |strips[s].indexes|)
    ensures SourcedBefore(kind, strips, s', k', vb, wb, v, w)
  {
    var t, j :| Before(t, j, s, k) && FromFirstCorner(kind, strips, t, j, vb, wb, v, w);
    assert Before(t, j, s', k');
  }

  /** A corner whose vertex is new: it is that vertex's first corner, and
      the weight list appended for it is its cell's. */
  lemma WeightsNewCorner<P>(kind: StripKind, strips: seq<StripIn>, s: nat, k: nat, acc: DedupAcc<P>,
                            vb: seq<CachedVertex<P>>, wb: seq<WeightList>, w0: seq<WeightList>)
    requires |wb| == |vb|
    requires DedupInv(kind, strips, s, k, acc, vb, w0) && WeightsInv(kind, strips, s, k, acc, vb, wb, w0)
    requires s < |strips| && k < |strips[s].indexes|
    requires CornerVertex(kind, strips[s], k, vb).Ok? && CornerVertex(kind, strips[s], k, vb).value !in acc.verts
    ensures WeightsInv(kind, strips, s, k + 1,
              AddCorner(acc, CornerVertex(kind, strips[s], k, vb).value, wb[strips[s].indexes[k]]), vb, wb, w0)
  {
    var v := CornerVertex(kind, strips[s], k, vb).value;
    var w := wb[strips[s].indexes[k]];
    var acc' := AddCorner(acc, v, w);
    assert acc'.verts == acc.verts + [v] && acc'.weights == acc.weights + [w];
    assert FirstCorner(kind, strips, s, k, vb, v) by {
      forall t', j' | 0 <= t' < |strips| && 0 <= j' < |strips[t'].indexes| && Before(t', j', s, k)
        ensures CornerVertex(kind, strips[t'], j', vb) != Ok(v)
      {
        if t' < s {
          assert Resolved(kind, strips[t'], j', vb, acc.verts, acc.done[t'].indexes[j']);
        } else {
          assert Resolved(kind, strips[s], j', vb, acc.verts, acc.cur[j']);
        }
      }
    }
    assert Before(s, k, s, k + 1) && FromFirstCorner(kind, strips, s, k, vb, wb, v, w);
    forall p | 0 <= p < |acc'.verts|
      ensures SourcedBefore(kind, strips, s, k + 1, vb, wb, acc'.verts[p], acc'.weights[|w0| + p])
    {
      if p < |acc.verts| {
        assert acc'.verts[p] == acc.verts[p] && acc'.weights[|w0| + p] == acc.weights[|w0| + p];
        SourcedLater(kind, strips, s, k, s, k + 1, vb, wb, acc.verts[p], acc.weights[|w0| + p]);
      } else {
        assert acc'.verts[p] == v && acc'.weights[|w0| + p] == w;
      }
    }
  }

  /** A corner whose vertex is already listed changes no vertex and no weight list. */
  lemma WeightsOldCorner<P>(kind: StripKind, strips: seq<StripIn>, s: nat, k: nat, acc: DedupAcc<P>, acc': DedupAcc<P>,
                            vb: seq<CachedVertex<P>>, wb: seq<WeightList>, w0: seq<WeightList>)
    requires WeightsInv(kind, strips, s, k, acc, vb, wb, w0)
    requires acc'.verts == acc.verts && acc'.weights == acc.weights
    ensures WeightsInv(kind, strips, s, k + 1, acc', vb, wb, w0)
  {
    forall p | 0 <= p < |acc'.verts|
      ensures SourcedBefore(kind, strips, s, k + 1, vb, wb, acc'.verts[p], acc'.weights[|w0| + p])
    {
      SourcedLater(kind, strips, s, k, s, k + 1, vb, wb, acc.verts[p], acc.weights[|w0| + p]);
    }
  }

  /** Closing a strip keeps every vertex's first corner before the next strip. */
  lemma WeightsClose<P>(kind: StripKind, strips: seq<StripIn>, s: nat, acc: DedupAcc<P>, acc': DedupAcc<P>,
                        vb: seq<CachedVertex<P>>, wb: seq<WeightList>, w0: seq<WeightList>)
    requires s < |strips| && WeightsInv(kind, strips, s, |strips[s].indexes|, acc, vb, wb, w0)
    requires acc'.verts == acc.verts && acc'.weights == acc.weights
    ensures WeightsInv(kind, strips, s + 1, 0, acc', vb, wb, w0)
  {
    forall p | 0 <= p < |acc'.verts|
      ensures SourcedBefore(kind, strips, s + 1, 0, vb, wb, acc'.verts[p], acc'.weights[|w0| + p])
    {
      SourcedLater(kind, strips, s, |strips[s].indexes|, s + 1, 0, vb, wb, acc.verts[p], acc.weights[|w0| + p]);
    }
  }

  /** One step of a run that succeeds, to the next corner or past the end of
      the strip: both invariants carry over and the run's outcome is unchanged. */
  lemma DedupStep<P>(kind: StripKind, strips: seq<StripIn>, s: nat, k: nat, acc: DedupAcc<P>,
                     vb: seq<CachedVertex<P>>, wb: seq<WeightList>, w0: seq<WeightList>)
    returns (s': nat, k': nat, acc': DedupAcc<P>)
    requires |wb| == |vb| && s < |strips|
    requires DedupInv(kind, strips, s, k, acc, vb, w0)
    requires DedupFrom(kind, strips, s, k, acc, vb, wb).Ok?
    ensures (s' == s + 1 && k' == 0) || (s' == s && k < |strips[s].indexes| && k' == k + 1)
    ensures DedupInv(kind, strips, s', k', acc', vb, w0)
    ensures DedupFrom(kind, strips, s', k', acc', vb, wb) == DedupFrom(kind, strips, s, k, acc, vb, wb)
    ensures WeightsInv(kind, strips, s, k, acc, vb, wb, w0) ==> WeightsInv(kind, strips, s', k', acc', vb, wb, w0)
  {
    if k >= |strips[s].indexes| {
      s', k' := s + 1, 0;
      acc' := acc.(done := acc.done + [StripOut(acc.cur, strips[s].reversed)], cur := []);
      DedupCloseStep(kind, strips, s, k, acc, vb, wb, w0);
    } else {
      var c := CornerVertex(kind, strips[s], k, vb);
      assert c.Ok?;
      s', k' := s, k + 1;
      acc' := AddCorner(acc, c.value, wb[strips[s].indexes[k]]);
      DedupCornerStep(kind, strips, s, k, acc, vb, wb, w0);
    }
  }

  /** Closing strip `s` once its corners are done. */
  lemma DedupCloseStep<P>(kind: StripKind, strips: seq<StripIn>, s: nat, k: nat, acc: DedupAcc<P>,
                          vb: seq<CachedVertex<P>>, wb: seq<WeightList>, w0: seq<WeightList>)
    requires |wb| == |vb| && s < |strips| && k >= |strips[s].indexes|
    requires DedupInv(kind, strips, s, k, acc, vb, w0)
    ensures var acc' := acc.(done := acc.done + [StripOut(acc.cur, strips[s].reversed)], cur := []);
      && DedupInv(kind, strips, s + 1, 0, acc', vb, w0)
      && DedupFrom(kind, strips, s + 1, 0, acc', vb, wb) == DedupFrom(kind, strips, s, k, acc, vb, wb)
      && (WeightsInv(kind, strips, s, k, acc, vb, wb, w0) ==> WeightsInv(kind, strips, s + 1, 0, acc', vb, wb, w0))
  {
    var acc' := acc.(done := acc.done + [StripOut(acc.cur, strips[s].reversed)], cur := []);
    CloseStripInv(kind, strips, s, acc, vb, w0);
    DedupFromClose(kind, strips, s, k, acc, vb, wb);
    if WeightsInv(kind, strips, s, k, acc, vb, wb, w0) {
      WeightsClose(kind, strips, s, acc, acc', vb, wb, w0);
    }
  }

  /** Adding corner `k` of strip `s` when its vertex resolves. */
  lemma DedupCornerStep<P>(kind: StripKind, strips: seq<StripIn>, s: nat, k: nat, acc: DedupAcc<P>,
                           vb: seq<CachedVertex<P>>, wb: seq<WeightList>, w0: seq<WeightList>)
    requires |wb| == |vb| && s < |strips| && k < |strips[s].indexes|
    requires DedupInv(kind, strips, s, k, acc, vb, w0)
    requires CornerVertex(kind, strips[s], k, vb).Ok?
    ensures var acc' := AddCorner(acc, CornerVertex(kind, strips[s], k, vb).value, wb[strips[s].indexes[k]]);
      && DedupInv(kind, strips, s, k + 1, acc', vb, w0)
      && DedupFrom(kind, strips, s, k + 1, acc', vb, wb) == DedupFrom(kind, strips, s, k, acc, vb, wb)
      && (WeightsInv(kind, strips, s, k, acc, vb, wb, w0) ==> WeightsInv(kind, strips, s, k + 1, acc', vb, wb, w0))
  {
    var c := CornerVertex(kind, strips[s], k, vb);
    var acc' := AddCorner(acc, c.value, wb[strips[s].indexes[k]]);
    AddCornerInv(kind, strips, s, k, acc, vb, wb, w0);
    DedupFromCorner(kind, strips, s, k, acc, vb, wb);
    if WeightsInv(kind, strips, s, k, acc, vb, wb, w0) {
      if c.value in acc.verts {
        WeightsOldCorner(kind, strips, s, k, acc, acc', vb, wb, w0);
      } else {
        WeightsNewCorner(kind, strips, s, k, acc, vb, wb, w0);
      }
    }
  }


  /** Every run of the chunk that succeeds keeps the weight invariant to the end. */
  lemma {:induction false} DedupFromWeights<P>(kind: StripKind, strips: seq<StripIn>, s: nat, k: nat, acc: DedupAcc<P>,
                                               vb: seq<CachedVertex<P>>, wb: seq<WeightList>, w0: seq<WeightList>, r: DedupAcc<P>)
    requires |wb| == |vb|
    requires DedupInv(kind, strips, s, k, acc, vb, w0) && WeightsInv(kind, strips, s, k, acc, vb, wb, w0)
    requires DedupFrom(kind, strips, s, k, acc, vb, wb) == Ok(r)
    ensures WeightsInv(kind, strips, |strips|, 0, r, vb, wb, w0)
    decreases |strips| - s, if s < |strips| then |strips[s].indexes| - k else 0
  {
    if s < |strips| {
      var s', k', acc' := DedupStep(kind, strips, s, k, acc, vb, wb, w0);
      DedupFromWeights(kind, strips, s', k', acc', vb, wb, w0, r);
    }
  }


  /** A strip chunk de-duplicated from scratch: the weight list entry added
      for listed vertex p is the weight-buffer list of the cell named by the
      chunk's first corner standing for that vertex. */
  lemma DedupChunkWeights<P>(kind: StripKind, strips: seq<StripIn>, vb: seq<CachedVertex<P>>,
                             wb: seq<WeightList>, w0: seq<WeightList>, r: DedupAcc<P>)
    requires |wb| == |vb|
    requires DedupFrom(kind, strips, 0, 0, DedupAcc([], [], [], w0), vb, wb) == Ok(r)
    ensures |r.weights| == |w0| + |r.verts|
    ensures forall p :: 0 <= p < |r.verts| ==> FromSomeFirstCorner(kind, strips, vb, wb, r.verts[p], r.weights[|w0| + p])
  {
    var a0: DedupAcc<P> := DedupAcc([], [], [], w0);
    assert DedupInv(kind, strips, 0, 0, a0, vb, w0);
    DedupFromWeights(kind, strips, 0, 0, a0, vb, wb, w0, r);
    forall p | 0 <= p < |r.verts|
      ensures FromSomeFirstCorner(kind, strips, vb, wb, r.verts[p], r.weights[|w0| + p])
    {
      assert SourcedBefore(kind, strips, |strips|, 0, vb, wb, r.verts[p], r.weights[|w0| + p]);
    }
  }

  /** `w` is the weight-buffer list of a vertex-buffer cell holding the
      position and normal of `v`. */
  ghost predicate CellFor<P>(vb: seq<CachedVertex<P>>, wb: seq<WeightList>, v: VertexData<P>, w: WeightList) {
    exists c :: 0 <= c < |vb| && c < |wb| && vb[c].pn == v.pn && w == wb[c]
  }

  /** Weight list q belongs to vertex q. */
  ghost predicate WeightsMatch<P>(vs: seq<VertexData<P>>, ws: seq<WeightList>, vb: seq<CachedVertex<P>>, wb: seq<WeightList>) {
    |ws| == |vs| && forall q :: 0 <= q < |vs| ==> CellFor(vb, wb, vs[q], ws[q])
  }

  lemma WeightsMatchAppend<P>(a: seq<VertexData<P>>, x: seq<WeightList>, b: seq<VertexData<P>>, y: seq<WeightList>,
                              vb: seq<CachedVertex<P>>, wb: seq<WeightList>)
    requires WeightsMatch(a, x, vb, wb) && WeightsMatch(b, y, vb, wb)
    ensures WeightsMatch(a + b, x + y, vb, wb)
  {
    forall q | 0 <= q < |a + b|
      ensures CellFor(vb, wb, (a + b)[q], (x + y)[q])
    {
      if q < |a| {
        assert (a + b)[q] == a[q] && (x + y)[q] == x[q];
      } else {
        assert (a + b)[q] == b[q - |a|] && (x + y)[q] == y[q - |a|];
      }
    }
  }

  /** The chunk's weight lists match its vertices. */
  lemma DedupChunkMatch<P>(kind: StripKind, strips: seq<StripIn>, vb: seq<CachedVertex<P>>,
                           wb: seq<WeightList>, w0: seq<WeightList>, r: DedupAcc<P>)
    requires |wb| == |vb|
    requires DedupFrom(kind, strips, 0, 0, DedupAcc([], [], [], w0), vb, wb) == Ok(r)
    ensures |r.weights| == |w0| + |r.verts| && r.weights[..|w0|] == w0
    ensures WeightsMatch(r.verts, r.weights[|w0|..], vb, wb)
  {
    DedupChunkWeights(kind, strips, vb, wb, w0, r);
    DedupChunkProperties(kind, strips, vb, wb, w0, r);
    forall q | 0 <= q < |r.verts|
      ensures CellFor(vb, wb, r.verts[q], r.weights[|w0|..][q])
    {
      var t, j :| FromFirstCorner(kind, strips, t, j, vb, wb, r.verts[q], r.weights[|w0| + q]);
      var c := strips[t].indexes[j];
      assert vb[c].pn == r.verts[q].pn && r.weights[|w0|..][q] == wb[c];
    }
  }

  /** One corner looked up without error: the run goes on from the next
      corner with the corner added. */
  lemma DedupCorner<P>(kind: StripKind, strips: seq<StripIn>, s: nat, k: nat, acc: DedupAcc<P>,
                       vb: seq<CachedVertex<P>>, wb: seq<WeightList>)
    requires |wb| == |vb| && s < |strips| && k < |strips[s].indexes|
    requires CornerVertex(kind, strips[s], k, vb).Ok?
    ensures DedupFrom(kind, strips, s, k, acc, vb, wb)
         == DedupFrom(kind, strips, s, k + 1, AddCorner(acc, CornerVertex(kind, strips[s], k, vb).value, wb[strips[s].indexes[k]]), vb, wb)
  {
  }

  /** The corner loop of one strip: on success the strip is closed and the
      run goes on from the next strip; a corner that cannot be looked up is
      the run's error. */
  method DedupStrip<P(==)>(kind: StripKind, strips: seq<StripIn>, s: nat, acc0: DedupAcc<P>,
                           vb: seq<CachedVertex<P>>, wb: seq<WeightList>) returns (r: Result<DedupAcc<P>>)
    requires |wb| == |vb| && s < |strips| && acc0.cur == []
    ensures r.Err? ==> DedupFrom(kind, strips, s, 0, acc0, vb, wb) == r
    ensures r.Ok? ==> r.value.cur == []
    ensures r.Ok? ==> DedupFrom(kind, strips, s, 0, acc0, vb, wb) == DedupFrom(kind, strips, s + 1, 0, r.value, vb, wb)
  {
    var st := strips[s];
    var acc := acc0;
    var k := 0;
    while k < |st.indexes|
      invariant 0 <= k <= |st.indexes|
      invariant DedupFrom(kind, strips, s, 0, acc0, vb, wb) == DedupFrom(kind, strips, s, k, acc, vb, wb)
    {
      var c := CornerVertex(kind, st, k, vb);
      if c.Err? {
        return Err(c.fault);
      }
      DedupCorner(kind, strips, s, k, acc, vb, wb);
      var v := c.value;
      ghost var before := acc;
      if v in acc.verts {
        acc := acc.(cur := acc.cur + [IndexOf(acc.verts, v) % 0x1_0000]);
      } else {
        acc := acc.(cur := acc.cur + [|acc.verts| % 0x1_0000], verts := acc.verts + [v],
                    weights := acc.weights + [wb[st.indexes[k]]]);
      }
      assert acc == AddCorner(before, v, wb[st.indexes[k]]);
      k := k + 1;
    }
    r := Ok(acc.(done := acc.done + [StripOut(acc.cur, st.reversed)], cur := []));
  }

  /** The strip-chunk loop: every corner of every strip in turn. */
  method DedupStrips<P(==)>(kind: StripKind, strips: seq<StripIn>, vb: seq<CachedVertex<P>>,
                            wb: seq<WeightList>, weights: seq<WeightList>) returns (r: Result<DedupAcc<P>>)
    requires |wb| == |vb|
    ensures r == DedupFrom(kind, strips, 0, 0, DedupAcc([], [], [], weights), vb, wb)
  {
    var acc := DedupAcc([], [], [], weights);
    var s := 0;
    while s < |strips|
      invariant 0 <= s <= |strips| && acc.cur == []
      invariant DedupFrom(kind, strips, 0, 0, DedupAcc([], [], [], weights), vb, wb)
             == DedupFrom(kind, strips, s, 0, acc, vb, wb)
    {
      var res := DedupStrip(kind, strips, s, acc, vb, wb);
      if res.Err? {
        return res;
      }
      acc := res.value;
      s := s + 1;
    }
    r := Ok(acc);
  }

  // ---------------------------------------------------------------------------
  // The walk

  /** A poly-cache slot: the list it was stored from and where to resume. */
  datatype CachedPoly = CachedPoly(polys: seq<PolyChunk>, index: nat)

  /** One output mesh: the material as it stood at its strip chunk, its
      strips and vertices, and whether the vertices carry UVs and colours. */
  datatype MeshInfo<M, P> = MeshInfo(material: M, polys: seq<StripOut>, verts: seq<VertexData<P>>, hasUV: bool, hasVColor: bool)

  /** What the walk reads and writes besides its result: the poly cache,
      the material buffer and the walk's weight list. */
  datatype WalkState<M> = WalkState(cache: seq<Option<CachedPoly>>, material: M, weights: seq<WeightList>)

  /** Walking `list` from chunk `i`: every chunk first updates the material;
      a cache-store chunk records the rest of the list and ends this walk; a
      cache-draw chunk walks the recorded list from its recorded position
      and goes on; a strip chunk adds one mesh. A draw nested `fuel` deep
      stands for the stack running out. */
  function Walk<M, P(==)>(st: WalkState<M>, list: seq<PolyChunk>, i: nat, fuel: nat,
                          vb: seq<CachedVertex<P>>, wb: seq<WeightList>, update: (M, PolyChunk) -> M)
    : (r: Result<(WalkState<M>, seq<MeshInfo<M, P>>)>)
    requires |wb| == |vb|
    decreases fuel, |list| - i
  {
    if i >= |list| then Ok((st, []))
    else
      var st1 := st.(material := update(st.material, list[i]));
      match list[i]
      case CachePolygonList(n) =>
        if !(0 <= n < |st1.cache|) then Err(IndexOutOfRange)
        else Ok((st1.(cache := st1.cache[n := Some(CachedPoly(list, i + 1))]), []))
      case DrawPolygonList(n) =>
        if !(0 <= n < |st1.cache|) then Err(IndexOutOfRange)
        else if st1.cache[n].None? then Err(NullReference)
        else if fuel == 0 then Err(StackOverflow)
        else
          var inner := Walk(st1, st1.cache[n].value.polys, st1.cache[n].value.index, fuel - 1, vb, wb, update);
          if inner.Err? then Err(inner.fault)
          else
            var rest := Walk(inner.value.0, list, i + 1, fuel, vb, wb, update);
            if rest.Err? then Err(rest.fault) else Ok((rest.value.0, inner.value.1 + rest.value.1))
      case StripChunk(kind, strips) =>
        var d := DedupFrom(kind, strips, 0, 0, DedupAcc([], [], [], st1.weights), vb, wb);
        if d.Err? then Err(d.fault)
        else
          var mesh := MeshInfo(st1.material, d.value.done, d.value.verts, HasUV(kind), HasVColor(kind));
          var rest := Walk(st1.(weights := d.value.weights), list, i + 1, fuel, vb, wb, update);
          if rest.Err? then Err(rest.fault) else Ok((rest.value.0, [mesh] + rest.value.1))
      case OtherChunk(_) =>
        Walk(st1, list, i + 1, fuel, vb, wb, update)
  }

  /** The meshes found so far, put in front of the meshes still to come. */
  function Prefix<M, P>(ms: seq<MeshInfo<M, P>>, w: Result<(WalkState<M>, seq<MeshInfo<M, P>>)>)
    : Result<(WalkState<M>, seq<MeshInfo<M, P>>)>
  {
    if w.Err? then w else Ok((w.value.0, ms + w.value.1))
  }

  /** Meshes put in front in two steps are put in front at once. */
  lemma PrefixTwice<M, P>(a: seq<MeshInfo<M, P>>, b: seq<MeshInfo<M, P>>, w: Result<(WalkState<M>, seq<MeshInfo<M, P>>)>)
    ensures Prefix(a, Prefix(b, w)) == Prefix(a + b, w)
  {
    if w.Ok? {
      assert a + (b + w.value.1) == (a + b) + w.value.1;
    }
  }

  /** A walk at a cache-draw chunk whose recorded list walks without error:
      that list's meshes come first, then the rest of this list's. */
  lemma WalkDraw<M, P>(st: WalkState<M>, list: seq<PolyChunk>, i: nat, fuel: nat,
                           vb: seq<CachedVertex<P>>, wb: seq<WeightList>, update: (M, PolyChunk) -> M)
    requires |wb| == |vb| && i < |list| && list[i].DrawPolygonList?
    requires var st1 := st.(material := update(st.material, list[i]));
      0 <= list[i].list < |st1.cache| && st1.cache[list[i].list].Some? && fuel > 0
    ensures var st1 := st.(material := update(st.material, list[i]));
      var c := st1.cache[list[i].list].value;
      var inner := Walk(st1, c.polys, c.index, fuel - 1, vb, wb, update);
      Walk(st, list, i, fuel, vb, wb, update)
        == if inner.Err? then Err(inner.fault) else Prefix(inner.value.1, Walk(inner.value.0, list, i + 1, fuel, vb, wb, update))
  {
  }

  /** A walk at a strip chunk whose strips deduplicate without error: the
      chunk's mesh comes first, then the rest of the list's. */
  lemma WalkStrip<M, P>(st: WalkState<M>, list: seq<PolyChunk>, i: nat, fuel: nat,
                            vb: seq<CachedVertex<P>>, wb: seq<WeightList>, update: (M, PolyChunk) -> M)
    requires |wb| == |vb| && i < |list| && list[i].StripChunk?
    ensures var st1 := st.(material := update(st.material, list[i]));
      var (kind, strips) := (list[i].kind, list[i].strips);
      var d := DedupFrom(kind, strips, 0, 0, DedupAcc([], [], [], st1.weights), vb, wb);
      Walk(st, list, i, fuel, vb, wb, update)
        == if d.Err? then Err(d.fault)
           else Prefix([MeshInfo(st1.material, d.value.done, d.value.verts, HasUV(kind), HasVColor(kind))],
                       Walk(st1.(weights := d.value.weights), list, i + 1, fuel, vb, wb, update))
  {
  }

  /** The vertices of all meshes, mesh after mesh. */
  function AllVerts<M, P>(ms: seq<MeshInfo<M, P>>): (r: seq<VertexData<P>>)
    ensures ms == [] ==> r == []
  {
    if ms == [] then [] else AllVerts(ms[..|ms| - 1]) + ms[|ms| - 1].verts
  }

  function TotalVerts<M, P>(ms: seq<MeshInfo<M, P>>): nat {
    |AllVerts(ms)|
  }

  lemma {:induction false} AllVertsAppend<M, P>(a: seq<MeshInfo<M, P>>, b: seq<MeshInfo<M, P>>)
    ensures AllVerts(a + b) == AllVerts(a) + AllVerts(b)
    decreases |b|
  {
    if b != [] {
      var n := |b| - 1;
      assert (a + b)[..|a + b| - 1] == a + b[..n];
      AllVertsAppend(a, b[..n]);
    } else {
      assert a + b == a;
    }
  }

  lemma TotalVertsAppend<M, P>(a: seq<MeshInfo<M, P>>, b: seq<MeshInfo<M, P>>)
    ensures TotalVerts(a + b) == TotalVerts(a) + TotalVerts(b)
  {
    AllVertsAppend(a, b);
  }

  /** Vertex v of mesh m sits at position (vertices of meshes before m) + v
      of the flattened list. */
  lemma AllVertsAt<M, P>(ms: seq<MeshInfo<M, P>>, m: int, v: int)
    requires 0 <= m < |ms| && 0 <= v < |ms[m].verts|
    ensures TotalVerts(ms[..m]) + v < TotalVerts(ms)
    ensures AllVerts(ms)[TotalVerts(ms[..m]) + v] == ms[m].verts[v]
  {
    assert ms[..m + 1] + ms[m + 1..] == ms;
    assert ms[..m + 1][..m] == ms[..m];
    AllVertsAppend(ms[..m + 1], ms[m + 1..]);
  }

  /** A weight list that grew by lists matching `a`, then by lists
      matching `b`, grew by lists matching `a + b`. */
  lemma WeightsGrowTwice<P>(w0: seq<WeightList>, w1: seq<WeightList>, w2: seq<WeightList>,
                            a: seq<VertexData<P>>, b: seq<VertexData<P>>, vb: seq<CachedVertex<P>>, wb: seq<WeightList>)
    requires |w0| <= |w1| <= |w2| && w1[..|w0|] == w0 && w2[..|w1|] == w1
    requires WeightsMatch(a, w1[|w0|..], vb, wb) && WeightsMatch(b, w2[|w1|..], vb, wb)
    ensures |w2| == |w0| + |a + b| && w2[..|w0|] == w0
    ensures WeightsMatch(a + b, w2[|w0|..], vb, wb)
  {
    assert w2[..|w0|] == w1[..|w0|];
    assert w2[|w0|..] == w1[|w0|..] + w2[|w1|..] by {
      assert w2 == w1 + w2[|w1|..];
      assert w1 == w0 + w1[|w0|..];
    }
    WeightsMatchAppend(a, w1[|w0|..], b, w2[|w1|..], vb, wb);
  }

  /** The walk's weight list keeps what it had and gains exactly one entry
      per vertex of the meshes it returns, in mesh order. */
  lemma {:induction false} WalkWeightsAlign<M, P>(st: WalkState<M>, list: seq<PolyChunk>, i: nat, fuel: nat,
                                                  vb: seq<CachedVertex<P>>, wb: seq<WeightList>, update: (M, PolyChunk) -> M)
    requires |wb| == |vb|
    ensures Walk(st, list, i, fuel, vb, wb, update).Ok? ==>
      var (st', ms) := Walk(st, list, i, fuel, vb, wb, update).value;
      |st'.weights| == |st.weights| + TotalVerts(ms) && st'.weights[..|st.weights|] == st.weights &&
      WeightsMatch(AllVerts(ms), st'.weights[|st.weights|..], vb, wb)
    decreases fuel, |list| - i, 1
  {
    if i < |list| && Walk(st, list, i, fuel, vb, wb, update).Ok? {
      match list[i]
      case CachePolygonList(n) =>
      case DrawPolygonList(n) =>
        DrawWeightsAlign(st, list, i, fuel, vb, wb, update);
      case StripChunk(kind, strips) =>
        StripWeightsAlign(st, list, i, fuel, vb, wb, update);
      case OtherChunk(_) =>
        WalkWeightsAlign(st.(material := update(st.material, list[i])), list, i + 1, fuel, vb, wb, update);
    }
  }

  /** WalkWeightsAlign for a cache-draw chunk: the recorded list's meshes,
      then the rest of this list's. */
  lemma {:induction false} DrawWeightsAlign<M, P>(st: WalkState<M>, list: seq<PolyChunk>, i: nat, fuel: nat,
                                                  vb: seq<CachedVertex<P>>, wb: seq<WeightList>, update: (M, PolyChunk) -> M)
    requires |wb| == |vb| && i < |list| && list[i].DrawPolygonList?
    requires Walk(st, list, i, fuel, vb, wb, update).Ok?
    ensures var (st', ms) := Walk(st, list, i, fuel, vb, wb, update).value;
      |st'.weights| == |st.weights| + TotalVerts(ms) && st'.weights[..|st.weights|] == st.weights &&
      WeightsMatch(AllVerts(ms), st'.weights[|st.weights|..], vb, wb)
    decreases fuel, |list| - i, 0
  {
    var st1 := st.(material := update(st.material, list[i]));
    var n := list[i].list;
    var inner := Walk(st1, st1.cache[n].value.polys, st1.cache[n].value.index, fuel - 1, vb, wb, update);
    WalkWeightsAlign(st1, st1.cache[n].value.polys, st1.cache[n].value.index, fuel - 1, vb, wb, update);
    WalkWeightsAlign(inner.value.0, list, i + 1, fuel, vb, wb, update);
    var rest := Walk(inner.value.0, list, i + 1, fuel, vb, wb, update);
    AllVertsAppend(inner.value.1, rest.value.1);
    WeightsGrowTwice(st.weights, inner.value.0.weights, rest.value.0.weights,
                     AllVerts(inner.value.1), AllVerts(rest.value.1), vb, wb);
  }

  /** WalkWeightsAlign for a strip chunk: one mesh whose vertices each added
      one weight list, then the rest of the list's meshes. */
  lemma {:induction false} StripWeightsAlign<M, P>(st: WalkState<M>, list: seq<PolyChunk>, i: nat, fuel: nat,
                                                   vb: seq<CachedVertex<P>>, wb: seq<WeightList>, update: (M, PolyChunk) -> M)
    requires |wb| == |vb| && i < |list| && list[i].StripChunk?
    requires Walk(st, list, i, fuel, vb, wb, update).Ok?
    ensures var (st', ms) := Walk(st, list, i, fuel, vb, wb, update).value;
      |st'.weights| == |st.weights| + TotalVerts(ms) && st'.weights[..|st.weights|] == st.weights &&
      WeightsMatch(AllVerts(ms), st'.weights[|st.weights|..], vb, wb)
    decreases fuel, |list| - i, 0
  {
    var st1 := st.(material := update(st.material, list[i]));
    var kind, strips := list[i].kind, list[i].strips;
    var d := DedupFrom(kind, strips, 0, 0, DedupAcc([], [], [], st1.weights), vb, wb);
    DedupChunkProperties(kind, strips, vb, wb, st1.weights, d.value);
    var mesh := MeshInfo(st1.material, d.value.done, d.value.verts, HasUV(kind), HasVColor(kind));
    WalkWeightsAlign(st1.(weights := d.value.weights), list, i + 1, fuel, vb, wb, update);
    var rest := Walk(st1.(weights := d.value.weights), list, i + 1, fuel, vb, wb, update);
    DedupChunkMatch(kind, strips, vb, wb, st1.weights, d.value);
    AllVertsAppend([mesh], rest.value.1);
    assert AllVerts([mesh]) == mesh.verts by { assert [mesh][..0] == []; }
    WeightsGrowTwice(st.weights, d.value.weights, rest.value.0.weights, mesh.verts, AllVerts(rest.value.1), vb, wb);
  }

  /** Export walks an attach's poly list from chunk 0 with an empty weight
      list, then hands mesh m's vertex v the weight list at position
      (vertices of meshes before m) + v: that position always exists, and
      the list there is the weight-buffer list of a cell holding the
      vertex's position and normal. */
  lemma ExportWeightIndexInRange<M, P>(st: WalkState<M>, list: seq<PolyChunk>, fuel: nat,
                                       vb: seq<CachedVertex<P>>, wb: seq<WeightList>, update: (M, PolyChunk) -> M,
                                       m: int, v: int)
    requires |wb| == |vb| && st.weights == []
    requires Walk(st, list, 0, fuel, vb, wb, update).Ok?
    requires 0 <= m < |Walk(st, list, 0, fuel, vb, wb, update).value.1|
    requires 0 <= v < |Walk(st, list, 0, fuel, vb, wb, update).value.1[m].verts|
    ensures TotalVerts(Walk(st, list, 0, fuel, vb, wb, update).value.1[..m]) + v
          < |Walk(st, list, 0, fuel, vb, wb, update).value.0.weights|
    ensures CellFor(vb, wb, Walk(st, list, 0, fuel, vb, wb, update).value.1[m].verts[v],
                    Walk(st, list, 0, fuel, vb, wb, update).value.0.weights[
                      TotalVerts(Walk(st, list, 0, fuel, vb, wb, update).value.1[..m]) + v])
  {
    var (st', ms) := Walk(st, list, 0, fuel, vb, wb, update).value;
    WalkWeightsAlign(st, list, 0, fuel, vb, wb, update);
    AllVertsAt(ms, m, v);
    assert st'.weights[0..] == st'.weights;
  }

  /** `ws` is what mesh n's vertices read: vertex i gets the entry at
      position (vertices of meshes before n) + i. */
  predicate ReadsAt<M, P>(ms: seq<MeshInfo<M, P>>, weights: seq<WeightList>, n: int, ws: seq<WeightList>)
    requires 0 <= n < |ms|
  {
    |ws| == |ms[n].verts| &&
    forall i :: 0 <= i < |ws| ==> TotalVerts(ms[..n]) + i < |weights| && ws[i] == weights[TotalVerts(ms[..n]) + i]
  }

  /** The per-mesh vertex weights export reads: mesh m's vertex i gets the
      entry at position vertind + i, vertind counting the vertices of the
      meshes before; a position past the end is an error. */
  method MeshVertexWeights<M, P>(ms: seq<MeshInfo<M, P>>, weights: seq<WeightList>) returns (r: Result<seq<seq<WeightList>>>)
    ensures r.Ok? <==> TotalVerts(ms) <= |weights|
    ensures r.Err? ==> r.fault == IndexOutOfRange
    ensures r.Ok? ==> |r.value| == |ms| && forall m :: 0 <= m < |ms| ==> ReadsAt(ms, weights, m, r.value[m])
  {
    var out: seq<seq<WeightList>> := [];
    var vertind := 0;
    var m := 0;
    while m < |ms|
      invariant 0 <= m <= |ms| && |out| == m
      invariant vertind == TotalVerts(ms[..m]) <= |weights|
      invariant forall n :: 0 <= n < m ==> ReadsAt(ms, weights, n, out[n])
    {
      assert TotalVerts(ms[..m + 1]) == vertind + |ms[m].verts| by {
        assert ms[..m + 1] == ms[..m] + [ms[m]];
        TotalVertsAppend(ms[..m], [ms[m]]);
        assert AllVerts([ms[m]]) == ms[m].verts by { assert [ms[m]][..0] == []; }
      }
      if vertind + |ms[m].verts| > |weights| {
        TotalVertsGrow(ms, m + 1);
        return Err(IndexOutOfRange);
      }
      var ws := weights[vertind..vertind + |ms[m].verts|];
      assert ReadsAt(ms, weights, m, ws);
      out := out + [ws];
      vertind := vertind + |ms[m].verts|;
      m := m + 1;
    }
    assert ms[..m] == ms;
    r := Ok(out);
  }

  /** Counting more meshes counts no fewer vertices. */
  lemma TotalVertsGrow<M, P>(ms: seq<MeshInfo<M, P>>, n: int)
    requires 0 <= n <= |ms|
    ensures TotalVerts(ms[..n]) <= TotalVerts(ms)
  {
    assert ms[..n] + ms[n..] == ms;
    TotalVertsAppend(ms[..n], ms[n..]);
  }

  /** The export context for poly chunks: the poly cache, the material
      buffer and the weight list the walk fills. */
  class PolyWalker<M, P(==)> {
    const polyCache: array<Option<CachedPoly>>
    var material: M
    var weights: seq<WeightList>

    constructor (initial: M)
      ensures polyCache.Length == PolyCacheSize && fresh(polyCache)
      ensures forall n :: 0 <= n < polyCache.Length ==> polyCache[n] == None
      ensures material == initial && weights == []
    {
      polyCache := new Option<CachedPoly>[PolyCacheSize](_ => None);
      material := initial;
      weights := [];
    }

    function State(): WalkState<M>
      reads this, polyCache
    {
      WalkState(polyCache[..], material, weights)
    }

    /** Walks `list` from `start`, filling the weight list and the cache and
        moving the material buffer along; returns the meshes in order. */
    method ProcessPolyList(list: seq<PolyChunk>, start: nat, fuel: nat,
                           vb: seq<CachedVertex<P>>, wb: seq<WeightList>, update: (M, PolyChunk) -> M)
      returns (r: Result<seq<MeshInfo<M, P>>>)
      requires |wb| == |vb|
      modifies this, polyCache
      decreases fuel
      ensures r.Ok? <==> Walk(old(State()), list, start, fuel, vb, wb, update).Ok?
      ensures r.Ok? ==> r.value == Walk(old(State()), list, start, fuel, vb, wb, update).value.1
      ensures r.Ok? ==> State() == Walk(old(State()), list, start, fuel, vb, wb, update).value.0
      ensures r.Err? ==> r.fault == Walk(old(State()), list, start, fuel, vb, wb, update).fault
    {
      var result: seq<MeshInfo<M, P>> := [];
      var i := start;
      assert Walk(State(), list, i, fuel, vb, wb, update).Ok? ==>
        [] + Walk(State(), list, i, fuel, vb, wb, update).value.1 == Walk(State(), list, i, fuel, vb, wb, update).value.1;
      while i < |list|
        invariant Walk(old(State()), list, start, fuel, vb, wb, update)
               == Prefix(result, Walk(State(), list, i, fuel, vb, wb, update))
        decreases |list| - i
      {
        var chunk := list[i];
        ghost var before := State();
        material := update(material, chunk);
        assert State() == before.(material := update(before.material, chunk));
        match chunk {
          case CachePolygonList(n) =>
            if !(0 <= n < polyCache.Length) {
              return Err(IndexOutOfRange);
            }
            polyCache[n] := Some(CachedPoly(list, i + 1));
            return Ok(result);
          case DrawPolygonList(n) =>
            if !(0 <= n < polyCache.Length) {
              return Err(IndexOutOfRange);
            }
            if polyCache[n].None? {
              return Err(NullReference);
            }
            if fuel == 0 {
              return Err(StackOverflow);
            }
            var cached := polyCache[n].value;
            WalkDraw(before, list, i, fuel, vb, wb, update);
            var inner := ProcessPolyList(cached.polys, cached.index, fuel - 1, vb, wb, update);
            if inner.Err? {
              return Err(inner.fault);
            }
            PrefixTwice(result, inner.value, Walk(State(), list, i + 1, fuel, vb, wb, update));
            result := result + inner.value;
          case StripChunk(kind, strips) =>
            WalkStrip(before, list, i, fuel, vb, wb, update);
            var d := DedupStrips(kind, strips, vb, wb, weights);
            if d.Err? {
              return Err(d.fault);
            }
            var mesh := MeshInfo(material, d.value.done, d.value.verts, HasUV(kind), HasVColor(kind));
            weights := d.value.weights;
            PrefixTwice(result, [mesh], Walk(State(), list, i + 1, fuel, vb, wb, update));
            result := result + [mesh];
          case OtherChunk(_) =>
        }
        i := i + 1;
      }
      r := Ok(result);
    }

    /** Export of one attach's poly chunks: a fresh weight list, no meshes
        when the attach has no poly list, else the walk from chunk 0; then
        each mesh with the weight lists its vertices read, each the
        weight-buffer list of a cell holding that vertex's position and
        normal. */
    method ExportAttachMeshes(poly: Option<seq<PolyChunk>>, fuel: nat,
                              vb: seq<CachedVertex<P>>, wb: seq<WeightList>, update: (M, PolyChunk) -> M)
      returns (r: Result<seq<(MeshInfo<M, P>, seq<WeightList>)>>)
      requires |wb| == |vb|
      modifies this, polyCache
      ensures poly.None? ==> r == Ok([])
      ensures poly.Some? ==>
        var w := Walk(old(State()).(weights := []), poly.value, 0, fuel, vb, wb, update);
        (r.Ok? <==> w.Ok?) && (r.Err? ==> r.fault == w.fault) &&
        (r.Ok? ==>
          (State() == w.value.0 && |r.value| == |w.value.1| &&
           forall m :: 0 <= m < |r.value| ==> r.value[m].0 == w.value.1[m]))
      ensures r.Ok? ==> forall m :: 0 <= m < |r.value| ==>
        |r.value[m].1| == |r.value[m].0.verts| &&
        forall v :: 0 <= v < |r.value[m].1| ==> CellFor(vb, wb, r.value[m].0.verts[v], r.value[m].1[v])
    {
      weights := [];
      if poly.None? {
        return Ok([]);
      }
      ghost var s0 := State();
      var res := ProcessPolyList(poly.value, 0, fuel, vb, wb, update);
      if res.Err? {
        return Err(res.fault);
      }
      var ms := res.value;
      WalkWeightsAlign(s0, poly.value, 0, fuel, vb, wb, update);
      var mw := MeshVertexWeights(ms, weights);
      var out := seq(|ms|, m requires 0 <= m < |ms| => (ms[m], mw.value[m]));
      forall m, v | 0 <= m < |ms| && 0 <= v < |ms[m].verts|
        ensures CellFor(vb, wb, ms[m].verts[v], out[m].1[v])
      {
        ExportWeightIndexInRange(s0, poly.value, fuel, vb, wb, update, m, v);
        assert ReadsAt(ms, weights, m, mw.value[m]);
      }
      r := Ok(out);
    }
  }
}
