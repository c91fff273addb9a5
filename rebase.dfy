/** Weighted import places each mesh in the vertex cache: it reserves the
    mesh's vertex count, moves the mesh's vertex-chunk index offsets and its
    strip indices by the reserved start, and at the end of the node releases
    the handles it collected. */
module Rebase {
  import opened Wrappers
  import opened VertexCache
  import Strips

  /** Every index moved by `vstart`, as `ushort += (ushort)vstart` does. */
  function Shifted(s: seq<int>, vstart: int): (r: seq<int>)
    ensures |r| == |s|
  {
    seq(|s|, i requires 0 <= i < |s| => Strips.UShort(s[i] + Strips.UShort(vstart)))
  }

  /** Indices local to a mesh of `count` vertices, moved by a start the
      cache handed out, stay exact (no ushort wrap) and land inside the
      reserved range [vstart, vstart + count). */
  lemma ShiftedWithinReservation(s: seq<int>, vstart: int, count: int)
    requires forall i :: 0 <= i < |s| ==> 0 <= s[i] < count
    requires 0 <= vstart && vstart + count <= MaxIndex
    ensures forall i :: 0 <= i < |s| ==> Shifted(s, vstart)[i] == s[i] + vstart
    ensures forall i :: 0 <= i < |s| ==> vstart <= Shifted(s, vstart)[i] < vstart + count
  {
  }

  /** Shifting by a start and then by another is shifting by their sum, as
      ushorts. */
  lemma ShiftedTwice(s: seq<int>, a: int, b: int)
    ensures Shifted(Shifted(s, a), b) == Shifted(s, a + b)
  {
    forall i | 0 <= i < |s| ensures Shifted(Shifted(s, a), b)[i] == Shifted(s, a + b)[i] {
      ModAdd(s[i], a, b);
    }
  }

  lemma ModAdd(x: int, a: int, b: int)
    ensures Strips.UShort(Strips.UShort(x + Strips.UShort(a)) + Strips.UShort(b)) == Strips.UShort(x + Strips.UShort(a + b))
  {
    var m := 0x1_0000;
    assert (x + a % m) % m + b % m == x + a + b - m * ((x + a % m) / m) - m * (a / m) - m * (b / m);
    assert (x + (a + b) % m) == x + a + b - m * ((a + b) / m);
  }

  /** In-place loop over one strip's index array. */
  method ShiftIndexes(a: array<int>, vstart: int)
    modifies a
    ensures a[..] == Shifted(old(a[..]), vstart)
  {
    var i := 0;
    while i < a.Length
      invariant 0 <= i <= a.Length
      invariant forall k :: 0 <= k < i ==> a[k] == Strips.UShort(old(a[k]) + Strips.UShort(vstart))
      invariant forall k :: i <= k < a.Length ==> a[k] == old(a[k])
    {
      a[i] := Strips.UShort(a[i] + Strips.UShort(vstart));
      i := i + 1;
    }
  }

  /** The import-side mesh record the rebasing reads and updates. */
  class MeshData {
    const vertexCount: nat
    /** The first and last bone of a skinned mesh; None for a mesh with at most one weighted bone. */
    const firstNode: Option<string>
    const lastNode: Option<string>
    /** The index offsets of the mesh's vertex chunks, by the node they belong to. */
    var vertex: map<string, seq<int>>
    /** The index arrays of the mesh's strips, each its own array. */
    const strips: seq<array<int>>
    var cacheHandle: int

    ghost predicate Valid()
      reads this
    {
      forall i, j :: 0 <= i < j < |strips| ==> strips[i] != strips[j]
    }

    ghost function Footprint(): set<object>
      reads this
    {
      set k | 0 <= k < |strips| :: strips[k]
    }

    constructor (vertexCount: nat, firstNode: Option<string>, lastNode: Option<string>,
                 vertex: map<string, seq<int>>, strips: seq<array<int>>)
      requires forall i, j :: 0 <= i < j < |strips| ==> strips[i] != strips[j]
      ensures Valid()
      ensures this.vertexCount == vertexCount && this.firstNode == firstNode && this.lastNode == lastNode
      ensures this.vertex == vertex && this.strips == strips && cacheHandle == 0
    {
      this.vertexCount := vertexCount;
      this.firstNode := firstNode;
      this.lastNode := lastNode;
      this.vertex := vertex;
      this.strips := strips;
      cacheHandle := 0;
    }

    /** Moves every strip index of the mesh by `vstart`. */
    method ShiftStrips(vstart: int)
      requires Valid()
      modifies Footprint()
      ensures forall k :: 0 <= k < |strips| ==> strips[k][..] == Shifted(old(strips[k][..]), vstart)
    {
      var k := 0;
      while k < |strips|
        invariant 0 <= k <= |strips|
        invariant forall j :: 0 <= j < k ==> strips[j][..] == Shifted(old(strips[j][..]), vstart)
        invariant forall j :: k <= j < |strips| ==> strips[j][..] == old(strips[j][..])
        modifies Footprint()
      {
        ShiftIndexes(strips[k], vstart);
        k := k + 1;
      }
    }

    /** A skinned mesh at its first bone: reserve its vertices, keep the
        handle, and move every vertex chunk and every strip by the start. */
    method RebaseSkinned(cache: VertexCacheManager) returns (r: Result<()>)
      requires Valid() && cache.Valid()
      modifies this, Footprint(), cache
      ensures cache.Valid()
      ensures r.Ok? <==> FirstFit(old(cache.entries), vertexCount, 0) + vertexCount <= MaxIndex
      ensures r.Err? ==> r.fault == CacheFull
      ensures r.Ok? ==>
        var vstart := FirstFit(old(cache.entries), vertexCount, 0);
        && cacheHandle == old(cache.handle)
        && cache.handle == old(cache.handle) + 1
        && cache.entries == InsertEntry(old(cache.entries), CacheEntry(vstart, vertexCount, old(cache.handle)))
        && vertex == (map n | n in old(vertex) :: Shifted(old(vertex)[n], vstart))
        && forall k :: 0 <= k < |strips| ==> strips[k][..] == Shifted(old(strips[k][..]), vstart)
    {
      var res := cache.Reserve(vertexCount);
      if res.Err? {
        return Err(res.fault);
      }
      var (vstart, h) := res.value;
      cacheHandle := h;
      vertex := map n | n in vertex :: Shifted(vertex[n], vstart);
      ShiftStrips(vstart);
      r := Ok(());
    }

    /** A mesh hung on the node itself: reserve its vertices, move the
        vertex chunks filed under the empty name (a mesh without them fails
        on the lookup) and every strip, and return the handle. */
    method RebaseUnskinned(cache: VertexCacheManager) returns (r: Result<int>)
      requires Valid() && cache.Valid()
      modifies this, Footprint(), cache
      ensures cache.Valid()
      ensures cacheHandle == old(cacheHandle)
      ensures FirstFit(old(cache.entries), vertexCount, 0) + vertexCount > MaxIndex ==> r == Err(CacheFull)
      ensures FirstFit(old(cache.entries), vertexCount, 0) + vertexCount <= MaxIndex ==>
        && cache.handle == old(cache.handle) + 1
        && cache.entries == InsertEntry(old(cache.entries),
                                        CacheEntry(FirstFit(old(cache.entries), vertexCount, 0), vertexCount, old(cache.handle)))
        && ("" !in old(vertex) ==> r == Err(KeyNotFound))
        && ("" in old(vertex) ==> r == Ok(old(cache.handle)))
      ensures r.Ok? ==>
        var vstart := FirstFit(old(cache.entries), vertexCount, 0);
        && vertex == old(vertex)["" := Shifted(old(vertex)[""], vstart)]
        && forall k :: 0 <= k < |strips| ==> strips[k][..] == Shifted(old(strips[k][..]), vstart)
    {
      var res := cache.Reserve(vertexCount);
      if res.Err? {
        return Err(res.fault);
      }
      var (vstart, h) := res.value;
      if "" !in vertex {
        return Err(KeyNotFound);
      }
      vertex := vertex["" := Shifted(vertex[""], vstart)];
      ShiftStrips(vstart);
      r := Ok(h);
    }
  }

  /** Releasing handles one after another; the first unknown handle fails. */
  function ReleaseSeq(es: seq<CacheEntry>, hs: seq<int>): (r: Result<seq<CacheEntry>>)
    decreases |hs|
  {
    if hs == [] then Ok(es)
    else if !HasHandle(es, hs[0]) then Err(UnknownHandle)
    else ReleaseSeq(RemoveHandle(es, hs[0]), hs[1..])
  }

  /** Some entry carries handle `h`. */
  predicate HasHandle(es: seq<CacheEntry>, h: int) {
    exists k :: 0 <= k < |es| && es[k].handle == h
  }

  /** Releasing a held handle keeps the remaining handles distinct. */
  lemma RemoveHeldDistinct(es: seq<CacheEntry>, h: int)
    requires DistinctHandles(es) && HasHandle(es, h)
    ensures DistinctHandles(RemoveHandle(es, h))
  {
    var es' := RemoveHandle(es, h);
    var k :| 0 <= k < |es| && es[k].handle == h;
    RemoveHandleAt(es, h, k);
    assert forall i :: 0 <= i < |es'| ==> es'[i] == es[if i < k then i else i + 1];
  }

  /** After removing `h`, a handle is held exactly when it was held before
      and is not `h`. */
  lemma RemoveHandleHas(es: seq<CacheEntry>, h: int, g: int)
    ensures HasHandle(RemoveHandle(es, h), g) <==> HasHandle(es, g) && g != h
  {
    var es' := RemoveHandle(es, h);
    RemoveHandleMembers(es, h);
    if HasHandle(es', g) {
      var j :| 0 <= j < |es'| && es'[j].handle == g;
      assert es'[j] in es';
      var i :| 0 <= i < |es| && es[i] == es'[j];
    }
    if HasHandle(es, g) && g != h {
      var i :| 0 <= i < |es| && es[i].handle == g;
      assert es[i] in es;
      var j :| 0 <= j < |es'| && es'[j] == es[i];
    }
  }

  /** Releasing a held handle keeps the others distinct and held, and
      only them. */
  lemma RemoveHeldHandle(es: seq<CacheEntry>, h: int)
    requires DistinctHandles(es) && HasHandle(es, h)
    ensures DistinctHandles(RemoveHandle(es, h))
    ensures forall g :: HasHandle(RemoveHandle(es, h), g) <==> HasHandle(es, g) && g != h
    ensures forall x :: x in RemoveHandle(es, h) <==> x in es && x.handle != h
  {
    RemoveHeldDistinct(es, h);
    RemoveHandleMembers(es, h);
    forall g ensures HasHandle(RemoveHandle(es, h), g) <==> HasHandle(es, g) && g != h {
      RemoveHandleHas(es, h, g);
    }
  }

  /** With distinct handles, a run of releases succeeds exactly when every
      handle is held and none is released twice; the entries left are then
      exactly those whose handle was not released. */
  lemma {:induction false} ReleaseSeqMembers(es: seq<CacheEntry>, hs: seq<int>)
    requires DistinctHandles(es)
    ensures ReleaseSeq(es, hs).Ok? <==>
      (forall i :: 0 <= i < |hs| ==> HasHandle(es, hs[i])) &&
      (forall i, j :: 0 <= i < j < |hs| ==> hs[i] != hs[j])
    ensures ReleaseSeq(es, hs).Ok? ==>
      forall x :: x in ReleaseSeq(es, hs).value <==> x in es && x.handle !in hs
    ensures ReleaseSeq(es, hs).Err? ==> ReleaseSeq(es, hs).fault == UnknownHandle
    decreases |hs|
  {
    if hs != [] && HasHandle(es, hs[0]) {
      var h, rest := hs[0], hs[1..];
      RemoveHeldHandle(es, h);
      var es' := RemoveHandle(es, h);
      ReleaseSeqMembers(es', rest);
      assert ReleaseSeq(es, hs) == ReleaseSeq(es', rest);
      assert forall i :: 0 < i < |hs| ==> hs[i] == rest[i - 1];
      assert forall g :: g in hs <==> g == h || g in rest by {
        assert hs == [h] + rest;
      }
    }
  }

  /** The release loop at the end of a node. */
  method ReleaseAll(cache: VertexCacheManager, handles: seq<int>) returns (r: Result<()>)
    requires cache.Valid()
    modifies cache
    ensures cache.Valid() && cache.handle == old(cache.handle)
    ensures r.Ok? <==> ReleaseSeq(old(cache.entries), handles).Ok?
    ensures r.Err? ==> r.fault == UnknownHandle
    ensures r.Ok? ==> cache.entries == ReleaseSeq(old(cache.entries), handles).value
  {
    var i := 0;
    while i < |handles|
      invariant 0 <= i <= |handles|
      invariant cache.Valid() && cache.handle == old(cache.handle)
      invariant ReleaseSeq(old(cache.entries), handles) == ReleaseSeq(cache.entries, handles[i..])
    {
      assert handles[i..][0] == handles[i] && handles[i..][1..] == handles[i + 1..];
      ghost var es := cache.entries;
      var res := cache.Release(handles[i]);
      if res.Err? {
        assert ReleaseSeq(es, handles[i..]) == Err(UnknownHandle);
        return Err(res.fault);
      }
      assert ReleaseSeq(es, handles[i..]) == ReleaseSeq(RemoveHandle(es, handles[i]), handles[i + 1..]);
      i := i + 1;
    }
    r := Ok(());
  }
}
