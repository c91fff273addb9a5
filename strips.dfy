/** Import's triangle lists and strips. A mesh's faces become a list of
    ushort corner indices and a map from corner index to texture
    coordinate; the stripifier (a parameter here) turns the list into
    groups; each group becomes one strip, reversed when its first two
    indices repeat, with the repeat dropped and every index moved by the
    mesh's vertex offset. Texture coordinates are opaque values. */
module Strips {
  import opened Wrappers

  /** (ushort)x for a non-negative or negative int. */
  function UShort(x: int): (r: int)
    ensures 0 <= r < 0x1_0000
  {
    x % 0x1_0000
  }

  // ---------------------------------------------------------------------------
  // Triangle list and UV map

  /** Every face has three corners, and with UVs every corner indexes the
      mesh's first texture-coordinate channel. */
  predicate FacesOk<U>(faces: seq<seq<int>>, hasUV: bool, tc: seq<U>) {
    forall f :: 0 <= f < |faces| ==>
      |faces[f]| >= 3 && (hasUV ==> forall i :: 0 <= i < 3 ==> 0 <= faces[f][i] < |tc|)
  }

  /** The triangle list: corner i of face f, as a ushort, at position 3f + i. */
  function TriList(faces: seq<seq<int>>): (r: seq<int>)
    requires forall f :: 0 <= f < |faces| ==> |faces[f]| >= 3
    ensures |r| == 3 * |faces|
  {
    seq(3 * |faces|, k requires 0 <= k < 3 * |faces| => UShort(faces[k / 3][k % 3]))
  }

  /** The UV map: every corner writes its coordinate under its ushort index,
      face after face, so the last corner with a given index wins. */
  function UVMap<U>(faces: seq<seq<int>>, tc: seq<U>): map<int, U>
    requires FacesOk(faces, true, tc)
  {
    if faces == [] then map[]
    else
      var f := faces[|faces| - 1];
      UVMap(faces[..|faces| - 1], tc)[UShort(f[0]) := tc[f[0]]][UShort(f[1]) := tc[f[1]]][UShort(f[2]) := tc[f[2]]]
  }

  /** The UV map has an entry for exactly the indices of the triangle list. */
  lemma {:induction false} UVMapKeys<U>(faces: seq<seq<int>>, tc: seq<U>)
    requires FacesOk(faces, true, tc)
    ensures forall x :: x in UVMap(faces, tc) <==> x in TriList(faces)
  {
    if faces != [] {
      var n := |faces| - 1;
      var init := faces[..n];
      assert FacesOk(init, true, tc);
      UVMapKeys(init, tc);
      var t := TriList(faces);
      assert t == TriList(init) + [UShort(faces[n][0]), UShort(faces[n][1]), UShort(faces[n][2])];
    }
  }

  /** A face's three corners, as ushorts, after the triangles so far. */
  lemma TriListStep(faces: seq<seq<int>>, f: int)
    requires 0 <= f < |faces| && forall g :: 0 <= g <= f ==> |faces[g]| >= 3
    ensures TriList(faces[..f + 1]) == TriList(faces[..f]) + [UShort(faces[f][0]), UShort(faces[f][1]), UShort(faces[f][2])]
  {
    var a, b := TriList(faces[..f + 1]), TriList(faces[..f]) + [UShort(faces[f][0]), UShort(faces[f][1]), UShort(faces[f][2])];
    assert |a| == |b|;
    forall k | 0 <= k < |a|
      ensures a[k] == b[k]
    {
      if k < 3 * f {
        assert faces[..f + 1][k / 3] == faces[..f][k / 3];
      } else {
        assert k / 3 == f;
      }
    }
  }

  /** The corner loop for one face: each of the three corners appends its
      ushort index to the triangle list and, with UVs, first checks that it
      indexes the coordinate channel and writes the coordinate under it. */
  method AddCorners<U>(face: seq<int>, hasUV: bool, tc: seq<U>, tris: seq<int>, uvmap: map<int, U>)
    returns (r: Result<(seq<int>, map<int, U>)>)
    requires |face| >= 3
    ensures r.Ok? <==> (hasUV ==> forall j :: 0 <= j < 3 ==> 0 <= face[j] < |tc|)
    ensures r.Err? ==> r.fault == IndexOutOfRange
    ensures r.Ok? ==> r.value.0 == tris + [UShort(face[0]), UShort(face[1]), UShort(face[2])]
    ensures r.Ok? && hasUV ==>
      r.value.1 == uvmap[UShort(face[0]) := tc[face[0]]][UShort(face[1]) := tc[face[1]]][UShort(face[2]) := tc[face[2]]]
    ensures r.Ok? && !hasUV ==> r.value.1 == uvmap
  {
    var t, m := tris, uvmap;
    var i := 0;
    while i < 3
      invariant 0 <= i <= 3
      invariant hasUV ==> forall j :: 0 <= j < i ==> 0 <= face[j] < |tc|
      invariant i == 0 ==> t == tris
      invariant i == 1 ==> t == tris + [UShort(face[0])]
      invariant i == 2 ==> t == tris + [UShort(face[0]), UShort(face[1])]
      invariant i == 3 ==> t == tris + [UShort(face[0]), UShort(face[1]), UShort(face[2])]
      invariant !hasUV ==> m == uvmap
      invariant hasUV && i == 1 ==> m == uvmap[UShort(face[0]) := tc[face[0]]]
      invariant hasUV && i == 2 ==> m == uvmap[UShort(face[0]) := tc[face[0]]][UShort(face[1]) := tc[face[1]]]
      invariant hasUV && i == 3 ==> m == uvmap[UShort(face[0]) := tc[face[0]]][UShort(face[1]) := tc[face[1]]][UShort(face[2]) := tc[face[2]]]
      invariant hasUV && i == 0 ==> m == uvmap
    {
      var ind := UShort(face[i]);
      if hasUV {
        if !(0 <= face[i] < |tc|) {
          return Err(IndexOutOfRange);
        }
        m := m[ind := tc[face[i]]];
      }
      t := t + [ind];
      i := i + 1;
    }
    r := Ok((t, m));
  }

  /** The loop over faces and corners of ProcessMesh and AssimpImportChunk. */
  method BuildTriangleList<U>(faces: seq<seq<int>>, hasUV: bool, tc: seq<U>)
    returns (r: Result<(seq<int>, map<int, U>)>)
    ensures r.Ok? <==> FacesOk(faces, hasUV, tc)
    ensures r.Err? ==> r.fault == IndexOutOfRange
    ensures r.Ok? ==> r.value.0 == TriList(faces)
    ensures r.Ok? && hasUV ==> r.value.1 == UVMap(faces, tc)
    ensures r.Ok? && !hasUV ==> r.value.1 == map[]
  {
    var tris: seq<int> := [];
    var uvmap: map<int, U> := map[];
    var f := 0;
    while f < |faces|
      invariant 0 <= f <= |faces|
      invariant FacesOk(faces[..f], hasUV, tc)
      invariant tris == TriList(faces[..f])
      invariant hasUV ==> uvmap == UVMap(faces[..f], tc)
      invariant !hasUV ==> uvmap == map[]
    {
      var face := faces[f];
      if |face| < 3 {
        assert !FacesOk(faces, hasUV, tc) by { assert faces[f] == face; }
        return Err(IndexOutOfRange);
      }
      var c := AddCorners(face, hasUV, tc, tris, uvmap);
      if c.Err? {
        assert !FacesOk(faces, hasUV, tc) by { assert faces[f] == face; }
        return Err(IndexOutOfRange);
      }
      FacesOkStep(faces, f, hasUV, tc);
      TriListStep(faces, f);
      if hasUV {
        UVMapStep(faces, f, tc);
      }
      tris, uvmap := c.value.0, c.value.1;
      f := f + 1;
    }
    assert faces[..f] == faces;
    r := Ok((tris, uvmap));
  }

  /** One more face checked: the prefix checked so far grows by it. */
  lemma FacesOkStep<U>(faces: seq<seq<int>>, f: int, hasUV: bool, tc: seq<U>)
    requires 0 <= f < |faces| && FacesOk(faces[..f], hasUV, tc)
    requires |faces[f]| >= 3 && (hasUV ==> forall j :: 0 <= j < 3 ==> 0 <= faces[f][j] < |tc|)
    ensures FacesOk(faces[..f + 1], hasUV, tc)
  {
    var pre := faces[..f + 1];
    forall g | 0 <= g < |pre|
      ensures |pre[g]| >= 3 && (hasUV ==> forall i :: 0 <= i < 3 ==> 0 <= pre[g][i] < |tc|)
    {
      if g < f {
        assert pre[g] == faces[..f][g];
      }
    }
  }

  /** One more face: the UV map gains its three corners' coordinates. */
  lemma UVMapStep<U>(faces: seq<seq<int>>, f: int, tc: seq<U>)
    requires 0 <= f < |faces| && FacesOk(faces[..f], true, tc) && FacesOk(faces[..f + 1], true, tc)
    requires |faces[f]| >= 3 && 0 <= faces[f][0] < |tc| && 0 <= faces[f][1] < |tc| && 0 <= faces[f][2] < |tc|
    ensures UVMap(faces[..f + 1], tc) == UVMap(faces[..f], tc)[UShort(faces[f][0]) := tc[faces[f][0]]]
                                          [UShort(faces[f][1]) := tc[faces[f][1]]][UShort(faces[f][2]) := tc[faces[f][2]]]
  {
    var pre := faces[..f + 1];
    assert pre[..|pre| - 1] == faces[..f];
    assert pre[|pre| - 1] == faces[f];
  }

  // ---------------------------------------------------------------------------
  // One strip from one stripifier group

  /** A strip: the reversal flag, its indices and, with UVs, one coordinate per index. */
  datatype StripResult<U> = StripResult(reversed: bool, indexes: seq<int>, uvs: Option<seq<U>>)

  /** The group reads as reversed when its first two indices are equal. */
  predicate Reversed(group: seq<int>)
    requires |group| >= 2
  {
    group[1] == group[0]
  }

  /** The group's indices that make up the strip: all of them, or all but
      the first when the group is reversed. */
  function Body(group: seq<int>): (b: seq<int>)
    requires |group| >= 2
    ensures |b| == |group| - (if Reversed(group) then 1 else 0)
  {
    if Reversed(group) then group[1..] else group
  }

  /** The strip a group becomes: the body moved by `vertoff` (as a ushort)
      and, with UVs, the coordinate the map holds for each unmoved body
      index. Reading index 1 of a shorter group and a body index missing
      from the map fail as the indexers do. */
  function StripOf<U>(group: seq<int>, hasUV: bool, uvmap: map<int, U>, vertoff: int): (r: Result<StripResult<U>>)
    ensures r.Err? <==> |group| < 2 || (hasUV && exists j :: 0 <= j < |Body(group)| && Body(group)[j] !in uvmap)
    ensures r.Err? ==> r.fault == if |group| < 2 then IndexOutOfRange else KeyNotFound
    ensures r.Ok? ==> (r.value.reversed <==> group[0] == group[1])
    ensures r.Ok? ==> |r.value.indexes| == |group| - (if group[0] == group[1] then 1 else 0)
    ensures r.Ok? ==> (r.value.uvs.Some? <==> hasUV)
    ensures r.Ok? && hasUV ==> |r.value.uvs.value| == |r.value.indexes|
  {
    if |group| < 2 then Err(IndexOutOfRange)
    else
      var body := Body(group);
      if hasUV && !(forall j :: 0 <= j < |body| ==> body[j] in uvmap) then Err(KeyNotFound)
      else
        Ok(StripResult(Reversed(group),
                       seq(|body|, j requires 0 <= j < |body| => UShort(body[j] + vertoff)),
                       if hasUV then Some(seq(|body|, j requires 0 <= j < |body| && body[j] in uvmap => uvmap[body[j]]))
                       else None))
  }

  /** Undoing a strip: put back the repeated first index when the strip is
      reversed and move every index back by `vertoff`; for ushort input
      indices that do not wrap, this gives back the stripifier's group, and
      each coordinate is the map's entry for its original index. */
  lemma StripOfRestoresGroup<U>(group: seq<int>, hasUV: bool, uvmap: map<int, U>, vertoff: int)
    requires StripOf(group, hasUV, uvmap, vertoff).Ok?
    requires forall j :: 0 <= j < |group| ==> 0 <= group[j] && group[j] + vertoff < 0x1_0000
    requires 0 <= vertoff
    ensures var s := StripOf(group, hasUV, uvmap, vertoff).value;
      (if s.reversed then [group[0]] else []) + seq(|s.indexes|, j requires 0 <= j < |s.indexes| => s.indexes[j] - vertoff) == group
    ensures var s := StripOf(group, hasUV, uvmap, vertoff).value;
      hasUV ==> forall j :: 0 <= j < |s.indexes| ==> s.indexes[j] - vertoff in uvmap && s.uvs.value[j] == uvmap[s.indexes[j] - vertoff]
  {
    var s := StripOf(group, hasUV, uvmap, vertoff).value;
    var body := Body(group);
    assert forall j :: 0 <= j < |body| ==> s.indexes[j] - vertoff == body[j];
  }

  /** The loop that turns one group into a strip. */
  method PostProcessStrip<U>(group: seq<int>, hasUV: bool, uvmap: map<int, U>, vertoff: int)
    returns (r: Result<StripResult<U>>)
    ensures r == StripOf(group, hasUV, uvmap, vertoff)
  {
    if |group| < 2 {
      return Err(IndexOutOfRange);
    }
    var rev := group[1] == group[0];
    var indexes: seq<int> := [];
    var uvs: seq<U> := [];
    var j := if rev then 1 else 0;
    ghost var body := Body(group);
    while j < |group|
      invariant (if rev then 1 else 0) <= j <= |group|
      invariant |indexes| == |uvs| || !hasUV
      invariant indexes == seq(j - (if rev then 1 else 0), k requires 0 <= k < j - (if rev then 1 else 0) => UShort(body[k] + vertoff))
      invariant hasUV ==> forall k :: 0 <= k < j - (if rev then 1 else 0) ==> body[k] in uvmap
      invariant hasUV ==> uvs == seq(j - (if rev then 1 else 0), k requires 0 <= k < j - (if rev then 1 else 0) && body[k] in uvmap => uvmap[body[k]])
    {
      var vertexIndex := group[j];
      indexes := indexes + [UShort(vertexIndex + vertoff)];
      if hasUV {
        if vertexIndex !in uvmap {
          return Err(KeyNotFound);
        }
        uvs := uvs + [uvmap[vertexIndex]];
      }
      j := j + 1;
    }
    r := Ok(StripResult(rev, indexes, if hasUV then Some(uvs) else None));
  }

  // ---------------------------------------------------------------------------
  // A mesh's strips

  /** Every group in turn, stopping at the first that fails. */
  function StripsOf<U>(groups: seq<seq<int>>, hasUV: bool, uvmap: map<int, U>, vertoff: int): Result<seq<StripResult<U>>>
  {
    if groups == [] then Ok([])
    else
      var init := StripsOf(groups[..|groups| - 1], hasUV, uvmap, vertoff);
      if init.Err? then init
      else
        var s := StripOf(groups[|groups| - 1], hasUV, uvmap, vertoff);
        if s.Err? then Err(s.fault) else Ok(init.value + [s.value])
  }

  /** Faces to strips for one mesh: the triangle list and UV map, the
      stripifier's groups, and one strip per group with indices moved by
      `vertoff` (0 in ProcessMesh, the running vertex count in
      AssimpImportChunk). */
  method MeshStrips<U>(faces: seq<seq<int>>, hasUV: bool, tc: seq<U>, vertoff: int,
                       stripify: seq<int> -> seq<seq<int>>)
    returns (r: Result<seq<StripResult<U>>>)
    ensures r.Ok? ==> FacesOk(faces, hasUV, tc)
    ensures !FacesOk(faces, hasUV, tc) ==> r == Err(IndexOutOfRange)
    ensures FacesOk(faces, hasUV, tc) ==>
      r == StripsOf(stripify(TriList(faces)), hasUV, if hasUV then UVMap(faces, tc) else map[], vertoff)
  {
    var t := BuildTriangleList(faces, hasUV, tc);
    if t.Err? {
      return Err(t.fault);
    }
    var (tris, uvmap) := t.value;
    r := PostProcessStrips(stripify(tris), hasUV, uvmap, vertoff);
  }

  /** The loop over the stripifier's groups; the first failing group ends it. */
  method PostProcessStrips<U>(groups: seq<seq<int>>, hasUV: bool, uvmap: map<int, U>, vertoff: int)
    returns (r: Result<seq<StripResult<U>>>)
    ensures r == StripsOf(groups, hasUV, uvmap, vertoff)
  {
    var strips: seq<StripResult<U>> := [];
    var g := 0;
    while g < |groups|
      invariant 0 <= g <= |groups|
      invariant StripsOf(groups[..g], hasUV, uvmap, vertoff) == Ok(strips)
    {
      assert groups[..g + 1][..g] == groups[..g];
      var s := PostProcessStrip(groups[g], hasUV, uvmap, vertoff);
      if s.Err? {
        assert StripsOf(groups[..g + 1], hasUV, uvmap, vertoff) == Err(s.fault);
        StripsOfErrStays(groups, g + 1, hasUV, uvmap, vertoff);
        return Err(s.fault);
      }
      assert StripsOf(groups[..g + 1], hasUV, uvmap, vertoff) == Ok(strips + [s.value]);
      strips := strips + [s.value];
      g := g + 1;
    }
    assert groups[..g] == groups;
    r := Ok(strips);
  }

  lemma {:induction false} StripsOfErrStays<U>(groups: seq<seq<int>>, n: nat, hasUV: bool, uvmap: map<int, U>, vertoff: int)
    requires n <= |groups|
    requires StripsOf(groups[..n], hasUV, uvmap, vertoff).Err?
    ensures StripsOf(groups, hasUV, uvmap, vertoff) == StripsOf(groups[..n], hasUV, uvmap, vertoff)
    decreases |groups| - n
  {
    if n < |groups| {
      assert groups[..n + 1][..n] == groups[..n];
      StripsOfErrStays(groups, n + 1, hasUV, uvmap, vertoff);
    } else {
      assert groups[..n] == groups;
    }
  }

  /** When the stripifier only emits groups of at least two indices taken
      from the triangle list, every UV lookup succeeds: the mesh's strips
      are built without a fault. */
  lemma {:induction false} StripifiedMeshSucceeds<U>(faces: seq<seq<int>>, hasUV: bool, tc: seq<U>, vertoff: int,
                                                     groups: seq<seq<int>>)
    requires FacesOk(faces, hasUV, tc)
    requires forall g :: 0 <= g < |groups| ==> |groups[g]| >= 2
    requires forall g, j :: 0 <= g < |groups| && 0 <= j < |groups[g]| ==> groups[g][j] in TriList(faces)
    ensures StripsOf(groups, hasUV, if hasUV then UVMap(faces, tc) else map[], vertoff).Ok?
    ensures |StripsOf(groups, hasUV, if hasUV then UVMap(faces, tc) else map[], vertoff).value| == |groups|
  {
    if groups != [] {
      var n := |groups| - 1;
      StripifiedMeshSucceeds(faces, hasUV, tc, vertoff, groups[..n]);
      if hasUV {
        UVMapKeys(faces, tc);
        var body := Body(groups[n]);
        assert forall j :: 0 <= j < |body| ==> body[j] in groups[n];
      }
    }
  }

  // ---------------------------------------------------------------------------
  // Vertex offsets across a node's meshes

  function Sum(counts: seq<nat>): nat {
    if counts == [] then 0 else Sum(counts[..|counts| - 1]) + counts[|counts| - 1]
  }

  lemma {:induction false} SumMonotone(counts: seq<nat>, i: nat, j: nat)
    requires i <= j <= |counts|
    ensures Sum(counts[..i]) + (if i < j then counts[i] else 0) <= Sum(counts[..j])
    decreases j - i
  {
    if i < j {
      if i + 1 < j {
        SumMonotone(counts, i + 1, j);
        SumMonotone(counts, i + 1, j - 1);
      }
      assert counts[..i + 1][..i] == counts[..i];
      assert counts[..j][..j - 1] == counts[..j - 1];
      if i + 1 == j {
      } else {
        SumMonotone(counts, i, j - 1);
      }
    }
  }

  /** Mesh i's vertices start where the previous meshes' vertices end
      (`vertoff` in AssimpImportChunk, `polyIndex` in AssimpImportBasic). */
  method VertexOffsets(counts: seq<nat>) returns (offs: seq<nat>)
    ensures |offs| == |counts|
    ensures forall i :: 0 <= i < |counts| ==> offs[i] == Sum(counts[..i])
  {
    offs := [];
    var total := 0;
    var i := 0;
    while i < |counts|
      invariant 0 <= i <= |counts| && |offs| == i
      invariant total == Sum(counts[..i])
      invariant forall j :: 0 <= j < i ==> offs[j] == Sum(counts[..j])
    {
      offs := offs + [total];
      assert counts[..i + 1][..i] == counts[..i];
      total := total + counts[i];
      i := i + 1;
    }
  }

  /** The meshes' vertex ranges [offset, offset + count) do not overlap:
      a vertex index local to mesh i and one local to a later mesh j never
      land on the same combined index. */
  lemma OffsetRangesDisjoint(counts: seq<nat>, i: nat, j: nat, a: nat, b: nat)
    requires i < j < |counts| && a < counts[i] && b < counts[j]
    ensures Sum(counts[..i]) + a < Sum(counts[..j]) + b
  {
    SumMonotone(counts, i, j);
  }

  /** AssimpImportBasic's triangles: the first three corners of each face,
      moved by the mesh's vertex offset and cast to ushort. */
  method BasicTriangles(faces: seq<seq<int>>, polyIndex: int) returns (r: Result<seq<(int, int, int)>>)
    ensures r.Ok? <==> forall f :: 0 <= f < |faces| ==> |faces[f]| >= 3
    ensures r.Err? ==> r.fault == IndexOutOfRange
    ensures r.Ok? ==> |r.value| == |faces|
    ensures r.Ok? ==> forall f :: 0 <= f < |faces| ==>
      r.value[f] == (UShort(faces[f][0] + polyIndex), UShort(faces[f][1] + polyIndex), UShort(faces[f][2] + polyIndex))
  {
    var tris: seq<(int, int, int)> := [];
    var f := 0;
    while f < |faces|
      invariant 0 <= f <= |faces| && |tris| == f
      invariant forall g :: 0 <= g < f ==> |faces[g]| >= 3
      invariant forall g :: 0 <= g < f ==>
        tris[g] == (UShort(faces[g][0] + polyIndex), UShort(faces[g][1] + polyIndex), UShort(faces[g][2] + polyIndex))
    {
      if |faces[f]| < 3 {
        return Err(IndexOutOfRange);
      }
      tris := tris + [(UShort(faces[f][0] + polyIndex), UShort(faces[f][1] + polyIndex), UShort(faces[f][2] + polyIndex))];
      f := f + 1;
    }
    r := Ok(tris);
  }

  /** While the node's meshes have at most 65536 vertices in all, a face
      index of mesh i comes out as that mesh's offset plus the index, and so
      names a vertex of mesh i and of no other mesh. */
  lemma BasicIndexInOwnRange(counts: seq<nat>, i: nat, x: int)
    requires i < |counts| && 0 <= x < counts[i] && Sum(counts) <= 0x1_0000
    ensures UShort(x + Sum(counts[..i])) == x + Sum(counts[..i])
    ensures Sum(counts[..i]) <= UShort(x + Sum(counts[..i])) < Sum(counts[..i + 1])
  {
    assert x + Sum(counts[..i]) < Sum(counts[..i + 1]) <= 0x1_0000 by {
      SumMonotone(counts, i, i + 1);
      SumMonotone(counts, i + 1, |counts|);
      assert counts[..|counts|] == counts;
    }
    OffsetFits(x, Sum(counts[..i]), Sum(counts[..i + 1]));
  }

  /** An index below the next mesh's offset, itself within ushort range,
      passes the ushort cast unchanged. */
  lemma OffsetFits(x: int, offset: int, next: int)
    requires 0 <= x && 0 <= offset && x + offset < next <= 0x1_0000
    ensures UShort(x + offset) == x + offset
    ensures offset <= UShort(x + offset) < next
  {
  }
}
