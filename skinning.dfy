/** Skinning bookkeeping on both sides of the converter. Import gathers each
    vertex's bone weights in bone order, gives unweighted vertices to the last
    bone, classifies every (bone, vertex) pair as Start, Middle or End of the
    vertex's weight list and packs weight byte and local vertex id into one
    32-bit flags word per vertex. Export unpacks the flags word and rebuilds
    each vertex's weight list in a buffer indexed by vertex cache id. */
module Skinning {
  import opened Wrappers

  datatype WeightStatus = Start | Middle | End

  /** One bone's weight on one vertex, as gathered on import. */
  datatype VertWeight = VertWeight(name: string, weight: real)

  /** A bone of the scene mesh: its name and its (vertex id, weight) pairs. */
  datatype Bone = Bone(name: string, vertexWeights: seq<(int, real)>)

  /** One bone's weight on one vertex, as rebuilt on export: the bone's
      pre-order index and the weight byte (the weight is byte / 255). */
  datatype WeightData = WeightData(index: int, weightByte: int)

  /** Size of the export vertex and weight buffers. */
  const BufferSize: int := 32768

  // ---------------------------------------------------------------------------
  // Weight status

  /** Position of the first weight of bone `name`, or -1 when there is none. */
  function FirstIndex(name: string, ws: seq<VertWeight>): (k: int)
    ensures -1 <= k < |ws|
    ensures k >= 0 ==> ws[k].name == name && forall j :: 0 <= j < k ==> ws[j].name != name
    ensures k == -1 ==> forall j :: 0 <= j < |ws| ==> ws[j].name != name
  {
    if ws == [] then -1
    else if ws[0].name == name then 0
    else
      var k := FirstIndex(name, ws[1..]);
      if k == -1 then -1 else k + 1
  }

  /** Start when the bone heads the vertex's weight list (even a one-element
      list), End when it is last, Middle otherwise; Enumerable.First throws
      when the bone is not in the list at all. */
  function GetWeightStatus(name: string, ws: seq<VertWeight>): (r: Result<WeightStatus>)
    ensures r.Err? <==> forall j :: 0 <= j < |ws| ==> ws[j].name != name
    ensures r.Err? ==> r.fault == NoElement
    ensures r == Ok(Start) <==> |ws| > 0 && ws[0].name == name
    ensures r == Ok(End) <==>
      exists k :: 0 < k && k == |ws| - 1 && ws[k].name == name && forall j :: 0 <= j < k ==> ws[j].name != name
    ensures r == Ok(Middle) <==>
      exists k :: 0 < k < |ws| - 1 && ws[k].name == name && forall j :: 0 <= j < k ==> ws[j].name != name
  {
    var i := FirstIndex(name, ws);
    if i == -1 then Err(NoElement)
    else if i == 0 then Ok(Start)
    else if i == |ws| - 1 then Ok(End)
    else Ok(Middle)
  }

  predicate DistinctBones(ws: seq<VertWeight>) {
    forall i, j :: 0 <= i < j < |ws| ==> ws[i].name != ws[j].name
  }

  function StatusAt(k: int, n: int): WeightStatus {
    if k == 0 then Start else if k == n - 1 then End else Middle
  }

  /** In a list naming each bone once, the bone at position k has the status
      of position k: exactly one Start (position 0), and, when there are two
      or more bones, exactly one End (the last position); the rest are Middle. */
  lemma StatusByPosition(ws: seq<VertWeight>, k: int)
    requires DistinctBones(ws)
    requires 0 <= k < |ws|
    ensures GetWeightStatus(ws[k].name, ws) == Ok(StatusAt(k, |ws|))
  {
    var i := FirstIndex(ws[k].name, ws);
    assert i == k;
  }

  // ---------------------------------------------------------------------------
  // Gathering weights (import)

  /** The weights bone `b` gives vertex `v`, in the bone's own order. */
  function BoneWeightsOn(b: Bone, ws: seq<(int, real)>, v: int): seq<VertWeight>
  {
    if ws == [] then []
    else
      var last := ws[|ws| - 1];
      BoneWeightsOn(b, ws[..|ws| - 1], v) + (if last.0 == v then [VertWeight(b.name, last.1)] else [])
  }

  /** The weight list vertex `v` ends up with: bone after bone, in the order
      the bones are visited. */
  function WeightsOn(bones: seq<Bone>, v: int): seq<VertWeight>
  {
    if bones == [] then []
    else WeightsOn(bones[..|bones| - 1], v) + BoneWeightsOn(bones[|bones| - 1], bones[|bones| - 1].vertexWeights, v)
  }

  predicate ValidVertexIds(bones: seq<Bone>, vertexCount: int) {
    forall b, k :: 0 <= b < |bones| && 0 <= k < |bones[b].vertexWeights| ==>
      0 <= bones[b].vertexWeights[k].0 < vertexCount
  }

  /** The bones that carry weights, in the order given (the bones arrive
      already ordered by pre-order node index). */
  function WeightedBones(bones: seq<Bone>): seq<Bone>
  {
    if bones == [] then []
    else
      var last := bones[|bones| - 1];
      WeightedBones(bones[..|bones| - 1]) + (if last.vertexWeights != [] then [last] else [])
  }

  /** The weighted bones are exactly the given bones that carry weights. */
  lemma {:induction false} WeightedBonesExact(bones: seq<Bone>)
    ensures forall x :: x in WeightedBones(bones) <==> x in bones && x.vertexWeights != []
  {
    if bones != [] {
      var last := bones[|bones| - 1];
      assert bones == bones[..|bones| - 1] + [last];
      WeightedBonesExact(bones[..|bones| - 1]);
    }
  }

  /** One bone's pass: append (bone, weight) to the list of every vertex
      the bone names, in the bone's order. A vertex id outside the mesh
      fails as the list indexer does. */
  method AddBoneWeights(vs: seq<seq<VertWeight>>, bone: Bone) returns (r: Result<seq<seq<VertWeight>>>)
    ensures r.Ok? <==> forall k :: 0 <= k < |bone.vertexWeights| ==> 0 <= bone.vertexWeights[k].0 < |vs|
    ensures r.Err? ==> r.fault == IndexOutOfRange
    ensures r.Ok? ==> |r.value| == |vs|
    ensures r.Ok? ==> forall v :: 0 <= v < |vs| ==> r.value[v] == vs[v] + BoneWeightsOn(bone, bone.vertexWeights, v)
  {
    var acc := vs;
    var k := 0;
    while k < |bone.vertexWeights|
      invariant 0 <= k <= |bone.vertexWeights|
      invariant forall j :: 0 <= j < k ==> 0 <= bone.vertexWeights[j].0 < |vs|
      invariant |acc| == |vs|
      invariant forall v :: 0 <= v < |vs| ==> acc[v] == vs[v] + BoneWeightsOn(bone, bone.vertexWeights[..k], v)
    {
      var (vid, w) := bone.vertexWeights[k];
      assert bone.vertexWeights[..k + 1][..k] == bone.vertexWeights[..k];
      if !(0 <= vid < |vs|) {
        return Err(IndexOutOfRange);
      }
      acc := acc[vid := acc[vid] + [VertWeight(bone.name, w)]];
      k := k + 1;
    }
    assert bone.vertexWeights[..k] == bone.vertexWeights;
    r := Ok(acc);
  }

  /** One more bone visited: it joins the weighted bones when it has
      weights, every vertex's list gains its weights on that vertex, and its
      vertex ids join those to check. */
  lemma CollectStep(bones: seq<Bone>, b: int, vertexCount: nat)
    requires 0 <= b < |bones|
    ensures WeightedBones(bones[..b + 1])
         == WeightedBones(bones[..b]) + (if bones[b].vertexWeights != [] then [bones[b]] else [])
    ensures forall v ::
      WeightsOn(bones[..b + 1], v) == WeightsOn(bones[..b], v) + BoneWeightsOn(bones[b], bones[b].vertexWeights, v)
    ensures ValidVertexIds(bones[..b + 1], vertexCount)
        <==> ValidVertexIds(bones[..b], vertexCount)
             && forall k :: 0 <= k < |bones[b].vertexWeights| ==> 0 <= bones[b].vertexWeights[k].0 < vertexCount
  {
    var pre := bones[..b + 1];
    assert pre[..|pre| - 1] == bones[..b];
    assert pre[|pre| - 1] == bones[b];
    assert forall j :: 0 <= j < b ==> pre[j] == bones[..b][j];
  }

  /** A bone naming a vertex outside the mesh makes the whole bone list invalid. */
  lemma InvalidBone(bones: seq<Bone>, b: int, k: int, vertexCount: nat)
    requires 0 <= b < |bones| && 0 <= k < |bones[b].vertexWeights|
    requires !(0 <= bones[b].vertexWeights[k].0 < vertexCount)
    ensures !ValidVertexIds(bones, vertexCount)
  {
  }

  /** Builds each vertex's weight list by walking the weighted bones in order;
      the first out-of-range vertex id fails. */
  method CollectWeights(bones: seq<Bone>, vertexCount: nat)
    returns (sortedbones: seq<string>, verts: Result<seq<seq<VertWeight>>>)
    ensures verts.Ok? ==> |sortedbones| == |WeightedBones(bones)|
    ensures verts.Ok? ==> forall i :: 0 <= i < |sortedbones| ==> sortedbones[i] == WeightedBones(bones)[i].name
    ensures verts.Ok? <==> ValidVertexIds(bones, vertexCount)
    ensures verts.Err? ==> verts.fault == IndexOutOfRange
    ensures verts.Ok? ==> |verts.value| == vertexCount
    ensures verts.Ok? ==> forall v :: 0 <= v < vertexCount ==> verts.value[v] == WeightsOn(bones, v)
  {
    var vs := seq(vertexCount, _ => []);
    sortedbones := [];
    var b := 0;
    while b < |bones|
      invariant 0 <= b <= |bones|
      invariant ValidVertexIds(bones[..b], vertexCount)
      invariant |sortedbones| == |WeightedBones(bones[..b])|
      invariant forall i :: 0 <= i < |sortedbones| ==> sortedbones[i] == WeightedBones(bones[..b])[i].name
      invariant |vs| == vertexCount
      invariant forall v :: 0 <= v < vertexCount ==> vs[v] == WeightsOn(bones[..b], v)
    {
      var bone := bones[b];
      CollectStep(bones, b, vertexCount);
      if bone.vertexWeights != [] {
        sortedbones := sortedbones + [bone.name];
      }
      var res := AddBoneWeights(vs, bone);
      if res.Err? {
        var k :| 0 <= k < |bone.vertexWeights| && !(0 <= bone.vertexWeights[k].0 < vertexCount);
        InvalidBone(bones, b, k, vertexCount);
        return sortedbones, Err(IndexOutOfRange);
      }
      vs := res.value;
      b := b + 1;
    }
    assert bones[..b] == bones;
    verts := Ok(vs);
  }

  /** The weight lists after the fallback: an empty list becomes the single
      entry (lastbone, 1.0), any other list is kept. */
  function Filled(verts: seq<seq<VertWeight>>, lastbone: string): (r: seq<seq<VertWeight>>)
    ensures |r| == |verts|
  {
    seq(|verts|, i requires 0 <= i < |verts| => if verts[i] == [] then [VertWeight(lastbone, 1.0)] else verts[i])
  }

  /** The fallback loop: a vertex that no bone names gets full weight from
      `lastbone`. AssembleSkin runs it only for a mesh with two or more
      weighted bones, passing the last of them. */
  method FillMissingWeights(verts: seq<seq<VertWeight>>, lastbone: string) returns (r: seq<seq<VertWeight>>)
    ensures r == Filled(verts, lastbone)
    ensures |r| == |verts|
    ensures forall i :: 0 <= i < |r| ==> |r[i]| >= 1
    ensures forall i :: 0 <= i < |r| ==> verts[i] != [] ==> r[i] == verts[i]
    ensures forall i :: 0 <= i < |r| ==> verts[i] == [] ==> r[i] == [VertWeight(lastbone, 1.0)]
  {
    r := verts;
    var i := 0;
    while i < |r|
      invariant 0 <= i <= |r| && |r| == |verts|
      invariant forall j :: 0 <= j < i ==> |r[j]| >= 1
      invariant forall j :: 0 <= j < |r| ==> verts[j] != [] ==> r[j] == verts[j]
      invariant forall j :: 0 <= j < i ==> verts[j] == [] ==> r[j] == [VertWeight(lastbone, 1.0)]
      invariant forall j :: i <= j < |r| ==> r[j] == verts[j]
    {
      if r[i] == [] {
        r := r[i := [VertWeight(lastbone, 1.0)]];
      }
      i := i + 1;
    }
  }

  // ---------------------------------------------------------------------------
  // Grouping by status (import)

  predicate Names(ws: seq<VertWeight>, name: string) {
    exists j :: 0 <= j < |ws| && ws[j].name == name
  }

  /** Indices, ascending, of the vertices whose weight list names `bone` and
      gives it status `s`. */
  function WithStatus(verts: seq<seq<VertWeight>>, bone: string, s: WeightStatus): (r: seq<int>)
    ensures forall k :: 0 <= k < |r| ==> 0 <= r[k] < |verts|
  {
    if verts == [] then []
    else
      var n := |verts| - 1;
      WithStatus(verts[..n], bone, s)
        + (if Names(verts[n], bone) && GetWeightStatus(bone, verts[n]) == Ok(s) then [n] else [])
  }

  /** A vertex is in a status group exactly when its list names the bone
      with that status. */
  lemma {:induction false} WithStatusMembers(verts: seq<seq<VertWeight>>, bone: string, s: WeightStatus)
    ensures forall v :: v in WithStatus(verts, bone, s) <==>
      0 <= v < |verts| && Names(verts[v], bone) && GetWeightStatus(bone, verts[v]) == Ok(s)
  {
    if verts != [] {
      var n := |verts| - 1;
      var pre := WithStatus(verts[..n], bone, s);
      WithStatusMembers(verts[..n], bone, s);
      forall v
        ensures v in WithStatus(verts, bone, s) <==>
          0 <= v < |verts| && Names(verts[v], bone) && GetWeightStatus(bone, verts[v]) == Ok(s)
      {
        if v in pre {
          var k :| 0 <= k < |pre| && pre[k] == v;
          assert v < n;
        }
        if 0 <= v < n {
          assert verts[..n][v] == verts[v];
        }
      }
    }
  }

  /** The status groups are strictly ascending, as the vertex loop visits
      the vertices in order. */
  lemma {:induction false} WithStatusAscending(verts: seq<seq<VertWeight>>, bone: string, s: WeightStatus)
    ensures forall i, j :: 0 <= i < j < |WithStatus(verts, bone, s)| ==>
      WithStatus(verts, bone, s)[i] < WithStatus(verts, bone, s)[j]
  {
    if verts != [] {
      var n := |verts| - 1;
      WithStatusAscending(verts[..n], bone, s);
    }
  }

  /** The three groups split the bone's vertices: every vertex that names
      the bone is in exactly one of them, and no other vertex is in any. */
  lemma GroupsPartition(verts: seq<seq<VertWeight>>, bone: string, v: int)
    requires 0 <= v < |verts|
    ensures Names(verts[v], bone) <==>
      v in WithStatus(verts, bone, Start) || v in WithStatus(verts, bone, Middle) || v in WithStatus(verts, bone, End)
    ensures !(v in WithStatus(verts, bone, Start) && v in WithStatus(verts, bone, Middle))
    ensures !(v in WithStatus(verts, bone, Start) && v in WithStatus(verts, bone, End))
    ensures !(v in WithStatus(verts, bone, Middle) && v in WithStatus(verts, bone, End))
  {
    WithStatusMembers(verts, bone, Start);
    WithStatusMembers(verts, bone, Middle);
    WithStatusMembers(verts, bone, End);
    if Names(verts[v], bone) {
      var r := GetWeightStatus(bone, verts[v]);
      assert r.Ok?;
      assert r.value == Start || r.value == Middle || r.value == End;
    }
  }

  /** Sorts the vertices that name `bone` into Start, Middle and End lists
      in one pass over the vertices. */
  method GroupByStatus(verts: seq<seq<VertWeight>>, bone: string)
    returns (starts: seq<int>, middles: seq<int>, ends: seq<int>)
    ensures starts == WithStatus(verts, bone, Start)
    ensures middles == WithStatus(verts, bone, Middle)
    ensures ends == WithStatus(verts, bone, End)
  {
    starts, middles, ends := [], [], [];
    var v := 0;
    while v < |verts|
      invariant 0 <= v <= |verts|
      invariant starts == WithStatus(verts[..v], bone, Start)
      invariant middles == WithStatus(verts[..v], bone, Middle)
      invariant ends == WithStatus(verts[..v], bone, End)
    {
      assert verts[..v + 1][..v] == verts[..v];
      if Names(verts[v], bone) {
        var st := GetWeightStatus(bone, verts[v]);
        match st.value {
          case Start => starts := starts + [v];
          case Middle => middles := middles + [v];
          case End => ends := ends + [v];
        }
      }
      v := v + 1;
    }
    assert verts[..v] == verts;
  }

  // ---------------------------------------------------------------------------
  // Flags word (import packs, export unpacks)

  /** (byte)(w * 255.0f): the weight is truncated, not rounded. */
  function WeightByte(w: real): (b: int)
    requires 0.0 <= w <= 1.0
    ensures 0 <= b <= 255
    ensures b as real <= w * 255.0 < b as real + 1.0
  {
    (w * 255.0).Floor
  }

  /** An even split is stored as 127, not 128. */
  lemma HalfWeightTruncates()
    ensures WeightByte(0.5) == 127
  {
  }

  function Pow2(k: nat): (p: nat)
    ensures p >= 1
  {
    if k == 0 then 1 else 2 * Pow2(k - 1)
  }

  /** Bitwise OR of two non-negative integers. */
  function BitOr(a: nat, b: nat): nat
    decreases a + b
  {
    if a == 0 then b
    else if b == 0 then a
    else 2 * BitOr(a / 2, b / 2) + (if a % 2 == 1 || b % 2 == 1 then 1 else 0)
  }

  /** OR-ing a value shifted left by k bits with a value below 2^k is
      addition: the two fields do not overlap. */
  lemma {:induction false} DisjointOrIsSum(a: nat, b: nat, k: nat)
    requires b < Pow2(k)
    ensures BitOr(a * Pow2(k), b) == a * Pow2(k) + b
  {
    if k == 0 {
      assert b == 0;
    } else if a == 0 || b == 0 {
    } else {
      var p := Pow2(k - 1);
      assert a * Pow2(k) == 2 * (a * p);
      assert (a * Pow2(k)) / 2 == a * p && (a * Pow2(k)) % 2 == 0;
      DisjointOrIsSum(a, b / 2, k - 1);
    }
  }

  /** (uint)((weightByte << 16) | localId), for a weight byte and a
      non-negative local id. */
  function PackFlags(weightByte: int, localId: int): (r: nat)
    requires 0 <= weightByte < 256
    requires 0 <= localId
  {
    BitOr(weightByte * 0x1_0000, localId)
  }

  /** flags >> 16 */
  function UnpackWeightByte(flags: nat): nat {
    flags / 0x1_0000
  }

  /** flags & 0x0000FFFF */
  function UnpackLocalId(flags: nat): nat {
    flags % 0x1_0000
  }

  /** Unpacking returns both packed fields while the local id fits in 16 bits. */
  lemma PackRoundTrip(weightByte: int, localId: int)
    requires 0 <= weightByte < 256
    requires 0 <= localId < 0x1_0000
    ensures UnpackWeightByte(PackFlags(weightByte, localId)) == weightByte
    ensures UnpackLocalId(PackFlags(weightByte, localId)) == localId
  {
    assert Pow2(16) == 0x1_0000 by {
      assert Pow2(4) == 16;
      assert Pow2(8) == 256 by { assert Pow2(8) == 16 * Pow2(4); }
    }
    DisjointOrIsSum(weightByte, localId, 16);
  }

  /** A local id of 65536 or more spills into the weight field: the vertex
      comes back with a wrong weight byte and a wrong local id. */
  lemma LargeLocalIdSpills()
    ensures UnpackLocalId(PackFlags(0, 0x1_0000)) == 0
    ensures UnpackWeightByte(PackFlags(0, 0x1_0000)) == 1
  {
  }

  function Min(s: seq<int>): (m: int)
    requires |s| > 0
    ensures m in s && forall k :: 0 <= k < |s| ==> m <= s[k]
  {
    if |s| == 1 then s[0]
    else
      var t := Min(s[..|s| - 1]);
      assert forall k :: 0 <= k < |s| - 1 ==> s[..|s| - 1][k] == s[k];
      if s[|s| - 1] < t then s[|s| - 1] else t
  }

  /** A weighted vertex chunk: index offset, status and one flags word per vertex. */
  datatype WeightedChunk = WeightedChunk(indexOffset: int, status: WeightStatus, flags: seq<nat>)

  predicate WeightsInRange(ws: seq<VertWeight>) {
    forall j :: 0 <= j < |ws| ==> 0.0 <= ws[j].weight <= 1.0
  }

  /** The weight bone `bone` gives a list that names it (its first entry). */
  function WeightOf(ws: seq<VertWeight>, bone: string): (w: real)
    requires Names(ws, bone)
    ensures WeightsInRange(ws) ==> 0.0 <= w <= 1.0
  {
    ws[FirstIndex(bone, ws)].weight
  }

  /** One vertex's flags word: its weight byte for the bone over its local
      index. */
  function VertexFlags(ws: seq<VertWeight>, bone: string, local: int): nat
    requires Names(ws, bone) && WeightsInRange(ws)
    requires 0 <= local
  {
    var w := WeightOf(ws, bone);
    PackFlags(WeightByte(w), local)
  }

  /** A vertex's flags word unpacks to its weight byte and local index. */
  lemma UnpackVertex(ws: seq<VertWeight>, bone: string, local: int)
    requires Names(ws, bone) && WeightsInRange(ws)
    requires 0 <= local < 0x1_0000
    ensures UnpackWeightByte(VertexFlags(ws, bone, local)) == WeightByte(WeightOf(ws, bone))
    ensures UnpackLocalId(VertexFlags(ws, bone, local)) == local
  {
    PackRoundTrip(WeightByte(WeightOf(ws, bone)), local);
  }

  /** A non-negative index cast to ushort does not grow, and stays the same
      when it fits. */
  lemma UShortBelow(x: int)
    requires 0 <= x
    ensures 0 <= x % 0x1_0000 <= x
    ensures x < 0x1_0000 ==> x % 0x1_0000 == x
  {
    assert x == 0x1_0000 * (x / 0x1_0000) + x % 0x1_0000;
    assert x / 0x1_0000 >= 0;
  }

  /** The loop over a status group: one flags word per vertex, in group
      order, with local indices taken relative to `offset`. */
  method PackGroup(verts: seq<seq<VertWeight>>, group: seq<int>, bone: string, offset: int)
    returns (flags: seq<nat>)
    requires forall k :: 0 <= k < |group| ==> 0 <= group[k] < |verts|
    requires forall k :: 0 <= k < |group| ==> Names(verts[group[k]], bone) && WeightsInRange(verts[group[k]])
    requires forall k :: 0 <= k < |group| ==> offset <= group[k]
    ensures |flags| == |group|
    ensures forall j :: 0 <= j < |group| ==> flags[j] == VertexFlags(verts[group[j]], bone, group[j] - offset)
  {
    flags := [];
    var k := 0;
    while k < |group|
      invariant 0 <= k <= |group| && |flags| == k
      invariant forall j :: 0 <= j < k ==> flags[j] == VertexFlags(verts[group[j]], bone, group[j] - offset)
    {
      flags := flags + [VertexFlags(verts[group[k]], bone, group[k] - offset)];
      k := k + 1;
    }
  }

  /** `vc` is the chunk ProcessMesh builds for bone `bone` from the
      non-empty group `group` with status `s`: its offset is the group's
      lowest vertex index as a ushort, and each vertex of the group, in
      group order, has the flags word packing its weight byte for the bone
      over its index minus the offset. */
  predicate IsChunkOf(verts: seq<seq<VertWeight>>, bone: string, group: seq<int>, s: WeightStatus, vc: WeightedChunk) {
    && |group| > 0
    && (forall k :: 0 <= k < |group| ==>
          0 <= group[k] < |verts| && Names(verts[group[k]], bone) && WeightsInRange(verts[group[k]]))
    && vc.status == s && vc.indexOffset == Min(group) % 0x1_0000 && |vc.flags| == |group|
    && (forall k :: 0 <= k < |group| ==> vc.indexOffset <= group[k])
    && (forall k :: 0 <= k < |group| ==>
          vc.flags[k] == VertexFlags(verts[group[k]], bone, group[k] - vc.indexOffset))
  }

  /** Builds one bone's chunk for one non-empty status group: the offset is
      the group's lowest vertex index cast to ushort, and each vertex's flags
      word packs its weight byte for the bone with its index minus the
      offset. */
  method BuildWeightedChunk(verts: seq<seq<VertWeight>>, group: seq<int>, bone: string, s: WeightStatus)
    returns (vc: WeightedChunk)
    requires |group| > 0
    requires forall k :: 0 <= k < |group| ==> 0 <= group[k] < |verts|
    requires forall k :: 0 <= k < |group| ==> Names(verts[group[k]], bone) && WeightsInRange(verts[group[k]])
    ensures IsChunkOf(verts, bone, group, s, vc)
    ensures Min(group) < 0x1_0000 ==> forall k :: 0 <= k < |group| && group[k] - Min(group) < 0x1_0000 ==>
      UnpackWeightByte(vc.flags[k]) == WeightByte(WeightOf(verts[group[k]], bone)) &&
      vc.indexOffset + UnpackLocalId(vc.flags[k]) == group[k]
  {
    var offset := Min(group) % 0x1_0000;
    OffsetBelowGroup(group);
    var flags := PackGroup(verts, group, bone, offset);
    vc := WeightedChunk(offset, s, flags);
    ChunkOfParts(verts, bone, group, s, vc);
    ChunkUnpacks(verts, bone, group, s, vc);
  }

  /** The ushort of the group's minimum is at most every member. */
  lemma OffsetBelowGroup(group: seq<int>)
    requires |group| > 0 && forall k :: 0 <= k < |group| ==> 0 <= group[k]
    ensures forall k :: 0 <= k < |group| ==> Min(group) % 0x1_0000 <= group[k]
  {
    UShortBelow(Min(group));
  }

  /** The parts a chunk is checked by, gathered into one fact. */
  lemma ChunkOfParts(verts: seq<seq<VertWeight>>, bone: string, group: seq<int>, s: WeightStatus, vc: WeightedChunk)
    requires |group| > 0
    requires forall k :: 0 <= k < |group| ==> 0 <= group[k] < |verts|
    requires forall k :: 0 <= k < |group| ==> Names(verts[group[k]], bone) && WeightsInRange(verts[group[k]])
    requires vc.status == s && vc.indexOffset == Min(group) % 0x1_0000 && |vc.flags| == |group|
    requires forall k :: 0 <= k < |group| ==> vc.indexOffset <= group[k]
    requires forall k :: 0 <= k < |group| ==> vc.flags[k] == VertexFlags(verts[group[k]], bone, group[k] - vc.indexOffset)
    ensures IsChunkOf(verts, bone, group, s, vc)
  {
  }

  /** Every flags word of a built chunk unpacks, as export reads it, to the
      vertex's weight byte for the bone and, added to the offset, to the
      vertex's index, while the offsets fit 16 bits. */
  lemma ChunkUnpacks(verts: seq<seq<VertWeight>>, bone: string, group: seq<int>, s: WeightStatus, vc: WeightedChunk)
    requires IsChunkOf(verts, bone, group, s, vc)
    ensures Min(group) < 0x1_0000 ==> forall k :: 0 <= k < |group| && group[k] - Min(group) < 0x1_0000 ==>
      UnpackWeightByte(vc.flags[k]) == WeightByte(WeightOf(verts[group[k]], bone)) &&
      vc.indexOffset + UnpackLocalId(vc.flags[k]) == group[k]
  {
    var low := Min(group);
    UShortBelow(low);
    forall j | 0 <= j < |group| && low < 0x1_0000 && group[j] - low < 0x1_0000
      ensures UnpackWeightByte(vc.flags[j]) == WeightByte(WeightOf(verts[group[j]], bone))
      ensures vc.indexOffset + UnpackLocalId(vc.flags[j]) == group[j]
    {
      UnpackVertex(verts[group[j]], bone, group[j] - vc.indexOffset);
    }
  }

  // ---------------------------------------------------------------------------
  // Assembling a mesh's vertex chunks (import)

  /** The position of a status in the group dictionary, whose entries are
      enumerated in the order they were added: Start, Middle, End. */
  function Rank(s: WeightStatus): (n: int)
    ensures 0 <= n < 3
  {
    match s
    case Start => 0
    case Middle => 1
    case End => 2
  }

  /** The group `a` of status `s`, with its status, when it is not empty. */
  function Opt(s: WeightStatus, a: seq<int>): (r: seq<(WeightStatus, seq<int>)>)
    ensures |r| <= 1
    ensures forall i :: 0 <= i < |r| ==> r[i] == (s, a) && a != []
  {
    if a != [] then [(s, a)] else []
  }

  /** The groups `a`, `b` and `c` of Start, Middle and End that are not empty. */
  function Groups3(a: seq<int>, b: seq<int>, c: seq<int>): (r: seq<(WeightStatus, seq<int>)>)
    ensures |r| <= 3
  {
    Opt(Start, a) + Opt(Middle, b) + Opt(End, c)
  }

  function Pick(a: seq<int>, b: seq<int>, c: seq<int>, s: WeightStatus): seq<int> {
    match s
    case Start => a
    case Middle => b
    case End => c
  }

  /** The kept groups come in the order Start, Middle, End, and each is the
      non-empty group of its status. */
  lemma Groups3Shape(a: seq<int>, b: seq<int>, c: seq<int>)
    ensures forall i, j :: 0 <= i < j < |Groups3(a, b, c)| ==> Rank(Groups3(a, b, c)[i].0) < Rank(Groups3(a, b, c)[j].0)
    ensures forall i :: 0 <= i < |Groups3(a, b, c)| ==>
      Groups3(a, b, c)[i].1 == Pick(a, b, c, Groups3(a, b, c)[i].0) && Groups3(a, b, c)[i].1 != []
  {
    var g := Groups3(a, b, c);
    if a == [] {
      if b == [] {
        if c == [] { assert g == []; } else { assert g == [(End, c)]; }
      } else {
        if c == [] { assert g == [(Middle, b)]; } else { assert g == [(Middle, b), (End, c)]; }
      }
    } else {
      if b == [] {
        if c == [] { assert g == [(Start, a)]; } else { assert g == [(Start, a), (End, c)]; }
      } else {
        if c == [] { assert g == [(Start, a), (Middle, b)]; } else { assert g == [(Start, a), (Middle, b), (End, c)]; }
      }
    }
  }

  /** A status is kept exactly when its group is not empty. */
  lemma Groups3Has(a: seq<int>, b: seq<int>, c: seq<int>, s: WeightStatus)
    ensures (exists i :: 0 <= i < |Groups3(a, b, c)| && Groups3(a, b, c)[i].0 == s) <==> Pick(a, b, c, s) != []
  {
    Groups3Shape(a, b, c);
    var g := Groups3(a, b, c);
    match s
    case Start =>
      if a != [] {
        assert g[0] == (Start, a);
      }
    case Middle =>
      if b != [] {
        assert g == Opt(Start, a) + ([(Middle, b)] + Opt(End, c));
        assert g[|Opt(Start, a)|] == (Middle, b);
      }
    case End =>
      if c != [] {
        assert g[|g| - 1] == (End, c);
      }
  }

  /** A bone's non-empty status groups with their statuses, in dictionary
      order; an empty group gets no chunk. */
  function StatusGroups(verts: seq<seq<VertWeight>>, bone: string): (r: seq<(WeightStatus, seq<int>)>)
    ensures |r| <= 3
  {
    Groups3(WithStatus(verts, bone, Start), WithStatus(verts, bone, Middle), WithStatus(verts, bone, End))
  }

  /** Each status's group as the bone's chunk groups choose it. */
  lemma PickWithStatus(verts: seq<seq<VertWeight>>, bone: string, t: WeightStatus)
    ensures Pick(WithStatus(verts, bone, Start), WithStatus(verts, bone, Middle), WithStatus(verts, bone, End), t)
         == WithStatus(verts, bone, t)
  {
  }

  /** The bone's groups come in the order Start, Middle, End, each status at
      most once, and each group is the (non-empty) list of vertices with
      that status. */
  lemma StatusGroupsOrdered(verts: seq<seq<VertWeight>>, bone: string)
    ensures forall i, j :: 0 <= i < j < |StatusGroups(verts, bone)| ==>
      Rank(StatusGroups(verts, bone)[i].0) < Rank(StatusGroups(verts, bone)[j].0)
    ensures forall i :: 0 <= i < |StatusGroups(verts, bone)| ==>
      StatusGroups(verts, bone)[i].1 == WithStatus(verts, bone, StatusGroups(verts, bone)[i].0) &&
      StatusGroups(verts, bone)[i].1 != []
  {
    var a, b, c := WithStatus(verts, bone, Start), WithStatus(verts, bone, Middle), WithStatus(verts, bone, End);
    var g := StatusGroups(verts, bone);
    assert g == Groups3(a, b, c);
    Groups3Shape(a, b, c);
    forall i | 0 <= i < |g| ensures g[i].1 == WithStatus(verts, bone, g[i].0) {
      PickWithStatus(verts, bone, g[i].0);
    }
  }

  /** A status has a group among the bone's exactly when some vertex gives
      the bone that status. */
  lemma StatusGroupPresent(verts: seq<seq<VertWeight>>, bone: string, s: WeightStatus)
    ensures (exists i :: 0 <= i < |StatusGroups(verts, bone)| && StatusGroups(verts, bone)[i].0 == s)
        <==> exists v :: 0 <= v < |verts| && Names(verts[v], bone) && GetWeightStatus(bone, verts[v]) == Ok(s)
  {
    var a, b, c := WithStatus(verts, bone, Start), WithStatus(verts, bone, Middle), WithStatus(verts, bone, End);
    assert StatusGroups(verts, bone) == Groups3(a, b, c);
    Groups3Shape(a, b, c);
    Groups3Has(a, b, c, s);
    PickWithStatus(verts, bone, s);
    WithStatusNonEmpty(verts, bone, s);
  }

  /** A status group is non-empty exactly when some vertex names the bone
      with that status. */
  lemma WithStatusNonEmpty(verts: seq<seq<VertWeight>>, bone: string, s: WeightStatus)
    ensures WithStatus(verts, bone, s) != []
        <==> exists v :: 0 <= v < |verts| && Names(verts[v], bone) && GetWeightStatus(bone, verts[v]) == Ok(s)
  {
    var w := WithStatus(verts, bone, s);
    WithStatusMembers(verts, bone, s);
    if w != [] {
      assert w[0] in w;
    }
  }

  /** Every vertex naming the bone lies in exactly one of the bone's
      groups, and no other vertex lies in any. */
  lemma StatusGroupsCover(verts: seq<seq<VertWeight>>, bone: string, v: int)
    requires 0 <= v < |verts|
    ensures Names(verts[v], bone) <==>
      exists i :: 0 <= i < |StatusGroups(verts, bone)| && v in StatusGroups(verts, bone)[i].1
    ensures forall i, j :: 0 <= i < j < |StatusGroups(verts, bone)| ==>
      !(v in StatusGroups(verts, bone)[i].1 && v in StatusGroups(verts, bone)[j].1)
  {
    var a, b, c := WithStatus(verts, bone, Start), WithStatus(verts, bone, Middle), WithStatus(verts, bone, End);
    var g := StatusGroups(verts, bone);
    GroupsPartition(verts, bone, v);
    var s := if v in a then Start else if v in b then Middle else End;
    Groups3Shape(a, b, c);
    Groups3Has(a, b, c, s);
    assert forall i :: 0 <= i < |g| ==> g[i].1 == Pick(a, b, c, g[i].0);
    if Names(verts[v], bone) {
      var i :| 0 <= i < |g| && g[i].0 == s;
    }
    forall i, j | 0 <= i < j < |g| ensures !(v in g[i].1 && v in g[j].1) {
      assert Rank(g[i].0) < Rank(g[j].0);
    }
  }

  /** `chunks` holds, position by position, the chunk of each group in `g`. */
  predicate ChunksFor(verts: seq<seq<VertWeight>>, bone: string, g: seq<(WeightStatus, seq<int>)>, chunks: seq<ImportChunk>) {
    |chunks| == |g| &&
    forall i :: 0 <= i < |g| ==> chunks[i].Weighted? && IsChunkOf(verts, bone, g[i].1, g[i].0, chunks[i].chunk)
  }

  /** The chunk list ProcessMesh files under `bone`: one weighted chunk per
      non-empty status group, in group order. */
  predicate ChunksOf(verts: seq<seq<VertWeight>>, bone: string, chunks: seq<ImportChunk>) {
    ChunksFor(verts, bone, StatusGroups(verts, bone), chunks)
  }

  lemma ChunksForAppend(verts: seq<seq<VertWeight>>, bone: string,
                        g1: seq<(WeightStatus, seq<int>)>, c1: seq<ImportChunk>,
                        g2: seq<(WeightStatus, seq<int>)>, c2: seq<ImportChunk>)
    requires ChunksFor(verts, bone, g1, c1) && ChunksFor(verts, bone, g2, c2)
    ensures ChunksFor(verts, bone, g1 + g2, c1 + c2)
  {
    forall i | 0 <= i < |g1 + g2|
      ensures (c1 + c2)[i].Weighted? && IsChunkOf(verts, bone, (g1 + g2)[i].1, (g1 + g2)[i].0, (c1 + c2)[i].chunk)
    {
      if i >= |g1| {
        assert (g1 + g2)[i] == g2[i - |g1|] && (c1 + c2)[i] == c2[i - |g1|];
      }
    }
  }

  /** The vertices of a status group name the bone. */
  lemma GroupReady(verts: seq<seq<VertWeight>>, bone: string, s: WeightStatus)
    ensures forall k :: 0 <= k < |WithStatus(verts, bone, s)| ==>
      Names(verts[WithStatus(verts, bone, s)[k]], bone)
  {
    WithStatusMembers(verts, bone, s);
    forall k | 0 <= k < |WithStatus(verts, bone, s)| ensures Names(verts[WithStatus(verts, bone, s)[k]], bone) {
      assert WithStatus(verts, bone, s)[k] in WithStatus(verts, bone, s);
    }
  }

  /** A non-empty group's chunk is the whole chunk list of that group. */
  lemma ChunkForOne(verts: seq<seq<VertWeight>>, bone: string, s: WeightStatus, group: seq<int>, vc: WeightedChunk)
    requires IsChunkOf(verts, bone, group, s, vc)
    ensures ChunksFor(verts, bone, Opt(s, group), [Weighted(vc)])
  {
    assert Opt(s, group) == [(s, group)];
  }

  /** The chunk of one status group, or none when the group is empty. */
  method GroupChunk(verts: seq<seq<VertWeight>>, bone: string, s: WeightStatus, group: seq<int>)
    returns (chunks: seq<ImportChunk>)
    requires forall v :: 0 <= v < |verts| ==> WeightsInRange(verts[v])
    requires group == WithStatus(verts, bone, s)
    ensures ChunksFor(verts, bone, Opt(s, group), chunks)
  {
    chunks := [];
    if group != [] {
      GroupReady(verts, bone, s);
      var vc := BuildWeightedChunk(verts, group, bone, s);
      ChunkForOne(verts, bone, s, group, vc);
      chunks := [Weighted(vc)];
    }
  }

  /** One bone's chunks: the three status groups, then a chunk for each
      group that is not empty, in the order Start, Middle, End. */
  method BoneChunks(verts: seq<seq<VertWeight>>, bone: string) returns (chunks: seq<ImportChunk>)
    requires forall v :: 0 <= v < |verts| ==> WeightsInRange(verts[v])
    ensures ChunksOf(verts, bone, chunks)
  {
    var starts, middles, ends := GroupByStatus(verts, bone);
    var c1 := GroupChunk(verts, bone, Start, starts);
    var c2 := GroupChunk(verts, bone, Middle, middles);
    var c3 := GroupChunk(verts, bone, End, ends);
    ChunksForAppend(verts, bone, Opt(Start, starts), c1, Opt(Middle, middles), c2);
    ChunksForAppend(verts, bone, Opt(Start, starts) + Opt(Middle, middles), c1 + c2, Opt(End, ends), c3);
    chunks := c1 + c2 + c3;
  }

  /** A vertex chunk as ProcessMesh files it: a weighted chunk, or the
      single unweighted chunk of a mesh with at most one weighted bone. */
  datatype ImportChunk = Weighted(chunk: WeightedChunk) | Unweighted(vertexCount: nat)

  /** ProcessMesh's skinning result: the first and last weighted bone
      (null for a mesh without weighted bones) and the vertex chunks by the
      bone they belong to. */
  datatype SkinTable = SkinTable(firstNode: Option<string>, lastNode: Option<string>, vertex: map<string, seq<ImportChunk>>)

  predicate DistinctNames(names: seq<string>) {
    forall i, j :: 0 <= i < j < |names| ==> names[i] != names[j]
  }

  /** The names listed in `names`. */
  function NameSet(names: seq<string>): (r: set<string>)
    ensures forall x :: x in r <==> x in names
  {
    set x | x in names
  }

  lemma NameSetSnoc(names: seq<string>, b: int)
    requires 0 <= b < |names|
    ensures NameSet(names[..b + 1]) == NameSet(names[..b]) + {names[b]}
  {
    assert names[..b + 1] == names[..b] + [names[b]];
  }

  /** Every bone in `names` is a key of `table` holding its chunk list. */
  predicate Keyed(verts: seq<seq<VertWeight>>, names: seq<string>, table: map<string, seq<ImportChunk>>)
    decreases |names|
  {
    |names| > 0 ==>
      var n := |names| - 1;
      names[n] in table && ChunksOf(verts, names[n], table[names[n]]) && Keyed(verts, names[..n], table)
  }

  /** Filing a bone not in `names` leaves the entries of `names` alone. */
  lemma {:induction false} KeyedUpdate(verts: seq<seq<VertWeight>>, names: seq<string>,
                                       table: map<string, seq<ImportChunk>>, bone: string, chunks: seq<ImportChunk>)
    requires Keyed(verts, names, table) && bone !in names
    ensures Keyed(verts, names, table[bone := chunks])
    decreases |names|
  {
    if |names| > 0 {
      var n := |names| - 1;
      assert bone !in names[..n] by {
        assert forall x :: x in names[..n] ==> x in names;
      }
      KeyedUpdate(verts, names[..n], table, bone, chunks);
    }
  }

  /** Each bone listed in a keyed table holds its chunk list. */
  lemma {:induction false} KeyedAt(verts: seq<seq<VertWeight>>, names: seq<string>, table: map<string, seq<ImportChunk>>, j: int)
    requires Keyed(verts, names, table) && 0 <= j < |names|
    ensures names[j] in table && ChunksOf(verts, names[j], table[names[j]])
    decreases |names|
  {
    var n := |names| - 1;
    if j < n {
      KeyedAt(verts, names[..n], table, j);
      assert names[..n][j] == names[j];
    }
  }

  /** The bone loop after `b` bones: those bones are distinct, are the
      table's keys, and each is keyed to its chunk list. */
  predicate TableInv(verts: seq<seq<VertWeight>>, sortedbones: seq<string>, b: int, table: map<string, seq<ImportChunk>>) {
    && 0 <= b <= |sortedbones|
    && DistinctNames(sortedbones[..b])
    && table.Keys == NameSet(sortedbones[..b])
    && Keyed(verts, sortedbones[..b], table)
  }

  /** Adding a bone that is not a key yet keeps the loop invariant. */
  lemma TableStep(verts: seq<seq<VertWeight>>, sortedbones: seq<string>, b: int,
                  table: map<string, seq<ImportChunk>>, chunks: seq<ImportChunk>)
    requires TableInv(verts, sortedbones, b, table) && b < |sortedbones|
    requires sortedbones[b] !in table && ChunksOf(verts, sortedbones[b], chunks)
    ensures TableInv(verts, sortedbones, b + 1, table[sortedbones[b] := chunks])
  {
    var names := sortedbones[..b + 1];
    assert names == sortedbones[..b] + [sortedbones[b]];
    assert names[..b] == sortedbones[..b];
    NameSetSnoc(sortedbones, b);
    KeyedUpdate(verts, sortedbones[..b], table, sortedbones[b], chunks);
    forall i, j | 0 <= i < j < b + 1 ensures names[i] != names[j] {
      if j == b {
        assert names[i] == sortedbones[..b][i];
      } else {
        assert names[i] == sortedbones[..b][i] && names[j] == sortedbones[..b][j];
      }
    }
  }

  /** A bone already a key repeats an earlier bone. */
  lemma TableRepeat(verts: seq<seq<VertWeight>>, sortedbones: seq<string>, b: int, table: map<string, seq<ImportChunk>>)
    requires TableInv(verts, sortedbones, b, table) && b < |sortedbones| && sortedbones[b] in table
    ensures !DistinctNames(sortedbones)
  {
    var j :| 0 <= j < b && sortedbones[..b][j] == sortedbones[b];
    assert sortedbones[j] == sortedbones[b];
  }

  /** The finished bone loop keys every bone to its chunk list. */
  lemma TableDone(verts: seq<seq<VertWeight>>, sortedbones: seq<string>, table: map<string, seq<ImportChunk>>)
    requires TableInv(verts, sortedbones, |sortedbones|, table)
    ensures DistinctNames(sortedbones)
    ensures table.Keys == NameSet(sortedbones)
    ensures forall j :: 0 <= j < |sortedbones| ==> ChunksOf(verts, sortedbones[j], table[sortedbones[j]])
  {
    assert sortedbones[..|sortedbones|] == sortedbones;
    forall j | 0 <= j < |sortedbones| ensures ChunksOf(verts, sortedbones[j], table[sortedbones[j]]) {
      KeyedAt(verts, sortedbones, table, j);
    }
  }

  /** The bone loop of the weighted branch: each bone keyed to its chunk
      list, failing with DuplicateKey at the first bone named twice. */
  method BoneTable(verts: seq<seq<VertWeight>>, sortedbones: seq<string>) returns (r: Result<map<string, seq<ImportChunk>>>)
    requires forall v :: 0 <= v < |verts| ==> WeightsInRange(verts[v])
    ensures r.Ok? <==> DistinctNames(sortedbones)
    ensures r.Err? ==> r.fault == DuplicateKey
    ensures r.Ok? ==>
      (r.value.Keys == NameSet(sortedbones) &&
       forall j :: 0 <= j < |sortedbones| ==> ChunksOf(verts, sortedbones[j], r.value[sortedbones[j]]))
  {
    var table: map<string, seq<ImportChunk>> := map[];
    var b := 0;
    assert sortedbones[..0] == [];
    while b < |sortedbones|
      invariant TableInv(verts, sortedbones, b, table)
    {
      var bone := sortedbones[b];
      var chunks := BoneChunks(verts, bone);
      if bone in table {
        TableRepeat(verts, sortedbones, b, table);
        return Err(DuplicateKey);
      }
      TableStep(verts, sortedbones, b, table, chunks);
      table := table[bone := chunks];
      b := b + 1;
    }
    TableDone(verts, sortedbones, table);
    r := Ok(table);
  }

  /** The vertex chunks of a mesh whose weights were collected bone by bone
      over `sortedbones`. With two or more weighted bones, unweighted
      vertices fall back to the last bone and each bone gets its chunks
      (Dictionary.Add fails on a bone named twice). Otherwise the whole mesh
      is one unweighted chunk, filed under the single bone or under the
      empty name. */
  method AssembleSkin(verts: seq<seq<VertWeight>>, sortedbones: seq<string>) returns (r: Result<SkinTable>)
    requires forall v :: 0 <= v < |verts| ==> WeightsInRange(verts[v])
    ensures |sortedbones| == 0 ==> r == Ok(SkinTable(None, None, map["" := [Unweighted(|verts|)]]))
    ensures |sortedbones| == 1 ==>
      r == Ok(SkinTable(Some(sortedbones[0]), Some(sortedbones[0]), map[sortedbones[0] := [Unweighted(|verts|)]]))
    ensures |sortedbones| > 1 ==> (r.Ok? <==> DistinctNames(sortedbones))
    ensures r.Err? ==> r.fault == DuplicateKey
    ensures |sortedbones| > 1 && r.Ok? ==>
      && r.value.firstNode == Some(sortedbones[0])
      && r.value.lastNode == Some(sortedbones[|sortedbones| - 1])
      && r.value.vertex.Keys == NameSet(sortedbones)
      && forall j :: 0 <= j < |sortedbones| ==>
           ChunksOf(Filled(verts, sortedbones[|sortedbones| - 1]), sortedbones[j], r.value.vertex[sortedbones[j]])
  {
    if |sortedbones| <= 1 {
      var first := if |sortedbones| == 1 then Some(sortedbones[0]) else None;
      var key := if |sortedbones| == 1 then sortedbones[0] else "";
      return Ok(SkinTable(first, first, map[key := [Unweighted(|verts|)]]));
    }
    var lastbone := sortedbones[|sortedbones| - 1];
    var filled := FillMissingWeights(verts, lastbone);
    var table := BoneTable(filled, sortedbones);
    if table.Err? {
      return Err(table.fault);
    }
    r := Ok(SkinTable(Some(sortedbones[0]), Some(lastbone), table.value));
  }

  // ---------------------------------------------------------------------------
  // Rebuilding weight lists (export)

  /** What a chunk vertex does to its weight-buffer cell: Start replaces the
      list with the one new entry, any other status appends to the list
      already there (a cell never filled is a null list). */
  function CellStep(cell: Option<seq<WeightData>>, s: WeightStatus, wd: WeightData): (r: Result<seq<WeightData>>)
  {
    if s == Start then Ok([wd])
    else if cell.None? then Err(NullReference)
    else Ok(cell.value + [wd])
  }

  /** A run of updates to one cell, in order. */
  function CellRun(cell: Option<seq<WeightData>>, updates: seq<(WeightStatus, WeightData)>): (r: Result<seq<WeightData>>)
    decreases |updates|
  {
    if updates == [] then (if cell.Some? then Ok(cell.value) else Err(NullReference))
    else
      var c := CellStep(cell, updates[0].0, updates[0].1);
      if c.Err? then c else CellRun(Some(c.value), updates[1..])
  }

  /** A run that starts with Start and then never sees Start again leaves the
      cell holding every entry of the run, in order. */
  lemma {:induction false} StartThenAppends(cell: Option<seq<WeightData>>, updates: seq<(WeightStatus, WeightData)>)
    requires |updates| >= 1 && updates[0].0 == Start
    requires forall k :: 1 <= k < |updates| ==> updates[k].0 != Start
    ensures CellRun(cell, updates) == Ok(seq(|updates|, k requires 0 <= k < |updates| => updates[k].1))
  {
    AppendsOnly([updates[0].1], updates[1..]);
    assert [updates[0].1] + seq(|updates[1..]|, k requires 0 <= k < |updates[1..]| => updates[1..][k].1)
        == seq(|updates|, k requires 0 <= k < |updates| => updates[k].1);
  }

  lemma {:induction false} AppendsOnly(acc: seq<WeightData>, updates: seq<(WeightStatus, WeightData)>)
    requires forall k :: 0 <= k < |updates| ==> updates[k].0 != Start
    ensures CellRun(Some(acc), updates) == Ok(acc + seq(|updates|, k requires 0 <= k < |updates| => updates[k].1))
    decreases |updates|
  {
    if updates != [] {
      AppendsOnly(acc + [updates[0].1], updates[1..]);
      assert acc + [updates[0].1] + seq(|updates[1..]|, k requires 0 <= k < |updates[1..]| => updates[1..][k].1)
          == acc + seq(|updates|, k requires 0 <= k < |updates| => updates[k].1);
    } else {
      assert seq(|updates|, k requires 0 <= k < |updates| => updates[k].1) == [];
      assert acc + [] == acc;
    }
  }

  /** Import then export, for one vertex: the vertex's weight list names each
      bone once; every bone's chunk tags the vertex with the status of the
      bone's position, and export visits bones in the same order. The cell
      then holds one entry per bone, in order, each with the bone's index
      and the truncated weight byte. */
  lemma ExportRebuildsWeightList(ws: seq<VertWeight>, boneIndex: map<string, int>, cell: Option<seq<WeightData>>)
    requires |ws| >= 1 && DistinctBones(ws) && WeightsInRange(ws)
    requires forall j :: 0 <= j < |ws| ==> ws[j].name in boneIndex
    ensures CellRun(cell, seq(|ws|, k requires 0 <= k < |ws| =>
              (GetWeightStatus(ws[k].name, ws).value,
               WeightData(boneIndex[ws[k].name], WeightByte(ws[k].weight)))))
         == Ok(seq(|ws|, k requires 0 <= k < |ws| => WeightData(boneIndex[ws[k].name], WeightByte(ws[k].weight))))
  {
    forall k | 0 <= k < |ws| ensures GetWeightStatus(ws[k].name, ws).Ok? {
      StatusByPosition(ws, k);
    }
    var updates := seq(|ws|, k requires 0 <= k < |ws| =>
      (GetWeightStatus(ws[k].name, ws).value, WeightData(boneIndex[ws[k].name], WeightByte(ws[k].weight))));
    forall k | 0 <= k < |ws| ensures updates[k].0 == StatusAt(k, |ws|) {
      StatusByPosition(ws, k);
    }
    StartThenAppends(cell, updates);
    assert seq(|updates|, k requires 0 <= k < |updates| => updates[k].1)
        == seq(|ws|, k requires 0 <= k < |ws| => WeightData(boneIndex[ws[k].name], WeightByte(ws[k].weight)));
  }

  /** A vertex chunk as export reads it. */
  datatype VertexChunk = VertexChunk(
    hasWeight: bool, indexOffset: int, status: WeightStatus, vertexCount: nat, flags: seq<nat>)

  /** The cache id export files a chunk's i-th vertex under. */
  function CacheId(c: VertexChunk, i: int): int
    requires 0 <= i < |c.flags|
  {
    if c.hasWeight then c.indexOffset + UnpackLocalId(c.flags[i]) else i + c.indexOffset
  }

  /** The weight buffer after the chunk's vertices from `i` on, or the fault
      the first failing vertex raises. */
  function ApplyFrom(buf: seq<Option<seq<WeightData>>>, c: VertexChunk, mdlindex: int, i: nat): (r: Result<seq<Option<seq<WeightData>>>>)
    decreases c.vertexCount - i
  {
    if i >= c.vertexCount then Ok(buf)
    else if c.hasWeight && i >= |c.flags| then Err(IndexOutOfRange)
    else
      var id := if c.hasWeight then c.indexOffset + UnpackLocalId(c.flags[i]) else i + c.indexOffset;
      if !(0 <= id < |buf|) then Err(IndexOutOfRange)
      else if !c.hasWeight then ApplyFrom(buf[id := Some([WeightData(mdlindex, 255)])], c, mdlindex, i + 1)
      else
        var cell := CellStep(buf[id], c.status, WeightData(mdlindex, UnpackWeightByte(c.flags[i])));
        if cell.Err? then Err(cell.fault)
        else ApplyFrom(buf[id := Some(cell.value)], c, mdlindex, i + 1)
  }

  /** What a weighted chunk's k-th vertex does to the cell it files under,
      read from the buffer as it was before the chunk. */
  function VertexStep(buf: seq<Option<seq<WeightData>>>, c: VertexChunk, mdlindex: int, k: int): Result<seq<WeightData>>
    requires 0 <= k < |c.flags| && 0 <= CacheId(c, k) < |buf|
  {
    CellStep(buf[CacheId(c, k)], c.status, WeightData(mdlindex, UnpackWeightByte(c.flags[k])))
  }

  /** A weighted chunk whose vertices file under distinct in-range cache ids
      succeeds exactly when every touched cell takes its step (a Middle or
      End vertex needs a cell already filled, else NullReference). */
  lemma {:induction false} ApplyFromOutcome(buf: seq<Option<seq<WeightData>>>, c: VertexChunk, mdlindex: int, i: nat)
    requires c.hasWeight && c.vertexCount == |c.flags| && i <= |c.flags|
    requires forall k :: i <= k < |c.flags| ==> 0 <= CacheId(c, k) < |buf|
    requires forall k, j :: i <= k < j < |c.flags| ==> CacheId(c, k) != CacheId(c, j)
    decreases |c.flags| - i
    ensures ApplyFrom(buf, c, mdlindex, i).Ok? <==>
      forall k :: i <= k < |c.flags| ==> VertexStep(buf, c, mdlindex, k).Ok?
    ensures ApplyFrom(buf, c, mdlindex, i).Err? ==> ApplyFrom(buf, c, mdlindex, i).fault == NullReference
  {
    if i < |c.flags| {
      var id := CacheId(c, i);
      var cell := VertexStep(buf, c, mdlindex, i);
      if cell.Ok? {
        var buf' := buf[id := Some(cell.value)];
        assert ApplyFrom(buf, c, mdlindex, i) == ApplyFrom(buf', c, mdlindex, i + 1);
        assert forall k :: i < k < |c.flags| ==> VertexStep(buf', c, mdlindex, k) == VertexStep(buf, c, mdlindex, k);
        ApplyFromOutcome(buf', c, mdlindex, i + 1);
      }
    }
  }

  /** When such a chunk succeeds, each touched cell holds the result of one
      CellStep on its old content, and every other cell is left alone. */
  lemma {:induction false} ApplyFromCells(buf: seq<Option<seq<WeightData>>>, c: VertexChunk, mdlindex: int, i: nat)
    requires c.hasWeight && c.vertexCount == |c.flags| && i <= |c.flags|
    requires forall k :: i <= k < |c.flags| ==> 0 <= CacheId(c, k) < |buf|
    requires forall k, j :: i <= k < j < |c.flags| ==> CacheId(c, k) != CacheId(c, j)
    decreases |c.flags| - i
    ensures ApplyFrom(buf, c, mdlindex, i).Ok? ==> |ApplyFrom(buf, c, mdlindex, i).value| == |buf|
    ensures ApplyFrom(buf, c, mdlindex, i).Ok? ==> forall k :: i <= k < |c.flags| ==>
      VertexStep(buf, c, mdlindex, k).Ok? &&
      ApplyFrom(buf, c, mdlindex, i).value[CacheId(c, k)] == Some(VertexStep(buf, c, mdlindex, k).value)
    ensures ApplyFrom(buf, c, mdlindex, i).Ok? ==>
      forall id :: 0 <= id < |buf| && (forall k :: i <= k < |c.flags| ==> CacheId(c, k) != id) ==>
        ApplyFrom(buf, c, mdlindex, i).value[id] == buf[id]
  {
    if i < |c.flags| && ApplyFrom(buf, c, mdlindex, i).Ok? {
      var id := CacheId(c, i);
      var cell := VertexStep(buf, c, mdlindex, i);
      var buf' := buf[id := Some(cell.value)];
      assert ApplyFrom(buf, c, mdlindex, i) == ApplyFrom(buf', c, mdlindex, i + 1);
      assert forall k :: i < k < |c.flags| ==> VertexStep(buf', c, mdlindex, k) == VertexStep(buf, c, mdlindex, k);
      ApplyFromCells(buf', c, mdlindex, i + 1);
    }
  }

  /** Export's staging buffer of per-vertex weight lists, indexed by cache id. */
  class WeightBuffer {
    const cells: array<Option<seq<WeightData>>>

    constructor ()
      ensures cells.Length == BufferSize && fresh(cells)
      ensures forall i :: 0 <= i < cells.Length ==> cells[i] == None
    {
      cells := new Option<seq<WeightData>>[BufferSize](_ => None);
    }

    /** Files every vertex of one chunk of node `mdlindex`. A weighted chunk
        starts or extends each vertex's list as its status says; an unweighted
        one gives each vertex a single full weight. The first failing vertex
        raises its fault; the cells it leaves behind are not described. */
    method ApplyChunk(c: VertexChunk, mdlindex: int) returns (r: Result<()>)
      modifies cells
      ensures r.Ok? <==> ApplyFrom(old(cells[..]), c, mdlindex, 0).Ok?
      ensures r.Ok? ==> cells[..] == ApplyFrom(old(cells[..]), c, mdlindex, 0).value
      ensures r.Err? ==> r.fault == ApplyFrom(old(cells[..]), c, mdlindex, 0).fault
    {
      var i := 0;
      while i < c.vertexCount
        invariant 0 <= i <= c.vertexCount
        invariant ApplyFrom(old(cells[..]), c, mdlindex, 0) == ApplyFrom(cells[..], c, mdlindex, i)
      {
        if c.hasWeight && i >= |c.flags| {
          return Err(IndexOutOfRange);
        }
        var id := if c.hasWeight then c.indexOffset + UnpackLocalId(c.flags[i]) else i + c.indexOffset;
        if !(0 <= id < cells.Length) {
          return Err(IndexOutOfRange);
        }
        if !c.hasWeight {
          cells[id] := Some([WeightData(mdlindex, 255)]);
        } else {
          var cell := CellStep(cells[id], c.status, WeightData(mdlindex, UnpackWeightByte(c.flags[i])));
          if cell.Err? {
            return Err(cell.fault);
          }
          cells[id] := Some(cell.value);
        }
        i := i + 1;
      }
      r := Ok(());
    }
  }
}
