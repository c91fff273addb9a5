/** Texture binding between the engine's materials and the scene's: the
    per-axis wrap mode chosen from the clamp and flip flags on export, the
    flags read back from the wrap mode on import, and the texture id found
    by scanning the texture-name list. */
module Materials {
  import opened Wrappers
  import Strips

  datatype WrapMode = Wrap | Clamp | Mirror | Decal

  /** Export, per axis: Clamp over Mirror over Wrap. */
  function WrapModeOf(clamp: bool, flip: bool): (m: WrapMode)
    ensures m == Clamp <==> clamp
    ensures m == Mirror <==> !clamp && flip
    ensures m == Wrap <==> !clamp && !flip
  {
    if clamp then Clamp else if flip then Mirror else Wrap
  }

  /** The engine material's texture flags. */
  datatype TexFlags = TexFlags(useTexture: bool, clampU: bool, clampV: bool, flipU: bool, flipV: bool)

  /** Import (Material.ToSAModel): the flags start at `dflt`, the defaults
      of a new engine material; a diffuse texture turns the texture on and
      sets clamp or flip for an axis whose wrap mode is Clamp or Mirror.
      Nothing is ever switched off. */
  function FlagsOf(dflt: TexFlags, hasDiffuse: bool, wrapU: WrapMode, wrapV: WrapMode): (f: TexFlags)
    ensures f.useTexture <==> dflt.useTexture || hasDiffuse
    ensures f.clampU <==> dflt.clampU || (hasDiffuse && wrapU == Clamp)
    ensures f.clampV <==> dflt.clampV || (hasDiffuse && wrapV == Clamp)
    ensures f.flipU <==> dflt.flipU || (hasDiffuse && wrapU == Mirror)
    ensures f.flipV <==> dflt.flipV || (hasDiffuse && wrapV == Mirror)
  {
    if hasDiffuse then
      TexFlags(true, dflt.clampU || wrapU == Clamp, dflt.clampV || wrapV == Clamp,
               dflt.flipU || wrapU == Mirror, dflt.flipV || wrapV == Mirror)
    else dflt
  }

  /** Defaults with no clamp and no flip on either axis. */
  predicate NoWrapFlags(f: TexFlags) {
    !f.clampU && !f.clampV && !f.flipU && !f.flipV
  }

  /** Exporting a wrap mode read back from Wrap, Clamp or Mirror gives the
      same mode, when the defaults set no clamp or flip. */
  lemma WrapModeRoundTrip(dflt: TexFlags, m: WrapMode)
    requires NoWrapFlags(dflt)
    requires m != Decal
    ensures WrapModeOf(FlagsOf(dflt, true, m, m).clampU, FlagsOf(dflt, true, m, m).flipU) == m
    ensures WrapModeOf(FlagsOf(dflt, true, m, m).clampV, FlagsOf(dflt, true, m, m).flipV) == m
  {
  }

  /** Exporting a textured material and importing the result over defaults
      with no clamp or flip keeps the texture and the clamp flags, and keeps
      flip exactly where clamp is off: a flip under a clamp is lost. */
  lemma FlagsRoundTrip(dflt: TexFlags, f: TexFlags)
    requires NoWrapFlags(dflt)
    requires f.useTexture
    ensures var g := FlagsOf(dflt, true, WrapModeOf(f.clampU, f.flipU), WrapModeOf(f.clampV, f.flipV));
      g.useTexture && g.clampU == f.clampU && g.clampV == f.clampV
      && g.flipU == (f.flipU && !f.clampU) && g.flipV == (f.flipV && !f.clampV)
  {
  }

  /** The texture slot export writes: the texture is used, a texture list
      was given and the id is inside it. */
  function ExportSlot(f: TexFlags, textureId: nat, texCount: Option<nat>): (r: Option<(int, WrapMode, WrapMode)>)
    ensures r.Some? <==> f.useTexture && texCount.Some? && textureId < texCount.value
    ensures r.Some? ==> r.value.0 == textureId
    ensures r.Some? ==> r.value.1 == WrapModeOf(f.clampU, f.flipU) && r.value.2 == WrapModeOf(f.clampV, f.flipV)
  {
    if f.useTexture && texCount.Some? && textureId < texCount.value then
      Some((textureId, WrapModeOf(f.clampU, f.flipU), WrapModeOf(f.clampV, f.flipV)))
    else None
  }

  // ---------------------------------------------------------------------------
  // Texture ids

  /** ASCII lower case; culture-specific case mappings are not modelled. */
  function Lower(s: string): (r: string)
    ensures |r| == |s|
  {
    if s == [] then []
    else [if 'A' <= s[0] <= 'Z' then (s[0] as int + 32) as char else s[0]] + Lower(s[1..])
  }

  /** The diffuse file's base name is compared exactly, the material name
      ignoring case. */
  predicate NameMatches(name: string, target: string, ignoreCase: bool) {
    if ignoreCase then Lower(name) == Lower(target) else name == target
  }

  /** The result of scanning every name without stopping: the last index
      whose name matches, or `dflt` when none does. */
  function LastMatch(names: seq<string>, target: string, ignoreCase: bool, dflt: int): (id: int)
    ensures (exists j :: 0 <= j < |names| && NameMatches(names[j], target, ignoreCase)) ==>
      0 <= id < |names| && NameMatches(names[id], target, ignoreCase) &&
      forall j :: id < j < |names| ==> !NameMatches(names[j], target, ignoreCase)
    ensures (forall j :: 0 <= j < |names| ==> !NameMatches(names[j], target, ignoreCase)) ==> id == dflt
  {
    if names == [] then dflt
    else if NameMatches(names[|names| - 1], target, ignoreCase) then |names| - 1
    else LastMatch(names[..|names| - 1], target, ignoreCase, dflt)
  }

  /** One more name scanned: it becomes the result when it matches. */
  lemma LastMatchStep(names: seq<string>, j: int, target: string, ignoreCase: bool, dflt: int)
    requires 0 <= j < |names|
    ensures LastMatch(names[..j + 1], target, ignoreCase, dflt)
         == if NameMatches(names[j], target, ignoreCase) then j else LastMatch(names[..j], target, ignoreCase, dflt)
  {
    assert names[..j + 1][..j] == names[..j];
  }

  /** The scan `for j: if (match) texId = j`. */
  method FindTextureId(names: seq<string>, target: string, ignoreCase: bool, dflt: int) returns (id: int)
    ensures id == LastMatch(names, target, ignoreCase, dflt)
  {
    id := dflt;
    var j := 0;
    while j < |names|
      invariant 0 <= j <= |names|
      invariant id == LastMatch(names[..j], target, ignoreCase, dflt)
    {
      LastMatchStep(names, j, target, ignoreCase, dflt);
      if NameMatches(names[j], target, ignoreCase) {
        id := j;
      }
      j := j + 1;
    }
    assert names[..j] == names;
  }

  /** The chunks ProcessMesh and AssimpImportChunk emit for a mesh's
      material: nothing for a missing material; otherwise a material chunk,
      followed, when a texture list was given, by a tiny texture-id chunk
      holding the last texture named like the diffuse file (exactly) when
      the material has a diffuse texture, else the last named like the
      material (ignoring case), 0 when nothing matches, stored as a
      ushort. */
  method TextureChunks(hasMaterial: bool, hasDiffuse: bool, diffuseBase: string, materialName: string,
                       texInfo: Option<seq<string>>)
    returns (material: bool, tiny: Option<int>)
    ensures material == hasMaterial
    ensures tiny.Some? <==> hasMaterial && texInfo.Some?
    ensures tiny.Some? ==> 0 <= tiny.value < 0x1_0000
    ensures tiny.Some? && hasDiffuse ==> tiny.value == Strips.UShort(LastMatch(texInfo.value, diffuseBase, false, 0))
    ensures tiny.Some? && !hasDiffuse ==> tiny.value == Strips.UShort(LastMatch(texInfo.value, materialName, true, 0))
  {
    material, tiny := hasMaterial, None;
    if !hasMaterial || texInfo.None? {
      return;
    }
    var id;
    if hasDiffuse {
      id := FindTextureId(texInfo.value, diffuseBase, false, 0);
    } else {
      id := FindTextureId(texInfo.value, materialName, true, 0);
    }
    tiny := Some(Strips.UShort(id));
  }

  /** Some name in `names` matches. */
  predicate AnyMatch(names: seq<string>, target: string, ignoreCase: bool) {
    exists k :: 0 <= k < |names| && NameMatches(names[k], target, ignoreCase)
  }

  /** One more name scanned: there is a match exactly when there was one
      already or the new name matches. */
  lemma AnyMatchStep(names: seq<string>, j: int, target: string, ignoreCase: bool)
    requires 0 <= j < |names|
    ensures AnyMatch(names[..j + 1], target, ignoreCase)
        <==> AnyMatch(names[..j], target, ignoreCase) || NameMatches(names[j], target, ignoreCase)
  {
    if AnyMatch(names[..j + 1], target, ignoreCase) && !NameMatches(names[j], target, ignoreCase) {
      var k :| 0 <= k < j + 1 && NameMatches(names[..j + 1][k], target, ignoreCase);
      assert names[..j][k] == names[..j + 1][k];
    }
    if AnyMatch(names[..j], target, ignoreCase) {
      var k :| 0 <= k < j && NameMatches(names[..j][k], target, ignoreCase);
      assert names[..j + 1][k] == names[..j][k];
    }
    if NameMatches(names[j], target, ignoreCase) {
      assert names[..j + 1][j] == names[j];
    }
  }

  /** The basic-model scan without a diffuse texture: every name matching
      the material's, ignoring case, sets the id and turns the texture on. */
  method ScanMaterialName(names: seq<string>, materialName: string, useTexture: bool, textureId: int)
    returns (use: bool, id: int)
    ensures id == LastMatch(names, materialName, true, textureId)
    ensures use <==> useTexture || AnyMatch(names, materialName, true)
  {
    use, id := useTexture, textureId;
    var j := 0;
    while j < |names|
      invariant 0 <= j <= |names|
      invariant id == LastMatch(names[..j], materialName, true, textureId)
      invariant use <==> useTexture || AnyMatch(names[..j], materialName, true)
    {
      LastMatchStep(names, j, materialName, true, textureId);
      AnyMatchStep(names, j, materialName, true);
      if NameMatches(names[j], materialName, true) {
        id := j;
        use := true;
      }
      j := j + 1;
    }
    assert names[..j] == names;
  }

  /** A basic-model material's texture: with a diffuse texture and a list,
      the texture is used and the id becomes the last exact match (left as
      it was when nothing matches); without a diffuse texture, every
      case-insensitive match of the material name sets the id and turns the
      texture on. */
  method BasicTexture(useTexture: bool, textureId: int, hasDiffuse: bool, diffuseBase: string,
                      materialName: string, textures: Option<seq<string>>)
    returns (use: bool, id: int)
    ensures textures.None? ==> use == useTexture && id == textureId
    ensures textures.Some? && hasDiffuse ==>
      use && id == LastMatch(textures.value, diffuseBase, false, textureId)
    ensures textures.Some? && !hasDiffuse ==>
      id == LastMatch(textures.value, materialName, true, textureId) &&
      (use <==> useTexture || exists j :: 0 <= j < |textures.value| && NameMatches(textures.value[j], materialName, true))
  {
    use, id := useTexture, textureId;
    if textures.None? {
      return;
    }
    if hasDiffuse {
      use := true;
      id := FindTextureId(textures.value, diffuseBase, false, textureId);
    } else {
      use, id := ScanMaterialName(textures.value, materialName, useTexture, textureId);
    }
  }

  /** AssimpImportBasic's material table: each mesh's material index maps
      to the position of the material it adds; a second mesh with the same
      material index fails as Dictionary.Add does. */
  method MaterialSlots(materialIndices: seq<int>) returns (r: Result<map<int, int>>)
    ensures r.Ok? <==> forall i, j :: 0 <= i < j < |materialIndices| ==> materialIndices[i] != materialIndices[j]
    ensures r.Err? ==> r.fault == DuplicateKey
    ensures r.Ok? ==> r.value.Keys == set i | 0 <= i < |materialIndices| :: materialIndices[i]
    ensures r.Ok? ==> forall i :: 0 <= i < |materialIndices| ==> r.value[materialIndices[i]] == i
  {
    var m: map<int, int> := map[];
    var i := 0;
    while i < |materialIndices|
      invariant 0 <= i <= |materialIndices|
      invariant forall a, b :: 0 <= a < b < i ==> materialIndices[a] != materialIndices[b]
      invariant m.Keys == set k | 0 <= k < i :: materialIndices[k]
      invariant forall k :: 0 <= k < i ==> m[materialIndices[k]] == k
    {
      if materialIndices[i] in m {
        var k :| 0 <= k < i && materialIndices[k] == materialIndices[i];
        return Err(DuplicateKey);
      }
      m := m[materialIndices[i] := i];
      i := i + 1;
    }
    r := Ok(m);
  }
}
