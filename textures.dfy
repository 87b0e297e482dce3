/** The texture cache's record types and the state they are constructed in:
    CachedTexture, one decoded texture and its GPU object; its frame-buffer
    marker; and TextureCache, which owns the LRU list of textures, the index
    from content CRC to list entry and the address-keyed frame-buffer
    textures, and tracks the two currently bound textures. */
module Textures {
  import opened FixedWidth

  datatype Option<T> = None | Some(value: T)

  /** The name of a GPU texture object. The cache only stores and compares
      it; what the graphics layer does with it is not modelled. */
  datatype ObjectHandle = ObjectHandle(id: nat)

  /** Whether a texture is a copy of a frame buffer, and of which kind. */
  datatype FrameBufferKind = FbNone | FbOneSample | FbMultiSample
  {
    /** The enumerator's value in the C++ enum. */
    function Code(): (c: u8)
      ensures c < 3
      ensures c == 0 <==> this == FbNone
      ensures c == 1 <==> this == FbOneSample
    {
      match this
      case FbNone => 0
      case FbOneSample => 1
      case FbMultiSample => 2
    }
  }

  /** Reads an enumerator back from its value; no other value is one. */
  function FrameBufferKindOf(c: u8): (r: Option<FrameBufferKind>)
    ensures r.Some? <==> c < 3
  {
    if c == 0 then Some(FbNone)
    else if c == 1 then Some(FbOneSample)
    else if c == 2 then Some(FbMultiSample)
    else None
  }

  /** The enumerators have distinct values, and each value reads back as the
      enumerator it came from. */
  lemma FrameBufferKindRoundTrip(k: FrameBufferKind, c: u8)
    ensures FrameBufferKindOf(k.Code()) == Some(k)
    ensures FrameBufferKindOf(c).Some? ==> FrameBufferKindOf(c).value.Code() == c
  {
  }

  /** One texture in the cache. The floating-point fields (offsets, scales,
      HD ratios, shift scales) are not part of this model. */
  class CachedTexture {
    var name: ObjectHandle
    var crc: u64
    var maskS: u8
    var maskT: u8
    var clampS: u8
    var clampT: u8
    var mirrorS: u8
    var mirrorT: u8
    var line: u16
    var size: u16
    var format: u16
    var tMem: u32
    var palette: u32
    var width: u16
    var height: u16
    var clampWidth: u16
    var clampHeight: u16
    var textureBytes: u32
    var address: u32
    var maxLevel: u8
    var mipmapAtlasWidth: u16
    var mipmapAtlasHeight: u16
    var frameBufferTexture: FrameBufferKind
    var hdTexture: bool

    /** A texture takes its GPU name and starts with CRC 0, no mip levels, no
        mip-map atlas, as an ordinary (non frame-buffer, non HD) texture. The
        remaining fields are left indeterminate, as in the C++ constructor. */
    constructor (name: ObjectHandle)
      ensures this.name == name
      ensures crc == 0 && maxLevel == 0
      ensures mipmapAtlasWidth == 0 && mipmapAtlasHeight == 0
      ensures frameBufferTexture == FbNone && !hdTexture
    {
      this.name := name;
      crc := 0;
      maxLevel := 0;
      mipmapAtlasWidth := 0;
      mipmapAtlasHeight := 0;
      frameBufferTexture := FbNone;
      hdTexture := false;
    }
  }

  /** The texture cache. `textures` is the LRU-ordered list that owns the
      cached textures; `lruTextureLocations` maps a 64-bit CRC to its entry in
      that list; `fbTextures` holds frame-buffer textures by address;
      `current` is the pair of currently bound textures. */
  class TextureCache {
    var current: array<CachedTexture?>
    var textures: seq<CachedTexture>
    var lruTextureLocations: map<u64, CachedTexture>
    var fbTextures: map<u32, CachedTexture>
    var dummy: CachedTexture?
    var msDummy: CachedTexture?
    var hits: u32
    var misses: u32
    var curUnpackAlignment: s32
    var toggleDumpTex: bool
    var tempTextureHolder: seq<u32>
    var hdTexCacheSize: u64

    /** The shape the field types fix: two binding slots; a CRC index whose
        every entry points into the texture list; and, since the list and the
        frame-buffer map hold their textures by value, no texture held twice
        by the list, twice by the map, or by both. */
    ghost predicate Valid()
      reads this
    {
      current.Length == 2 &&
      (forall crc | crc in lruTextureLocations :: lruTextureLocations[crc] in textures) &&
      (forall i, j | 0 <= i < j < |textures| :: textures[i] != textures[j]) &&
      (forall a | a in fbTextures :: fbTextures[a] !in textures) &&
      (forall a, b | a in fbTextures && b in fbTextures && a != b :: fbTextures[a] != fbTextures[b])
    }

    /** True when neither slot holds a texture. */
    predicate NothingBound()
      reads this, current
      requires current.Length == 2
    {
      current[0] == null && current[1] == null
    }

    /** A new cache has nothing bound, no dummies, zero hits and misses, an
        unpack alignment of 4, dumping off, no HD texture bytes and empty
        texture list, CRC index and frame-buffer map. */
    constructor ()
      ensures Valid() && fresh(current)
      ensures NothingBound()
      ensures dummy == null && msDummy == null
      ensures hits == 0 && misses == 0
      ensures curUnpackAlignment == 4
      ensures !toggleDumpTex
      ensures hdTexCacheSize == 0
      ensures textures == [] && lruTextureLocations == map[] && fbTextures == map[]
      ensures tempTextureHolder == []
    {
      current := new CachedTexture?[2](_ => null);
      textures := [];
      lruTextureLocations := map[];
      fbTextures := map[];
      dummy := null;
      msDummy := null;
      hits := 0;
      misses := 0;
      curUnpackAlignment := 4;
      toggleDumpTex := false;
      tempTextureHolder := [];
      hdTexCacheSize := 0;
    }
  }
}
