# GLideN64 texture cache header, modelled in Dafny

GLideN64's `Textures.h` declares the texture cache of the video plugin: the
`CachedTexture` record (one decoded texture, its GPU object name, its content
CRC and its geometry), the `TextureCache` that owns those records in an
LRU-ordered list with a CRC index and a separate address-keyed pool of
frame-buffer textures, and two inline helpers, `pow2` and `powof`, that round
a texture dimension up to a power of two and give its exponent.

This project models what the header defines with a body:

- `fixed_width.dfy` (module `FixedWidth`): the C++ integer types as newtypes
  and the wrapping `x <<= 1` on a `u32`.
- `texture_dims.dfy` (module `TextureDims`): `pow2` and `powof` as methods
  with the same `u32` loops, proved against reference definitions that halve
  the dimension instead of doubling a counter (`CeilPow2`, `CeilLog2`), plus
  the properties of those definitions. `Doubling(k)` is the counter value after
  `k` shifts, wrap-around included. It shows that above 2^31 the counter goes
  1, 2, ..., 2^31, 0, 0, ... and never reaches the dimension. So the loop
  condition of both helpers stays true forever and the loops cannot end
  (undefined behaviour in C++, where a side-effect-free loop must
  terminate); both methods require `dim <= 2^31`.
- `textures.dfy` (module `Textures`): the frame-buffer marker as a closed
  datatype with its enum values 0/1/2, `CachedTexture` as a class whose
  constructor fixes the documented defaults, and `TextureCache` as a class
  with the header's field layout (`current[2]` as an array of two nullable
  references, the texture list as a sequence, the CRC index and frame-buffer
  pool as maps, the counters and flags) whose constructor sets up the empty
  cache. The C++ list and frame-buffer map hold textures by value; the model
  holds references and states in `TextureCache.Valid` that no texture is held
  twice.

## Model

| member | source | states |
|---|---|---|
| FixedWidth.Shl1 | GLideN64/src/Textures.h:132 | `i <<= 1` on a u32 doubles values below 2^31 and wraps values at or above it, dropping 2^32 |
| TextureDims.Pow2 | GLideN64/src/Textures.h:128-135 | the `pow2` loop returns the least power of two not below `dim`, for every `dim <= 2^31` |
| TextureDims.Powof | GLideN64/src/Textures.h:137-149 | the `powof` loop returns the least exponent `k` with `2^k >= dim`, for every `dim <= 2^31` |
| TextureDims.CeilLog2Least | GLideN64/src/Textures.h:137-149 | `2^k >= dim` holds exactly when `k >= powof(dim)`: `powof` is the least such exponent (both directions) |
| TextureDims.PowofAtMost31 | GLideN64/src/Textures.h:137-149 | for `dim <= 2^31`, `powof(dim) <= 31` |
| TextureDims.PowofOfPowerOfTwo | GLideN64/src/Textures.h:137-149 | `powof(2^k) == k` |
| TextureDims.PowofMonotone | GLideN64/src/Textures.h:137-149 | `powof` is monotone non-decreasing |
| TextureDims.CeilPow2IsExp2 | GLideN64/src/Textures.h:128-149 | the helpers agree: `pow2(dim) == 2^powof(dim)` |
| TextureDims.Pow2IsPowerOfTwo | GLideN64/src/Textures.h:128-135 | `pow2(dim)` is a power of two |
| TextureDims.Pow2Bounds | GLideN64/src/Textures.h:128-135 | `pow2(dim) >= 1`, `pow2(dim) >= dim`, `pow2(dim) < 2 * dim` for `dim >= 1`, and `pow2(0) == pow2(1) == 1` |
| TextureDims.Pow2Least | GLideN64/src/Textures.h:128-135 | every power of two not below `dim` is at least `pow2(dim)` |
| TextureDims.Pow2OfPowerOfTwo | GLideN64/src/Textures.h:128-135 | `pow2` is the identity on powers of two |
| TextureDims.Pow2Idempotent | GLideN64/src/Textures.h:128-135 | rounding twice gives the same as rounding once |
| TextureDims.Pow2Monotone | GLideN64/src/Textures.h:128-135 | `pow2` is monotone non-decreasing |
| TextureDims.DoublingValue | GLideN64/src/Textures.h:130-132 | after `k` shifts from 1 the u32 counter is `2^k` for `k <= 31` and 0 afterwards |
| TextureDims.Pow2DivergesAbove | GLideN64/src/Textures.h:128-149 | for `dim > 2^31` every counter value of either loop is below `dim`, so neither loop condition ever becomes false |
| TextureDims.DoublingReaches | GLideN64/src/Textures.h:128-149 | for `dim <= 2^31` the counter stays below `dim` for the first `powof(dim)` shifts and then equals `pow2(dim)` |
| Textures.FrameBufferKind.Code | GLideN64/src/Textures.h:48-52 | the marker's values are below 3, with 0 exactly `fbNone` and 1 exactly `fbOneSample`, so 2 is `fbMultiSample` |
| Textures.FrameBufferKindOf | GLideN64/src/Textures.h:48-52 | a value names a marker exactly when it is below 3 |
| Textures.FrameBufferKindRoundTrip | GLideN64/src/Textures.h:48-52 | marker to value to marker is the identity, and value to marker to value too |
| Textures.CachedTexture.constructor | GLideN64/src/Textures.h:22-53 | a new texture keeps its GPU name and has CRC 0, max level 0, a 0x0 mip-map atlas, marker `fbNone` and is not an HD texture |
| Textures.TextureCache.constructor | GLideN64/src/Textures.h:74-115 | a new cache has both current slots null, no dummies, 0 hits and misses, unpack alignment 4, dumping off, 0 HD bytes, and an empty texture list, CRC index and frame-buffer pool |

## Left out

- `update`, `init`, `destroy`, `clear`, `_checkCacheSize`, `_checkHdTexLimit`, `_addTexture`: only declared in the header, so the cache algorithms (lookup, LRU promotion, eviction budgets and their thresholds) would be invented behaviour.
- `addFrameBufferTexture`, `removeFrameBufferTexture`, `activateTexture`, `activateDummy`, `activateMSDummy`, `toggleDumpTex`: only declared; their bodies are not part of this model.
- The loaders `_loadFast`, `_loadAccurate`, `_loadHiresTexture`, `_loadBackground`, `_loadHiresBackground`, `_loadDepthTexture`, `_updateBackground`, `_initDummyTexture`, `_getTextureDestData`, `_updateCachedTexture`: only declared, and they decode emulated memory through texel functions defined elsewhere.
- `CRC_Init` in the cache constructor and all CRC hashing: foreign calls into the CRC module.
- The float fields `offsetS/T`, `scaleS/T`, `hdRatioS/T`, `shiftScaleS/T` and `getTextureShiftScale`: floating point, and the function is only declared.
- `needReplaceTex1ByTex0`: only declared; it depends on combiner state outside the cache.
- `TextureCache::get()` and `textureCache()`: the process-wide singleton accessor.
- `GetTexelFunc` / `GetTexelFuncBG`: texel decoder function pointers defined elsewhere.
- `graphics::ObjectHandle` is an opaque value (`ObjectHandle(id)`) that the model only stores; `graphics::Parameter` appears only in left-out signatures.
- The fields the C++ constructor of `CachedTexture` leaves uninitialised (masks, clamps, mirrors, line, size, format, tMem, palette, width, height, clamp sizes, texture bytes, address) are left unconstrained by the constructor's contract.
