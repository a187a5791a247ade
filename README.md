# OpenXRViewer: mip pyramid, bump arena and D3D12 integer rules in Dafny

This project models three parts of the OpenXRViewer repository and proves properties of each model.

**EquirectConverter mip pyramid.** `GenerateConventionalMipLevel` halves an 8-bit, row-major, interleaved-channel image. Point filtering copies texel `(2i, 2j)`; Box filtering stores the truncated mean of the 2x2 block. The Kaiser arm stores nothing. `GenerateEquirectMipLevel` has the same Point arm, an unfinished Box arm, and a final `assert(false)`. `GenerateMipMap` copies the decoded image to level 0 and keeps halving while both dimensions are at least 2, writing every level as `prefix<level>.png`. Each level buffer comes from a `MemoryArena`.

**EquirectConverter memory arena.** `MemoryArena` is a bump allocator with three counters: `used`, `committed` and `capacity`. Pages are committed in granularity-aligned steps. `ArenaList<T>` is a fixed-capacity, push-only list whose storage is a single arena allocation.

**OpenXRViewer D3D12 plugin rules.** The project covers:
- `AlignTo<alignment>` on `uint32_t`;
- the upload-heap size rounding in `CreateBuffer`;
- the first-match swapchain format choice;
- the grow-only model constant buffer;
- the per-format pipeline-state cache;
- the constant-buffer write offsets in `RenderView`;
- the swapchain-image bookkeeping;
- the fence counter.

How the model is built:
- Every algorithm that fills an array in the source is a `method` over a Dafny `array`. Each is proved against a specification function on sequences (`PointMip`, `BoxMip`, `MipChain`, `ModelWriteRanges`).
- Every object whose fields the source updates is a `class`: `MemoryArena`, `ArenaList`, `SwapchainImageContext` and `D3D12GraphicsPlugin`.
- Fixed-width C++ integers are unbounded `nat` values. The wrap is written out in `Align` (`size_t`, 2^64), `AlignTo`, `ModelCBufferRequest` and `SlotOffset` (`uint32_t`, 2^32), and `NextFenceValue` (`uint64_t`, 2^64). Elsewhere the model keeps to values that do not wrap (see "Left out").
- Assertions are taken as enabled, as in a debug build. An `assert` that fails ends the run. The driver reports that as `AssertionFailed`, and a `CHECK` as `None`.

Files:
- `bits.dfy` (module `BitMath`): the `x & ~(a - 1)` mask on powers of two, and rounding facts.
- `wrappers.dfy` (module `Wrappers`): `Option`.
- `memory.dfy` (module `Memory`): `Align`, `MemoryArena`, `NewArray`/`NewObject`, `ArenaList`.
- `mip_filters.dfy` (module `MipFilters`): texel addressing, the Point and Box filters as specification functions and as array-filling methods, and the odd-dimension finding.
- `mip_generator.dfy` (module `MipGenerator`): the two level generators, the pyramid driver, level paths, and the properties of the whole run.
- `d3d12.dfy` (module `D3D12Plugin`): the plugin's integer, selection and bookkeeping rules.

## Model

| member | source | states |
|---|---|---|
| Memory.Align | EquirectConverter/src/Memory.cpp:17-20 | `(value + alignment - 1) & ~(alignment - 1)` with the `size_t` sum wrapping; the result is always a multiple of the alignment below 2^64 |
| Memory.AlignIsLeastMultiple | EquirectConverter/src/Memory.cpp:17-20 | without wrap-around, `Align` is the least multiple of the power-of-two alignment that is at least the value, and an aligned value is unchanged |
| Memory.AlignWrapsToZero | EquirectConverter/src/Memory.cpp:17-20 | for every power-of-two alignment below 2^64 and every value whose `value + alignment - 1` passes 2^64, the wrapped sum rounds down to 0 |
| Memory.DefaultsFit | EquirectConverter/src/Memory.h:16-23 | the default 1 GiB capacity and 64 KiB granularity meet the constructor's requirements: a power-of-two granularity below 2^32, and `capacity + granularity` within 2^64 |
| Memory.TilesAreDisjoint | EquirectConverter/src/Memory.cpp:25-39 | blocks handed out one after another from offset 0 are pairwise disjoint, in increasing order, and all below `used` |
| Memory.MemoryArena.constructor | EquirectConverter/src/Memory.cpp:8-15 | capacity is the argument, granularity is the system's, `used = committed = 0`, no blocks; the arena invariant holds |
| Memory.MemoryArena.Allocate | EquirectConverter/src/Memory.cpp:22-40 | requires `used + size <= capacity` (line 26); returns the old `used` and advances `used` by `size`; `committed` grows by `Align(newUsed - committed, granularity)` only when `newUsed > committed`, so it never decreases, stays a multiple of the granularity and ends less than one granule past `used`; the new block follows the old ones |
| Memory.MemoryArena.Reset | EquirectConverter/src/Memory.cpp:42-53 | `used` becomes 0; `committed` becomes 0 with `freePages` and is otherwise unchanged; the invariant is kept |
| Memory.NewArray | EquirectConverter/src/Memory.h:65 | takes exactly `sizeof(T) * count` bytes at the old `used` |
| Memory.NewObject | EquirectConverter/src/Memory.h:64 | takes exactly `sizeof(T)` bytes at the old `used` |
| Memory.ArenaList.constructor | EquirectConverter/src/Memory.h:97-99 | a list starts with a null base and capacity and size 0 |
| Memory.ArenaList.Allocate | EquirectConverter/src/Memory.h:71-77 | requires a null base (line 73); the base becomes the arena offset of one `NewArray` of `capacity` elements; capacity is the request and size is 0 |
| Memory.ArenaList.Get | EquirectConverter/src/Memory.h:79-84 | requires `index < size`; returns element `index` |
| Memory.ArenaList.Set | EquirectConverter/src/Memory.h:79-84 | requires `index < size`; element `index` of the list and of the whole storage becomes the new value and no other element changes |
| Memory.ArenaList.NewElement | EquirectConverter/src/Memory.h:86-90 | requires `size < capacity`; returns slot `size` and grows the list by exactly that slot; `size <= capacity` is kept |
| Memory.ArenaList.Clear | EquirectConverter/src/Memory.h:92-95 | size becomes 0 and the list is empty; base, capacity and storage are untouched |
| MipFilters.TexelOffsetInBounds | EquirectConverter/src/EquirectConverter.cpp:125-126 | the row-major offset of an in-range texel and channel lies inside the `w * h * channels` buffer |
| MipFilters.TexelOffsetDecompose | EquirectConverter/src/EquirectConverter.cpp:125-126 | a texel offset determines its texel and channel |
| MipFilters.TargetTexel | EquirectConverter/src/EquirectConverter.cpp:126 | each byte of a target image belongs to exactly one in-range texel and channel |
| MipFilters.BoxAverage | EquirectConverter/src/EquirectConverter.cpp:151-154 | the truncated mean of four bytes lies between their minimum and maximum (so it fits a byte), and equals `v` when all four are `v` |
| MipFilters.SourceBlock | EquirectConverter/src/EquirectConverter.cpp:143-146 | for a target texel inside the halved image, all four source offsets of its 2x2 block are inside the source |
| MipFilters.PointMip | EquirectConverter/src/EquirectConverter.cpp:113-134 | the point-filtered level has exactly `(w/2) * (h/2) * channels` bytes |
| MipFilters.BoxMip | EquirectConverter/src/EquirectConverter.cpp:113-158 | the box-filtered level has exactly `(w/2) * (h/2) * channels` bytes |
| MipFilters.PointMipTexel | EquirectConverter/src/EquirectConverter.cpp:113-133 | the point-filtered level has `(w/2) * (h/2) * channels` bytes, and channel `c` of target texel `(i, j)` is channel `c` of source texel `(2i, 2j)` |
| MipFilters.BoxMipTexel | EquirectConverter/src/EquirectConverter.cpp:113-157 | the box-filtered level has `(w/2) * (h/2) * channels` bytes, and channel `c` of target texel `(i, j)` is the truncated mean of channel `c` of the four texels of block `(2i, 2j)` |
| MipFilters.BoxChannel | EquirectConverter/src/EquirectConverter.cpp:143-154 | the same Box equation with each offset written as its texel's first byte plus `c`, as lines 143-154 index |
| MipFilters.BlockOffsets | EquirectConverter/src/EquirectConverter.cpp:125-147 | the source and target indices of the loops, at even `x = 2i`, `y = 2j`, are the offsets of texels `(2i, 2j)`..`(2i+1, 2j+1)` and `(i, j)` |
| MipFilters.CopyPointTexel | EquirectConverter/src/EquirectConverter.cpp:128-131 | the channel loop extends the filled prefix of the target by one texel of the point-filtered level |
| MipFilters.PointFilter | EquirectConverter/src/EquirectConverter.cpp:119-134 | a fresh buffer holding exactly the point-filtered level; the source is not written |
| MipFilters.AverageBoxTexel | EquirectConverter/src/EquirectConverter.cpp:149-155 | the channel loop extends the filled prefix of the target by one texel of the box-filtered level |
| MipFilters.BoxFilter | EquirectConverter/src/EquirectConverter.cpp:137-158 | a fresh buffer holding exactly the box-filtered level; the source is not written |
| MipFilters.AsWrittenWritesPastTarget | EquirectConverter/src/EquirectConverter.cpp:121-131 | with an odd width or height, the loops as written visit an `(x, y)` whose target index plus the channel count is past the `(w/2) * (h/2) * channels` buffer |
| MipFilters.AsWrittenBoxReadsPastSource | EquirectConverter/src/EquirectConverter.cpp:139-154 | with an odd width or height, the Box arm as written reads a fourth block index past the source buffer |
| MipFilters.CorrectedVisitsInBounds | EquirectConverter/src/EquirectConverter.cpp:121-154 | with loops bounded by twice the target dimensions, every write is inside the target and every read inside the source |
| MipFilters.CorrectedVisitsAgreeOnEvenDimensions | EquirectConverter/src/EquirectConverter.cpp:121-141 | for even dimensions the corrected loops visit exactly the pairs the loops as written visit |
| MipGenerator.Zeros | EquirectConverter/src/Memory.h:65 | a value-initialised `NewArray` of `n` bytes holds `n` zeros |
| MipGenerator.ConventionalLevel | EquirectConverter/src/EquirectConverter.cpp:111-169 | the conventional generator always returns a level of `(w/2) * (h/2) * channels` bytes, whatever the filter |
| MipGenerator.EquirectLevel | EquirectConverter/src/EquirectConverter.cpp:171-220 | the equirect generator returns a level exactly for the Box filter, of `(w/2) * (h/2) * channels` bytes; Point and Kaiser reach `assert(false)` |
| MipGenerator.NextLevel | EquirectConverter/src/EquirectConverter.cpp:113-217 | every level a generator returns has `(w/2) * (h/2) * channels` bytes; a level exists exactly for the regular shape or the Box filter, and every other equirect request reaches `assert(false)` |
| MipGenerator.GenerateConventionalMipLevel | EquirectConverter/src/EquirectConverter.cpp:111-169 | takes the level's bytes from the arena and returns the point- or box-filtered level, or the untouched zero buffer for Kaiser |
| MipGenerator.GenerateEquirectMipLevel | EquirectConverter/src/EquirectConverter.cpp:171-220 | takes the level's bytes from the arena; Point (after filling) and Kaiser fail the final assertion; Box returns the buffer untouched |
| MipGenerator.GenerateLevel | EquirectConverter/src/EquirectConverter.cpp:253-261 | dispatches on the image shape; fails exactly when the arena lacks room (Memory.cpp line 26) or the generator's assertion fails, and otherwise returns the next level |
| MipGenerator.DecimalStringRoundTrip | EquirectConverter/src/EquirectConverter.cpp:267 | `std::to_string` of a level gives digits only, with no leading zero, and reads back as the level |
| MipGenerator.LevelPathsDistinct | EquirectConverter/src/EquirectConverter.cpp:243-267 | different levels are written to different paths |
| MipGenerator.LevelZeroPath | EquirectConverter/src/EquirectConverter.cpp:243 | `prefix + "0.png"` is the path of level 0 |
| MipGenerator.MipChain | EquirectConverter/src/EquirectConverter.cpp:251-269 | the level loop: while both dimensions are at least 2, an assertion fails when the arena is full or the generator fails, and otherwise the next level is written and the loop goes on from it; the loop never ends with a load failure |
| MipGenerator.MipChainUnfold | EquirectConverter/src/EquirectConverter.cpp:251-269 | the unfolding of `MipChain`'s definition for one turn: an assertion failure on a full arena or a failed generator, otherwise level `index + 1` at the halved dimensions followed by the rest of the loop |
| MipGenerator.MipChainStops | EquirectConverter/src/EquirectConverter.cpp:253-261 | a turn without room in the arena or without a next level writes nothing more and ends with the assertion failure |
| MipGenerator.MipChainStep | EquirectConverter/src/EquirectConverter.cpp:253-268 | a turn with room and a next level writes that level, with `(w/2) * (h/2) * channels` bytes, as level `index + 1`, then continues as the rest of the loop does |
| MipGenerator.GenerateChainLevel | EquirectConverter/src/EquirectConverter.cpp:253-265 | one turn of the loop on the arena: when it returns no level, `MipChain` of the current level writes nothing more and ends with the assertion failure; otherwise the new level has `(w/2) * (h/2) * channels` bytes and its write followed by the rest of the loop is `MipChain` of the current level |
| MipGenerator.MipMapRun | EquirectConverter/src/EquirectConverter.cpp:222-272 | the run ends with a load failure exactly when decoding failed; a decoded image that fits the arena is written first, as level 0, byte for byte |
| MipGenerator.MipMapRunLoaded | EquirectConverter/src/EquirectConverter.cpp:229-269 | a decoded image that fits the arena is written as `prefix0.png` and followed by the level loop started from it at level 0 |
| MipGenerator.CopyImage | EquirectConverter/src/EquirectConverter.cpp:239-240 | level 0 is a byte-for-byte copy of the decoded image |
| MipGenerator.GenerateMipMap | EquirectConverter/src/EquirectConverter.cpp:222-272 | the files written and the ending are exactly `MipMapRun` of the decoding outcome |
| MipGenerator.WriteMipLevels | EquirectConverter/src/EquirectConverter.cpp:246-269 | the loop writes exactly the levels `MipChain` specifies and ends as it does |
| MipGenerator.HalvingsIsFloorLog2 | EquirectConverter/src/EquirectConverter.cpp:251-264 | the number of halvings while both dimensions are at least 2 is `floor(log2(min(w, h)))` |
| MipGenerator.HalvedLevels | EquirectConverter/src/EquirectConverter.cpp:263-267 | along a chain of halved writes, write `k` has dimensions `w / 2^k` and `h / 2^k`, the same channel count, and the path of level `index + k` |
| MipGenerator.MipChainLength | EquirectConverter/src/EquirectConverter.cpp:251-269 | the loop writes at most `floor(log2(min(w, h)))` levels, so it terminates |
| MipGenerator.MipChainShape | EquirectConverter/src/EquirectConverter.cpp:251-269 | after `k` turns the dimensions are `(w >> k, h >> k)`, the level index is `k`, and the channel count is unchanged |
| MipGenerator.MipChainSized | EquirectConverter/src/EquirectConverter.cpp:255-268 | every written level has exactly `width * height * channels` bytes |
| MipGenerator.MipChainFirst | EquirectConverter/src/EquirectConverter.cpp:253-268 | the first level written is the generator's output for the current level |
| MipGenerator.MipChainPixels | EquirectConverter/src/EquirectConverter.cpp:253-268 | every written level is the generator's output for the level written before it |
| MipGenerator.RegularChainFinishes | EquirectConverter/src/EquirectConverter.cpp:251-269 | for the regular shape with room in the arena, the loop finishes after exactly `floor(log2(min(w, h)))` levels |
| MipGenerator.MipMapRunShape | EquirectConverter/src/EquirectConverter.cpp:229-269 | a failed decode writes nothing and ends with the failure reason; otherwise level 0 is the decoded image, at most `floor(log2(min(w, h))) + 1` files are written, and file `k` is `prefix<k>.png` with dimensions `(w >> k, h >> k)` and the decoded channel count |
| MipGenerator.RegularRunFinishes | EquirectConverter/src/EquirectConverter.cpp:222-272 | a regular image that fits the arena twice over writes all `floor(log2(min(w, h))) + 1` levels, each the filtered image of the one before it, and finishes |
| MipGenerator.EquirectRunFailsUnlessBox | EquirectConverter/src/EquirectConverter.cpp:179-259 | an equirect run with the Point or Kaiser filter writes level 0 and then fails the assertion at line 217 |
| MipGenerator.EquirectBoxLevelsAreBlank | EquirectConverter/src/EquirectConverter.cpp:197-219 | in an equirect Box run, every level after level 0 is all zero bytes |
| MipGenerator.BlankAfterEquirectBox | EquirectConverter/src/EquirectConverter.cpp:197-219 | the equirect Box generator's output is all zero bytes |
| D3D12Plugin.PlacementAlignmentIsPow2 | OpenXRViewer/xr_demo/graphicsplugin_custom.cpp:122-130 | the constant-buffer placement alignment (256) meets `AlignTo`'s power-of-two requirement |
| D3D12Plugin.AlignTo | OpenXRViewer/xr_demo/graphicsplugin_custom.cpp:120-124 | `(n + a - 1) & ~(a - 1)` on `uint32_t`, with the sum wrapping; always a multiple of `a` that fits `uint32_t` |
| D3D12Plugin.AlignToRoundsUp | OpenXRViewer/xr_demo/graphicsplugin_custom.cpp:120-124 | without uint32 overflow, `AlignTo` is the least multiple of `a` that is at least `n`, and an aligned `n` is unchanged; when the sum wraps the result is 0 |
| D3D12Plugin.AlignToWithoutWrap | OpenXRViewer/xr_demo/graphicsplugin_custom.cpp:120-124 | the no-overflow half of `AlignToRoundsUp` |
| D3D12Plugin.AlignToWrapped | OpenXRViewer/xr_demo/graphicsplugin_custom.cpp:120-124 | the overflow half: when `n + a` passes 2^32 the result is 0 |
| D3D12Plugin.BufferWidth | OpenXRViewer/xr_demo/graphicsplugin_custom.cpp:128-144 | only an upload-heap buffer is rounded, to a 256-byte multiple; other heaps keep the requested size |
| D3D12Plugin.UploadBufferWidth | OpenXRViewer/xr_demo/graphicsplugin_custom.cpp:128-131 | an upload buffer is the least 256-byte multiple holding the requested size, or 0 for sizes above `2^32 - 256` |
| D3D12Plugin.FirstSupportedIndex | OpenXRViewer/xr_demo/graphicsplugin_custom.cpp:570-572 | the position of the first runtime format in the supported list: every format before it is unsupported |
| D3D12Plugin.SelectColorSwapchainFormat | OpenXRViewer/xr_demo/graphicsplugin_custom.cpp:561-578 | fails (throws) exactly when no runtime format is supported; otherwise returns a supported runtime format with no supported format before it |
| D3D12Plugin.SelectionIgnoresLaterFormats | OpenXRViewer/xr_demo/graphicsplugin_custom.cpp:570-577 | formats listed after a supported one never change the choice |
| D3D12Plugin.FirstSupportedIndexOfExtension | OpenXRViewer/xr_demo/graphicsplugin_custom.cpp:570-572 | extending the runtime list keeps the first supported position once one exists |
| D3D12Plugin.ModelCBufferAfterRequest | OpenXRViewer/xr_demo/graphicsplugin_custom.cpp:256-260 | a buffer exists afterwards; an existing buffer at least as wide as the request is kept; otherwise the new buffer is at least the request (without uint32 overflow), so the buffer never falls below a request |
| D3D12Plugin.CubeCBufferSize | OpenXRViewer/xr_demo/graphicsplugin_custom.cpp:812 | the per-draw constant slot is 256 bytes |
| D3D12Plugin.ModelCBufferRequest | OpenXRViewer/xr_demo/graphicsplugin_custom.cpp:813 | the truncated request is below 2^32 and always a whole number of 256-byte slots, and it is the full `256 * (cubes + 1)` whenever that fits `uint32_t` |
| D3D12Plugin.SlotRange | OpenXRViewer/xr_demo/graphicsplugin_custom.cpp:817-867 | unless the end passes 2^32, draw `k` writes exactly the slot `[256k, 256k + 256)` |
| D3D12Plugin.ModelWriteRanges | OpenXRViewer/xr_demo/graphicsplugin_custom.cpp:816-867 | one write range per cube, then the sphere's; range `k` is slot `k` |
| D3D12Plugin.ModelWritesInBounds | OpenXRViewer/xr_demo/graphicsplugin_custom.cpp:812-867 | while `256 * (cubes + 1)` fits `uint32_t`, the request is that product, cube `k` writes `[256k, 256k + 256)`, the sphere writes the last slot, and every range is inside the model buffer |
| D3D12Plugin.ModelCBufferRequestTruncates | OpenXRViewer/xr_demo/graphicsplugin_custom.cpp:813-827 | with `2^24 - 1` cubes the `static_cast<uint32_t>` request is 0, a first request creates a 0-byte buffer (assuming `CreateCommittedResource` succeeds), and the first cube still writes `[0, 256)` |
| D3D12Plugin.CachedPipelineState | OpenXRViewer/xr_demo/graphicsplugin_custom.cpp:604-685 | a cached format returns its entry and leaves the map unchanged; an uncached one inserts exactly one entry built for that format; other entries are never touched |
| D3D12Plugin.PipelineCacheIsStable | OpenXRViewer/xr_demo/graphicsplugin_custom.cpp:604-685 | every cached state stays under its own format, and a second request for a format returns the same state and leaves the cache unchanged |
| D3D12Plugin.NextFenceValue | OpenXRViewer/xr_demo/graphicsplugin_custom.cpp:886-889 | `++` on the `uint64_t` fence value: one more, strictly increasing, except at the top of the range where it wraps to 0 |
| D3D12Plugin.SwapchainImageContext.constructor | OpenXRViewer/xr_demo/graphicsplugin_custom.cpp:189-279 | a new context has no images, no constant buffers and fence value 0 |
| D3D12Plugin.SwapchainImageContext.Create | OpenXRViewer/xr_demo/graphicsplugin_custom.cpp:191-207 | `capacity` images whose indices are returned in order; a 256-byte view-projection upload buffer; other fields unchanged |
| D3D12Plugin.SwapchainImageContext.RequestModelCBuffer | OpenXRViewer/xr_demo/graphicsplugin_custom.cpp:256-260 | the model buffer becomes `ModelCBufferAfterRequest` of the old one; nothing else changes |
| D3D12Plugin.SwapchainImageContext.SetFrameFenceValue | OpenXRViewer/xr_demo/graphicsplugin_custom.cpp:252 | sets the frame fence value and nothing else |
| D3D12Plugin.ModelConstantWrites | OpenXRViewer/xr_demo/graphicsplugin_custom.cpp:816-867 | the `offset` loop produces exactly `ModelWriteRanges`: one range per cube at `offset += 256`, then the sphere's |
| D3D12Plugin.D3D12GraphicsPlugin.constructor | OpenXRViewer/xr_demo/graphicsplugin_custom.cpp:909-934 | fence value 0, empty caches and maps, max image count 0 |
| D3D12Plugin.D3D12GraphicsPlugin.SignalFence | OpenXRViewer/xr_demo/graphicsplugin_custom.cpp:886-889 | the fence value becomes `NextFenceValue` of the old one; the pipeline cache, its creation count, the contexts and the image map are unchanged |
| D3D12Plugin.D3D12GraphicsPlugin.GetOrCreatePipelineState | OpenXRViewer/xr_demo/graphicsplugin_custom.cpp:604-685 | the cache and the returned state are `CachedPipelineState`; the state is built for the requested format; a new state is created only for an uncached format |
| D3D12Plugin.D3D12GraphicsPlugin.AllocateSwapchainImageStructs | OpenXRViewer/xr_demo/graphicsplugin_custom.cpp:584-602 | appends one new context of `capacity` images; every returned base maps to it; older mappings are kept; the max image count becomes `max(previous, capacity)`; the fence, the pipeline cache and its creation count are unchanged |
| D3D12Plugin.D3D12GraphicsPlugin.RenderView | OpenXRViewer/xr_demo/graphicsplugin_custom.cpp:688-884 | a non-zero image array index fails the `CHECK` and leaves the fence, the pipeline cache and its creation count, and the context's model buffer and frame fence value unchanged; otherwise the pipeline cache and its creation count are as `GetOrCreatePipelineState` leaves them, the model buffer is `ModelCBufferAfterRequest` of the request, the draw write ranges are `ModelWriteRanges`, the fence is signalled once and the context's frame fence value is the new fence value; in both cases the context's image count and view-projection buffer are unchanged |

## Left out

- Floating-point and trigonometric code is not modelled: `TexturePosToSphereCoord`, `SphereCoordToTexturePos`, `GenerateEquirectangularCheckerboard`, `clamp01`, `BesselI0` and `KaiserWindow` (EquirectConverter.cpp lines 17-109).
- The Kaiser filter is an empty arm in the source, so its level is the untouched, value-initialised buffer.
- The equirect Box arm (EquirectConverter.cpp lines 197-215) refers to `x` and `y`, which are not declared there, and does not compile. The model takes the only effect its text has on the buffer, which is none: the level is the value-initialised zero buffer. No weighting is modelled.
- `stbi_load` is a parameter (`Decoded`). `stbi_write_png` is a log of the writes requested. The files' contents as PNG, `stbi_image_free`, and the printing of the failure reason are not modelled.
- The `assert(stbi_write_png(...))` calls are taken to succeed. In a build with `NDEBUG` they would not write at all, and that build is not modelled.
- Image dimensions and channel counts are `nat`. The `int` overflow of `width * height * channelCount` and of the index arithmetic in the filter loops is not modelled.
- `main` is not modelled: it is one call of `GenerateMipMap` with fixed paths.
- `VirtualAlloc`, `VirtualFree`, `GetSystemInfo` and `OutputDebugString` are not modelled. Only the counters they accompany are kept, and the system granularity is a parameter (a power of two below 2^32).
- The `MemoryArena` destructor is not modelled, and pointers are arena offsets.
- `TypedMemoryArena` and the `ArenaList` iterators are raw pointer walks over `[base, base + used)` and `[base, base + size)`, and are not modelled.
- Memory.ArenaList.Allocate: the storage values are not stated. `T[count]()` value-initialises them, but a generic `T` has no zero in Dafny.
- Memory.MemoryArena.Allocate: the `size_t` wrap of `used + size` (line 26) and of `sizeof(T) * count` in `NewArray` (Memory.h line 65) is not modelled, and the constructor requires `capacity + granularity` within 2^64, so a capacity within one granule of 2^64 is not modelled; the sums are exact `nat` arithmetic.
- Memory.MemoryArena.Allocate: the `size >= 0` assertion at line 24 always holds for `size_t`, so no precondition stands for it.
- D3D12 device, command list, descriptor, shader and pipeline-description setup is not modelled. GPU resources are reduced to their widths, and a pipeline state to its render-target format and a serial number.
- GPU fence waiting is not modelled: `CpuWaitForFence`, `WaitForGpu` and the `Signal` call on the queue.
- `CreateBuffer`'s `CreateCommittedResource` call is assumed to succeed.
- The cast of the selected `int64_t` swapchain format to `DXGI_FORMAT` in `RenderView` is not modelled; formats are plain integers.
- D3D12Plugin.ModelWritesInBounds: in-bounds writes are proved only while `256 * (cubes + 1)` fits `uint32_t`, meaning fewer than 2^24 - 1 cubes. `ModelCBufferRequestTruncates` shows the truncated request at 2^24 - 1 cubes.
- D3D12Plugin.PipelineCacheIsStable: it follows from `CachedPipelineState`'s own contract without further proof.
- The rest of the repository is not part of this model: the desktop preview, the model loader, the file helpers and the Python comparison scripts.

## Findings

| source | as written | input that shows it | evidently intended | confidence | as-written member | corrected member |
|---|---|---|---|---|---|---|
| EquirectConverter/src/EquirectConverter.cpp:121-131 | the Point loops run `x < sourceWidth`, `y < sourceHeight` in steps of 2 and write `targetIndex + c` into a `(w/2) * (h/2) * channels` buffer | a 3x2 image with 1 channel: `x = 2` writes index 1 of a 1-byte buffer | visit only `x < 2 * (w/2)`, `y < 2 * (h/2)`, so every write lands in the target | not executed | MipFilters.AsWrittenWritesPastTarget | MipFilters.PointFilter |
| EquirectConverter/src/EquirectConverter.cpp:139-154 | the Box loops use the same bounds and read `source[sourceIndex3 + c]` at `((y + 1) * w + x + 1) * channels` | a 3x2 image with 1 channel: `x = 2`, `y = 0` reads index 6 of a 6-byte source | visit only whole 2x2 blocks, so every read stays in the source | not executed | MipFilters.AsWrittenBoxReadsPastSource | MipFilters.BoxFilter |
