/** The integer, selection and bookkeeping rules of the Direct3D 12 graphics
    plugin in OpenXRViewer/xr_demo/graphicsplugin_custom.cpp. GPU objects are
    reduced to what the rules look at: a buffer is its width in bytes, a
    pipeline state is the render-target format it was built for and a serial
    number, a swapchain image pointer is the position of its context and its
    index in that context's image array. Device calls, descriptors, shaders and
    fence waits are not part of this model. */
module D3D12Plugin {
  import opened BitMath
  import opened Wrappers

  /** One past the largest `uint32_t`. */
  const Uint32Modulus: nat := 0x1_0000_0000
  /** One past the largest `uint64_t`, the type of the fence value. */
  const Uint64Modulus: nat := 0x1_0000_0000_0000_0000

  /** `D3D12_CONSTANT_BUFFER_DATA_PLACEMENT_ALIGNMENT`. */
  const ConstantBufferPlacementAlignment: nat := 256
  /** `sizeof(ModelConstantBuffer)` and `sizeof(ViewProjectionConstantBuffer)`:
      one `float4x4` each (the `cbuffer`s at lines 288-293). */
  const ModelConstantBufferSize: nat := 64
  const ViewProjectionConstantBufferSize: nat := 64

  /** The `DXGI_FORMAT` values of `SupportedColorSwapchainFormats` (lines 563-568),
      in preference order: R8G8B8A8_UNORM, B8G8R8A8_UNORM, R8G8B8A8_UNORM_SRGB,
      B8G8R8A8_UNORM_SRGB. */
  const SupportedColorSwapchainFormats: seq<int> := [28, 87, 29, 91]

  lemma PlacementAlignmentIsPow2()
    ensures IsPow2(ConstantBufferPlacementAlignment)
  {
    assert IsPow2(1) && IsPow2(2) && IsPow2(4) && IsPow2(8);
    assert IsPow2(16) && IsPow2(32) && IsPow2(64) && IsPow2(128);
  }

  /** `AlignTo<alignment>(n)` = `(n + alignment - 1) & ~(alignment - 1)` on
      `uint32_t` (lines 120-124); the sum wraps modulo 2^32. The template
      demands a power-of-two alignment at compile time. */
  function AlignTo(alignment: nat, n: nat): (r: nat)
    requires IsPow2(alignment) && alignment < Uint32Modulus && n < Uint32Modulus
    ensures r % alignment == 0 && r < Uint32Modulus
  {
    var sum := (n + alignment - 1) % Uint32Modulus;
    ClearLowBitsAlignedBelow(sum, alignment);
    ClearLowBits(sum, alignment)
  }

  /** Unless the sum wraps, `AlignTo` gives the least multiple of the alignment
      at or above `n`; once `n + alignment - 1` passes the top of `uint32_t` it
      gives 0. */
  lemma AlignToRoundsUp(alignment: nat, n: nat)
    requires IsPow2(alignment) && alignment < Uint32Modulus && n < Uint32Modulus
    ensures var r := AlignTo(alignment, n);
      && (n + alignment <= Uint32Modulus ==>
            && n <= r < n + alignment
            && (forall m: nat :: m % alignment == 0 && n <= m ==> r <= m)
            && (n % alignment == 0 ==> r == n))
      && (n + alignment > Uint32Modulus ==> r == 0)
  {
    if n + alignment <= Uint32Modulus {
      AlignToWithoutWrap(alignment, n);
    } else {
      AlignToWrapped(alignment, n);
    }
  }

  lemma AlignToWithoutWrap(alignment: nat, n: nat)
    requires IsPow2(alignment) && alignment < Uint32Modulus && n < Uint32Modulus && n + alignment <= Uint32Modulus
    ensures var r := AlignTo(alignment, n);
      && n <= r < n + alignment
      && (forall m: nat :: m % alignment == 0 && n <= m ==> r <= m)
      && (n % alignment == 0 ==> r == n)
  {
    var sum := n + alignment - 1;
    DivUnique(sum, Uint32Modulus, 0, sum);
    assert AlignTo(alignment, n) == ClearLowBits(sum, alignment);
    RoundUpIsLeastMultiple(n, alignment);
  }

  lemma AlignToWrapped(alignment: nat, n: nat)
    requires IsPow2(alignment) && alignment < Uint32Modulus && n < Uint32Modulus
    requires n + alignment > Uint32Modulus
    ensures AlignTo(alignment, n) == 0
  {
    var sum := n + alignment - 1 - Uint32Modulus;
    DivUnique(n + alignment - 1, Uint32Modulus, 1, sum);
    ClearLowBitsRoundsDown(sum, alignment);
    DivUnique(sum, alignment, 0, sum);
  }

  /** The heap a buffer is created on. */
  datatype HeapType = Default | Upload | Readback | Custom

  /** The width `CreateBuffer` gives the buffer it creates (lines 128-134, 143):
      the requested size rounded up to the constant-buffer placement alignment
      on the upload heap, the size unchanged on every other heap. */
  function BufferWidth(size: nat, heapType: HeapType): (width: nat)
    requires size < Uint32Modulus
    ensures width < Uint32Modulus
    ensures heapType != Upload ==> width == size
    ensures heapType == Upload ==> width % ConstantBufferPlacementAlignment == 0
  {
    PlacementAlignmentIsPow2();
    if heapType == Upload then AlignTo(ConstantBufferPlacementAlignment, size) else size
  }

  /** An upload buffer is the least 256-byte multiple that holds the requested
      size, which it keeps when already aligned, unless the size is within 255
      bytes of the top of `uint32_t`, where the rounding wraps to 0. */
  lemma UploadBufferWidth(size: nat)
    requires size < Uint32Modulus
    ensures var width := BufferWidth(size, Upload);
      && (size <= Uint32Modulus - ConstantBufferPlacementAlignment ==>
            && size <= width < size + ConstantBufferPlacementAlignment
            && (forall m: nat :: m % ConstantBufferPlacementAlignment == 0 && size <= m ==> width <= m)
            && (size % ConstantBufferPlacementAlignment == 0 ==> width == size))
      && (size > Uint32Modulus - ConstantBufferPlacementAlignment ==> width == 0)
  {
    PlacementAlignmentIsPow2();
    AlignToRoundsUp(ConstantBufferPlacementAlignment, size);
  }

  /** The position of the first runtime format that is also supported, or the
      length of the list when there is none. */
  function FirstSupportedIndex(runtimeFormats: seq<int>): (i: nat)
    ensures i <= |runtimeFormats|
    ensures forall j :: 0 <= j < i ==> runtimeFormats[j] !in SupportedColorSwapchainFormats
    ensures i < |runtimeFormats| ==> runtimeFormats[i] in SupportedColorSwapchainFormats
    decreases |runtimeFormats|
  {
    if |runtimeFormats| == 0 then 0
    else if runtimeFormats[0] in SupportedColorSwapchainFormats then 0
    else 1 + FirstSupportedIndex(runtimeFormats[1..])
  }

  /** `SelectColorSwapchainFormat` (lines 561-578): `std::find_first_of` over the
      runtime's formats against the supported list. It picks the first runtime
      format, in the runtime's order, that the plugin supports; `None` is the
      `THROW` when no runtime format is supported. */
  function SelectColorSwapchainFormat(runtimeFormats: seq<int>): (r: Option<int>)
    ensures r.None? <==> forall j :: 0 <= j < |runtimeFormats| ==> runtimeFormats[j] !in SupportedColorSwapchainFormats
    ensures r.Some? ==>
      && r.value in SupportedColorSwapchainFormats
      && exists i :: 0 <= i < |runtimeFormats| && runtimeFormats[i] == r.value
                     && forall j :: 0 <= j < i ==> runtimeFormats[j] !in SupportedColorSwapchainFormats
  {
    var i := FirstSupportedIndex(runtimeFormats);
    if i == |runtimeFormats| then None else Some(runtimeFormats[i])
  }

  /** Formats the runtime lists after a supported one never change the choice. */
  lemma SelectionIgnoresLaterFormats(runtimeFormats: seq<int>, later: seq<int>)
    requires SelectColorSwapchainFormat(runtimeFormats).Some?
    ensures SelectColorSwapchainFormat(runtimeFormats + later) == SelectColorSwapchainFormat(runtimeFormats)
  {
    FirstSupportedIndexOfExtension(runtimeFormats, later);
  }

  lemma {:induction false} FirstSupportedIndexOfExtension(runtimeFormats: seq<int>, later: seq<int>)
    requires FirstSupportedIndex(runtimeFormats) < |runtimeFormats|
    ensures FirstSupportedIndex(runtimeFormats + later) == FirstSupportedIndex(runtimeFormats)
    decreases |runtimeFormats|
  {
    if runtimeFormats[0] !in SupportedColorSwapchainFormats {
      assert (runtimeFormats + later)[1..] == runtimeFormats[1..] + later;
      FirstSupportedIndexOfExtension(runtimeFormats[1..], later);
    }
  }

  /** The model constant buffer after `RequestModelCBuffer(requiredSize)`
      (lines 256-260): a new upload buffer when there is none or the request
      exceeds the current width, otherwise the buffer already there. */
  function ModelCBufferAfterRequest(current: Option<nat>, requiredSize: nat): (next: Option<nat>)
    requires requiredSize < Uint32Modulus
    ensures next.Some?
    ensures current.Some? && requiredSize <= current.value ==> next == current
    ensures requiredSize <= Uint32Modulus - ConstantBufferPlacementAlignment ==>
      requiredSize <= next.value && (current.Some? ==> current.value <= next.value)
  {
    UploadBufferWidth(requiredSize);
    if current.None? || requiredSize > current.value then Some(BufferWidth(requiredSize, Upload)) else current
  }

  /** `AlignTo<D3D12_CONSTANT_BUFFER_DATA_PLACEMENT_ALIGNMENT>(sizeof(ModelConstantBuffer))`,
      the bytes each draw's model constants take in the buffer (line 812). */
  function CubeCBufferSize(): (size: nat)
    ensures size == ConstantBufferPlacementAlignment
  {
    PlacementAlignmentIsPow2();
    AlignToRoundsUp(ConstantBufferPlacementAlignment, ModelConstantBufferSize);
    AlignTo(ConstantBufferPlacementAlignment, ModelConstantBufferSize)
  }

  /** The size `RenderView` requests for the model constants of `cubeCount`
      cubes and the sphere: `static_cast<uint32_t>(cubeCBufferSize * (cubes.size() + 1))`,
      the product truncated to 32 bits (line 813). The request is always a whole
      number of slots, and it is the full product whenever that fits `uint32_t`. */
  function ModelCBufferRequest(cubeCount: nat): (request: nat)
    ensures request < Uint32Modulus && request % CubeCBufferSize() == 0
    ensures CubeCBufferSize() * (cubeCount + 1) < Uint32Modulus ==>
      request == CubeCBufferSize() * (cubeCount + 1)
  {
    var product := CubeCBufferSize() * (cubeCount + 1);
    var q, r := product / Uint32Modulus, product % Uint32Modulus;
    assert product == q * Uint32Modulus + r;
    assert q * Uint32Modulus == 256 * (q * 0x100_0000);
    DivUnique(r, 256, (cubeCount + 1) - q * 0x100_0000, 0);
    if product < Uint32Modulus then
      DivUnique(product, Uint32Modulus, 0, product);
      r
    else
      r
  }

  /** A `D3D12_RANGE` passed to `Unmap`: bytes `[begin, end)` were written. */
  datatype WriteRange = WriteRange(begin: nat, end: nat)

  /** The `uint32_t` offset of draw `k`'s constants: `offset` starts at 0 and
      grows by `cubeCBufferSize` per draw, wrapping modulo 2^32. */
  function SlotOffset(k: nat): nat
  {
    (k * CubeCBufferSize()) % Uint32Modulus
  }

  /** The write range of draw `k`: `{offset, offset + cubeCBufferSize}`, the end
      also computed on `uint32_t`. Unless the end passes 2^32, it is the `k`-th
      slot `[256 k, 256 k + 256)`. */
  function SlotRange(k: nat): (range: WriteRange)
    ensures k * CubeCBufferSize() + CubeCBufferSize() < Uint32Modulus ==>
      range == WriteRange(k * CubeCBufferSize(), k * CubeCBufferSize() + CubeCBufferSize())
  {
    var size := CubeCBufferSize();
    var range := WriteRange(SlotOffset(k), (SlotOffset(k) + size) % Uint32Modulus);
    if k * size + size < Uint32Modulus then
      DivUnique(k * size, Uint32Modulus, 0, k * size);
      DivUnique(k * size + size, Uint32Modulus, 0, k * size + size);
      range
    else
      range
  }

  /** The write ranges of one `RenderView`: one per cube, in order, then the sphere's. */
  function ModelWriteRanges(cubeCount: nat): (ranges: seq<WriteRange>)
    ensures |ranges| == cubeCount + 1
    ensures forall k :: 0 <= k < |ranges| ==> ranges[k] == SlotRange(k)
  {
    seq(cubeCount + 1, k requires 0 <= k => SlotRange(k))
  }

  /** Adding to a residue before reducing it gives the same residue. */
  lemma ModAddLeft(x: nat, y: nat, m: nat)
    requires m > 0
    ensures (x % m + y) % m == (x + y) % m
  {
    var q, r := x / m, x % m;
    var q', r' := (r + y) / m, (r + y) % m;
    assert x + y == (q + q') * m + r';
    DivUnique(x + y, m, q + q', r');
  }

  /** While the request fits `uint32_t` (fewer than 2^24 - 1 cubes), draw `k`
      writes bytes `[256 k, 256 (k + 1))`: consecutive slots, the last ending at
      the request, and every one inside the model buffer whatever buffer was
      there before. */
  lemma ModelWritesInBounds(cubeCount: nat, current: Option<nat>)
    requires CubeCBufferSize() * (cubeCount + 1) < Uint32Modulus
    ensures var width := ModelCBufferAfterRequest(current, ModelCBufferRequest(cubeCount)).value;
      var ranges := ModelWriteRanges(cubeCount);
      && ModelCBufferRequest(cubeCount) == CubeCBufferSize() * (cubeCount + 1)
      && (forall k :: 0 <= k < |ranges| ==>
            && ranges[k].begin == k * CubeCBufferSize()
            && ranges[k].end == ranges[k].begin + CubeCBufferSize()
            && ranges[k].end <= width)
  {
    var request := CubeCBufferSize() * (cubeCount + 1);
    var ranges := ModelWriteRanges(cubeCount);
    forall k | 0 <= k < |ranges|
      ensures ranges[k].begin == k * CubeCBufferSize()
      ensures ranges[k].end == ranges[k].begin + CubeCBufferSize()
    {
      MulMono(k + 1, cubeCount + 1, CubeCBufferSize());
    }
  }

  /** With 2^24 - 1 cubes the product is 2^32 and the truncated request is 0:
      a first request creates an empty buffer that the first cube's write
      already overruns. */
  lemma ModelCBufferRequestTruncates()
    ensures ModelCBufferRequest(0xFF_FFFF) == 0
    ensures ModelCBufferAfterRequest(None, ModelCBufferRequest(0xFF_FFFF)) == Some(0)
    ensures SlotRange(0) == WriteRange(0, CubeCBufferSize())
  {
    assert CubeCBufferSize() * (0xFF_FFFF + 1) == Uint32Modulus;
    UploadBufferWidth(0);
  }

  /** A pipeline state object as far as the cache is concerned: the
      render-target format it was built for (`RTVFormats[0]`, line 669) and the
      number of states created before it. */
  datatype PipelineState = PipelineState(renderTargetFormat: int, serial: nat)

  /** `GetOrCreatePipelineState` (lines 604-685) on the cache map: the cached
      state when the format has one, otherwise a new state for the format,
      inserted. `serial` numbers the new state. */
  function CachedPipelineState(states: map<int, PipelineState>, format: int, serial: nat)
    : (result: (map<int, PipelineState>, PipelineState))
    ensures format in result.0 && result.0[format] == result.1
    ensures result.1.renderTargetFormat == format || format in states
    ensures result.0.Keys == states.Keys + {format}
    ensures forall f :: f in states ==> result.0[f] == states[f]
  {
    if format in states then (states, states[format])
    else (states[format := PipelineState(format, serial)], PipelineState(format, serial))
  }

  /** Every cached state was built for the format it is cached under. */
  ghost predicate StatesMatchFormats(states: map<int, PipelineState>)
  {
    forall f :: f in states ==> states[f].renderTargetFormat == f
  }

  /** The cache keeps every state under its own format, a lookup returns a state
      built for the format asked for, and asking again returns the same state
      and leaves the cache as it is. */
  lemma PipelineCacheIsStable(states: map<int, PipelineState>, format: int, serial: nat, serial': nat)
    requires StatesMatchFormats(states)
    ensures var (states', state) := CachedPipelineState(states, format, serial);
      && StatesMatchFormats(states')
      && state.renderTargetFormat == format
      && CachedPipelineState(states', format, serial') == (states', state)
  {
  }

  /** The fence value after `SignalFence` (lines 886-889): `++m_fenceValue` on
      `uint64_t`. */
  function NextFenceValue(value: nat): (next: nat)
    requires value < Uint64Modulus
    ensures next < Uint64Modulus
    ensures value < Uint64Modulus - 1 ==> next == value + 1 && next > value
    ensures value == Uint64Modulus - 1 ==> next == 0
  {
    (value + 1) % Uint64Modulus
  }

  /** A swapchain image pointer handed out by `AllocateSwapchainImageStructs`:
      `&m_swapchainImages[index]` of the context at position `context` in the
      plugin's list. */
  datatype ImageRef = ImageRef(context: nat, index: nat)

  /** `SwapchainImageContext` (lines 187-279): the images of one swapchain, its
      buffers, and the fence value of the last frame rendered into it. */
  class SwapchainImageContext {
    /** `m_swapchainImages.size()`. */
    var imageCount: nat
    /** The widths of `m_modelCBuffer` and `m_viewProjectionCBuffer`; `None`
        while the `ComPtr` is empty. */
    var modelCBuffer: Option<nat>
    var viewProjectionCBuffer: Option<nat>
    /** `m_fenceValue`. */
    var frameFenceValue: nat

    constructor()
      ensures imageCount == 0 && modelCBuffer == None && viewProjectionCBuffer == None && frameFenceValue == 0
    {
      imageCount := 0;
      modelCBuffer := None;
      viewProjectionCBuffer := None;
      frameFenceValue := 0;
    }

    /** `Create` (lines 189-206): `capacity` images, whose indices it returns in
      order as their base pointers, and the view-projection upload buffer. */
    method Create(capacity: nat) returns (bases: seq<nat>)
      requires capacity < Uint32Modulus
      modifies this
      ensures imageCount == capacity
      ensures bases == seq(capacity, i => i)
      ensures viewProjectionCBuffer == Some(BufferWidth(ViewProjectionConstantBufferSize, Upload))
      ensures modelCBuffer == old(modelCBuffer) && frameFenceValue == old(frameFenceValue)
    {
      imageCount := capacity;
      bases := [];
      var i := 0;
      while i < capacity
        invariant i <= capacity
        invariant bases == seq(i, j => j)
      {
        bases := bases + [i];
        i := i + 1;
      }
      viewProjectionCBuffer := Some(BufferWidth(ViewProjectionConstantBufferSize, Upload));
    }

    /** `RequestModelCBuffer` (lines 256-260). */
    method RequestModelCBuffer(requiredSize: nat)
      requires requiredSize < Uint32Modulus
      modifies this
      ensures modelCBuffer == ModelCBufferAfterRequest(old(modelCBuffer), requiredSize)
      ensures imageCount == old(imageCount) && viewProjectionCBuffer == old(viewProjectionCBuffer)
      ensures frameFenceValue == old(frameFenceValue)
    {
      if modelCBuffer.None? || requiredSize > modelCBuffer.value {
        modelCBuffer := Some(BufferWidth(requiredSize, Upload));
      }
    }

    /** `SetFrameFenceValue` (line 253). */
    method SetFrameFenceValue(fenceValue: nat)
      modifies this
      ensures frameFenceValue == fenceValue
      ensures imageCount == old(imageCount) && modelCBuffer == old(modelCBuffer)
      ensures viewProjectionCBuffer == old(viewProjectionCBuffer)
    {
      frameFenceValue := fenceValue;
    }
  }

  /** The draw loop's offsets in `RenderView` (lines 816-867): each cube, then
      the sphere, writes `cubeCBufferSize` bytes at `offset`, which then grows by
      `cubeCBufferSize`. */
  method ModelConstantWrites(cubeCount: nat) returns (ranges: seq<WriteRange>)
    ensures ranges == ModelWriteRanges(cubeCount)
  {
    var offset: nat := 0;
    ranges := [];
    var k := 0;
    while k < cubeCount
      invariant k <= cubeCount
      invariant offset == SlotOffset(k)
      invariant ranges == ModelWriteRanges(cubeCount)[..k]
    {
      ranges := ranges + [WriteRange(offset, (offset + CubeCBufferSize()) % Uint32Modulus)];
      ModAddLeft(k * CubeCBufferSize(), CubeCBufferSize(), Uint32Modulus);
      offset := (offset + CubeCBufferSize()) % Uint32Modulus;
      k := k + 1;
    }
    ranges := ranges + [WriteRange(offset, (offset + CubeCBufferSize()) % Uint32Modulus)];
  }

  /** The state of `D3D12GraphicsPlugin` (lines 290-941) that the rules above touch. */
  class D3D12GraphicsPlugin {
    /** `m_fenceValue`. */
    var fenceValue: nat
    /** `m_pipelineStates`, and how many pipeline states have been created. */
    var pipelineStates: map<int, PipelineState>
    var pipelineStatesCreated: nat
    /** `m_swapchainImageContexts`, in creation order, and `m_swapchainImageContextMap`. */
    var contexts: seq<SwapchainImageContext>
    var contextMap: map<ImageRef, SwapchainImageContext>
    /** `m_maxSwapchainImageCount`. */
    var maxSwapchainImageCount: nat

    /** Every image pointer in the map names one of the images of the context it
        maps to; no context has more images than the recorded maximum; the
        cached pipeline states match their formats. */
    ghost predicate Valid()
      reads this, contexts
    {
      && fenceValue < Uint64Modulus
      && maxSwapchainImageCount < Uint32Modulus
      && StatesMatchFormats(pipelineStates)
      && (forall r :: r in contextMap ==>
            r.context < |contexts| && contextMap[r] == contexts[r.context] && r.index < contexts[r.context].imageCount)
      && (forall k :: 0 <= k < |contexts| ==> contexts[k].imageCount <= maxSwapchainImageCount)
    }

    constructor()
      ensures Valid()
      ensures fenceValue == 0 && pipelineStates == map[] && pipelineStatesCreated == 0
      ensures contexts == [] && contextMap == map[] && maxSwapchainImageCount == 0
    {
      fenceValue := 0;
      pipelineStates := map[];
      pipelineStatesCreated := 0;
      contexts := [];
      contextMap := map[];
      maxSwapchainImageCount := 0;
    }

    /** `SignalFence` (lines 886-889); the `Signal` call on the queue is not modelled. */
    method SignalFence()
      requires Valid()
      modifies this
      ensures Valid()
      ensures fenceValue == NextFenceValue(old(fenceValue))
      ensures pipelineStates == old(pipelineStates) && pipelineStatesCreated == old(pipelineStatesCreated)
      ensures contexts == old(contexts) && contextMap == old(contextMap)
      ensures maxSwapchainImageCount == old(maxSwapchainImageCount)
    {
      fenceValue := (fenceValue + 1) % Uint64Modulus;
    }

    /** `GetOrCreatePipelineState` (lines 604-685). */
    method GetOrCreatePipelineState(swapchainFormat: int) returns (state: PipelineState)
      requires Valid()
      modifies this
      ensures Valid()
      ensures (pipelineStates, state) == CachedPipelineState(old(pipelineStates), swapchainFormat, old(pipelineStatesCreated))
      ensures state.renderTargetFormat == swapchainFormat
      ensures pipelineStatesCreated == old(pipelineStatesCreated) + if swapchainFormat in old(pipelineStates) then 0 else 1
      ensures fenceValue == old(fenceValue) && contexts == old(contexts) && contextMap == old(contextMap)
      ensures maxSwapchainImageCount == old(maxSwapchainImageCount)
    {
      PipelineCacheIsStable(pipelineStates, swapchainFormat, pipelineStatesCreated, pipelineStatesCreated);
      if swapchainFormat in pipelineStates {
        return pipelineStates[swapchainFormat];
      }
      state := PipelineState(swapchainFormat, pipelineStatesCreated);
      pipelineStatesCreated := pipelineStatesCreated + 1;
      pipelineStates := pipelineStates[swapchainFormat := state];
    }

    /** `AllocateSwapchainImageStructs` (lines 584-602): a new context with
        `capacity` images, each image pointer mapped to it, and the maximum
        image count raised to `capacity`. */
    method AllocateSwapchainImageStructs(capacity: nat) returns (bases: seq<ImageRef>)
      requires Valid() && capacity < Uint32Modulus
      modifies this
      ensures Valid()
      ensures |contexts| == |old(contexts)| + 1 && contexts[..|old(contexts)|] == old(contexts)
      ensures fresh(contexts[|old(contexts)|]) && contexts[|old(contexts)|].imageCount == capacity
      ensures bases == seq(capacity, i requires 0 <= i => ImageRef(|old(contexts)|, i))
      ensures forall r :: r in contextMap <==> r in old(contextMap) || r in bases
      ensures forall r :: r in bases ==> contextMap[r] == contexts[|old(contexts)|]
      ensures forall r :: r in old(contextMap) ==> contextMap[r] == old(contextMap)[r]
      ensures maxSwapchainImageCount == Max(old(maxSwapchainImageCount), capacity)
      ensures fenceValue == old(fenceValue) && pipelineStates == old(pipelineStates)
      ensures pipelineStatesCreated == old(pipelineStatesCreated)
    {
      var context := new SwapchainImageContext();
      var contextIndex := |contexts|;
      contexts := contexts + [context];
      var indices := context.Create(capacity);
      bases := seq(capacity, i requires 0 <= i => ImageRef(contextIndex, i));
      var mapped := contextMap;
      var k := 0;
      while k < capacity
        invariant k <= capacity
        invariant forall r :: r in mapped <==> r in contextMap || r in bases[..k]
        invariant forall r :: r in bases[..k] ==> mapped[r] == context
        invariant forall r :: r in contextMap ==> mapped[r] == contextMap[r]
      {
        mapped := mapped[bases[k] := context];
        k := k + 1;
      }
      assert bases[..k] == bases;
      contextMap := mapped;
      maxSwapchainImageCount := Max(maxSwapchainImageCount, capacity);
    }

    /** The integer side of `RenderView` (lines 688-884) for one frame: the
        texture-array `CHECK`, the pipeline state for the swapchain format, the
        model buffer request, the draws' write ranges, the fence signal and the
        context's frame fence value. `None` is the `CHECK` failing, before
        anything changes. */
    method RenderView(swapchainImage: ImageRef, imageArrayIndex: nat, swapchainFormat: int, cubeCount: nat)
      returns (ranges: Option<seq<WriteRange>>)
      requires Valid() && swapchainImage in contextMap
      modifies this, contextMap[swapchainImage]
      ensures Valid()
      ensures contexts == old(contexts) && contextMap == old(contextMap)
      ensures maxSwapchainImageCount == old(maxSwapchainImageCount)
      ensures contextMap[swapchainImage].imageCount == old(contextMap[swapchainImage].imageCount)
      ensures contextMap[swapchainImage].viewProjectionCBuffer == old(contextMap[swapchainImage].viewProjectionCBuffer)
      ensures imageArrayIndex != 0 ==>
        && ranges == None && fenceValue == old(fenceValue)
        && pipelineStates == old(pipelineStates) && pipelineStatesCreated == old(pipelineStatesCreated)
        && contextMap[swapchainImage].modelCBuffer == old(contextMap[swapchainImage].modelCBuffer)
        && contextMap[swapchainImage].frameFenceValue == old(contextMap[swapchainImage].frameFenceValue)
      ensures imageArrayIndex == 0 ==>
        && ranges == Some(ModelWriteRanges(cubeCount))
        && pipelineStates == CachedPipelineState(old(pipelineStates), swapchainFormat, old(pipelineStatesCreated)).0
        && pipelineStatesCreated
           == old(pipelineStatesCreated) + (if swapchainFormat in old(pipelineStates) then 0 else 1)
        && contextMap[swapchainImage].modelCBuffer
           == ModelCBufferAfterRequest(old(contextMap[swapchainImage].modelCBuffer), ModelCBufferRequest(cubeCount))
        && fenceValue == NextFenceValue(old(fenceValue))
        && contextMap[swapchainImage].frameFenceValue == fenceValue
    {
      if imageArrayIndex != 0 {
        return None;
      }
      var context := contextMap[swapchainImage];
      var pipelineState := GetOrCreatePipelineState(swapchainFormat);
      context.RequestModelCBuffer(ModelCBufferRequest(cubeCount));
      var writes := ModelConstantWrites(cubeCount);
      SignalFence();
      context.SetFrameFenceValue(fenceValue);
      ranges := Some(writes);
    }
  }
}
