/** The mip-level generators and the pyramid driver of
    EquirectConverter/src/EquirectConverter.cpp. Every level is a new buffer
    taken from one `MemoryArena`; the driver halves the image until a dimension
    drops below 2 and writes each level as a PNG file.

    The model follows a build with assertions enabled: an `assert` that fails
    ends the run, which the driver reports as `AssertionFailed`. Image decoding
    is a parameter (`Decoded`) and the PNG encoder is a log of the writes it is
    asked for. */
module MipGenerator {
  import opened BitMath
  import opened Wrappers
  import opened Memory
  import opened MipFilters

  datatype ImageShape = Regular | Equirect

  datatype MipGenerationType = Point | Box | Kaiser

  /** A buffer of `n` value-initialised bytes, as `NewArray` returns it. */
  function Zeros(n: nat): (z: seq<Byte>)
    ensures |z| == n && forall k :: 0 <= k < n ==> z[k] == 0
  {
    seq(n, _ => 0)
  }

  /** The level `GenerateConventionalMipLevel` returns: the point- or
      box-filtered image, or, for the unimplemented Kaiser filter, the untouched
      zero buffer. */
  function ConventionalLevel(source: seq<Byte>, sourceWidth: nat, sourceHeight: nat, channelCount: nat,
                             filter: MipGenerationType): (level: seq<Byte>)
    requires |source| == sourceWidth * sourceHeight * channelCount
    ensures |level| == (sourceWidth / 2) * (sourceHeight / 2) * channelCount
  {
    match filter
    case Point => PointMip(source, sourceWidth, sourceHeight, channelCount)
    case Box => BoxMip(source, sourceWidth, sourceHeight, channelCount)
    case Kaiser => Zeros((sourceWidth / 2) * (sourceHeight / 2) * channelCount)
  }

  /** The level `GenerateEquirectMipLevel` returns, `None` where it reaches
      `assert(false)`. The Box arm writes no texel, so its level is the zero
      buffer; the Point arm fills the buffer and then, since the Box test is a
      separate `if`, falls into the final `else` as Kaiser does. */
  function EquirectLevel(sourceWidth: nat, sourceHeight: nat, channelCount: nat,
                         filter: MipGenerationType): (level: Option<seq<Byte>>)
    ensures level.Some? <==> filter == Box
    ensures level.Some? ==> |level.value| == (sourceWidth / 2) * (sourceHeight / 2) * channelCount
  {
    if filter == Box then Some(Zeros((sourceWidth / 2) * (sourceHeight / 2) * channelCount)) else None
  }

  /** The next level for the image shape, `None` where an assertion fails.
      Every level either generator returns has `(w/2) * (h/2) * channels` bytes;
      a level exists exactly for the regular shape or the Box filter, and every
      other equirect request reaches `assert(false)`. */
  function NextLevel(source: seq<Byte>, sourceWidth: nat, sourceHeight: nat, channelCount: nat,
                     filter: MipGenerationType, shape: ImageShape): (next: Option<seq<Byte>>)
    requires |source| == sourceWidth * sourceHeight * channelCount
    ensures next.Some? ==> |next.value| == (sourceWidth / 2) * (sourceHeight / 2) * channelCount
    ensures next.Some? <==> shape == Regular || filter == Box
  {
    match shape
    case Regular => Some(ConventionalLevel(source, sourceWidth, sourceHeight, channelCount, filter))
    case Equirect => EquirectLevel(sourceWidth, sourceHeight, channelCount, filter)
  }

  /** `GenerateConventionalMipLevel` (lines 111-169): takes a
      `(w/2) * (h/2) * channels`-byte buffer from the arena and fills it by the
      requested filter. The source is only read. The final `else` is unreachable,
      as the three filter types are all handled. */
  method GenerateConventionalMipLevel(arena: MemoryArena, source: array<Byte>, sourceWidth: nat, sourceHeight: nat,
                                      channelCount: nat, filter: MipGenerationType)
    returns (mipMapData: array<Byte>)
    requires arena.Valid() && source.Length == sourceWidth * sourceHeight * channelCount
    requires arena.used + (sourceWidth / 2) * (sourceHeight / 2) * channelCount <= arena.capacity
    modifies arena
    ensures arena.Valid() && arena.used == old(arena.used) + (sourceWidth / 2) * (sourceHeight / 2) * channelCount
    ensures fresh(mipMapData)
    ensures mipMapData[..] == ConventionalLevel(source[..], sourceWidth, sourceHeight, channelCount, filter)
  {
    var targetWidth, targetHeight := sourceWidth / 2, sourceHeight / 2;
    var _ := NewArray(arena, 1, targetWidth * targetHeight * channelCount);
    match filter
    case Point =>
      mipMapData := PointFilter(source, sourceWidth, sourceHeight, channelCount);
    case Box =>
      mipMapData := BoxFilter(source, sourceWidth, sourceHeight, channelCount);
    case Kaiser =>
      mipMapData := new Byte[targetWidth * targetHeight * channelCount](_ => 0);
  }

  /** `GenerateEquirectMipLevel` (lines 171-220): takes the buffer from the arena;
      the Point arm fills it as the conventional one does and then reaches
      `assert(false)`, as Kaiser does; the Box arm returns the buffer untouched.
      `None` stands for the failed assertion. */
  method GenerateEquirectMipLevel(arena: MemoryArena, source: array<Byte>, sourceWidth: nat, sourceHeight: nat,
                                  channelCount: nat, filter: MipGenerationType)
    returns (mipMapData: Option<array<Byte>>)
    requires arena.Valid() && source.Length == sourceWidth * sourceHeight * channelCount
    requires arena.used + (sourceWidth / 2) * (sourceHeight / 2) * channelCount <= arena.capacity
    modifies arena
    ensures arena.Valid() && arena.used == old(arena.used) + (sourceWidth / 2) * (sourceHeight / 2) * channelCount
    ensures mipMapData.Some? == EquirectLevel(sourceWidth, sourceHeight, channelCount, filter).Some?
    ensures mipMapData.Some? ==> fresh(mipMapData.value)
    ensures mipMapData.Some? ==> mipMapData.value[..] == EquirectLevel(sourceWidth, sourceHeight, channelCount, filter).value
  {
    var targetWidth, targetHeight := sourceWidth / 2, sourceHeight / 2;
    var _ := NewArray(arena, 1, targetWidth * targetHeight * channelCount);
    var buffer := new Byte[targetWidth * targetHeight * channelCount](_ => 0);
    if filter == Point {
      buffer := PointFilter(source, sourceWidth, sourceHeight, channelCount);
    }
    if filter == Box {
      // The solid-angle weighting is unfinished and stores nothing.
      mipMapData := Some(buffer);
    } else {
      mipMapData := None;
    }
  }

  /** One level of the loop (lines 253-261): the generator for the image shape,
      `None` where an assertion fails, either `Allocate`'s check that the arena
      has room for the new level (Memory.cpp:26) or the generator's own. The
      final `else` is unreachable, as both shapes are handled. */
  method GenerateLevel(arena: MemoryArena, source: array<Byte>, sourceWidth: nat, sourceHeight: nat,
                       channelCount: nat, filter: MipGenerationType, shape: ImageShape)
    returns (mipSource: Option<array<Byte>>)
    requires arena.Valid() && source.Length == sourceWidth * sourceHeight * channelCount
    modifies arena
    ensures arena.Valid()
    ensures var size := (sourceWidth / 2) * (sourceHeight / 2) * channelCount;
      var next := NextLevel(source[..], sourceWidth, sourceHeight, channelCount, filter, shape);
      && (mipSource.None? <==> old(arena.used) + size > arena.capacity || next.None?)
      && (mipSource.Some? ==> mipSource.value[..] == next.value && arena.used == old(arena.used) + size)
  {
    if arena.used + (sourceWidth / 2) * (sourceHeight / 2) * channelCount > arena.capacity {
      return None;
    }
    if shape == Regular {
      var level := GenerateConventionalMipLevel(arena, source, sourceWidth, sourceHeight, channelCount, filter);
      mipSource := Some(level);
    } else {
      mipSource := GenerateEquirectMipLevel(arena, source, sourceWidth, sourceHeight, channelCount, filter);
    }
  }

  /** Decoding's outcome: `stbi_load` fails with a reason, or yields an image of
      `width * height * channelCount` bytes. */
  datatype Decoded =
    | LoadFailure(reason: string)
    | Loaded(width: nat, height: nat, channelCount: nat, pixels: seq<Byte>)

  /** One `stbi_write_png` call. */
  datatype PngWrite = PngWrite(path: string, width: nat, height: nat, channelCount: nat, pixels: seq<Byte>)

  /** How `GenerateMipMap` ends: the decoder's failure reason is printed, all
      levels are written, or an assertion fails. */
  datatype MipMapOutcome = LoadFailed(reason: string) | Finished | AssertionFailed

  /** The files written, in order, and how the run ends. */
  datatype Run = Run(writes: seq<PngWrite>, outcome: MipMapOutcome)

  function Digit(d: nat): char
    requires d < 10
  {
    "0123456789"[d]
  }

  /** `std::to_string` of a non-negative integer. */
  function DecimalString(n: nat): string
    decreases n
  {
    if n < 10 then [Digit(n)] else DecimalString(n / 10) + [Digit(n % 10)]
  }

  /** The value of a string of decimal digits, the inverse of `DecimalString`. */
  function DecimalValue(s: string): nat
    requires forall k :: 0 <= k < |s| ==> '0' <= s[k] <= '9'
    decreases |s|
  {
    if s == [] then 0 else 10 * DecimalValue(s[..|s| - 1]) + (s[|s| - 1] - '0') as nat
  }

  /** `DecimalString` writes only digits, without leading zeros, and reads back
      as the number it was given. */
  lemma {:induction false} DecimalStringRoundTrip(n: nat)
    ensures var s := DecimalString(n);
      && |s| >= 1 && (forall k :: 0 <= k < |s| ==> '0' <= s[k] <= '9')
      && (|s| > 1 ==> s[0] != '0')
      && DecimalValue(s) == n
    decreases n
  {
    var s := DecimalString(n);
    if n < 10 {
      assert s[..0] == [];
    } else {
      DecimalStringRoundTrip(n / 10);
      var init := DecimalString(n / 10);
      assert s[..|s| - 1] == init;
      assert n == 10 * (n / 10) + n % 10;
    }
  }

  /** The path of level `level` (lines 243 and 267). */
  function LevelPath(prefix: string, level: nat): string
  {
    prefix + DecimalString(level) + ".png"
  }

  /** Different levels are written to different files. */
  lemma LevelPathsDistinct(prefix: string, level: nat, other: nat)
    requires level != other
    ensures LevelPath(prefix, level) != LevelPath(prefix, other)
  {
    var a, b := DecimalString(level), DecimalString(other);
    DecimalStringRoundTrip(level);
    DecimalStringRoundTrip(other);
    var p, q := LevelPath(prefix, level), LevelPath(prefix, other);
    if |a| == |b| {
      assert p[|prefix|..|prefix| + |a|] == a;
      assert q[|prefix|..|prefix| + |b|] == b;
    } else {
      assert |p| != |q|;
    }
  }

  /** The loop of lines 251-269 from a `width` x `height` level with index
      `index`, the arena having `used` bytes in use: while both dimensions are at
      least 2, allocate and generate the next level, then write it. An arena
      request past `DefaultCapacity` fails `Allocate`'s assertion
      (Memory.cpp:26), as does the equirect generator's `assert(false)`. */
  function MipChain(level: seq<Byte>, width: nat, height: nat, channelCount: nat, index: nat, used: nat,
                    prefix: string, filter: MipGenerationType, shape: ImageShape): (run: Run)
    requires |level| == width * height * channelCount
    ensures !run.outcome.LoadFailed?
    decreases width
  {
    if width >= 2 && height >= 2 then
      var size := (width / 2) * (height / 2) * channelCount;
      if used + size > DefaultCapacity then Run([], AssertionFailed)
      else
        match NextLevel(level, width, height, channelCount, filter, shape)
        case None => Run([], AssertionFailed)
        case Some(next) =>
          var rest := MipChain(next, width / 2, height / 2, channelCount, index + 1, used + size, prefix, filter, shape);
          Run([PngWrite(LevelPath(prefix, index + 1), width / 2, height / 2, channelCount, next)] + rest.writes,
              rest.outcome)
    else
      Run([], Finished)
  }

  /** One turn of the level loop when both dimensions are at least 2: an
      assertion fails when the arena has no room for the next level or the
      generator fails; otherwise the next level is written as level `index + 1`
      and the loop continues from it. */
  lemma MipChainUnfold(level: seq<Byte>, width: nat, height: nat, channelCount: nat, index: nat, used: nat,
                       prefix: string, filter: MipGenerationType, shape: ImageShape)
    requires |level| == width * height * channelCount
    requires width >= 2 && height >= 2
    ensures var size := (width / 2) * (height / 2) * channelCount;
      var next := NextLevel(level, width, height, channelCount, filter, shape);
      var run := MipChain(level, width, height, channelCount, index, used, prefix, filter, shape);
      if used + size > DefaultCapacity || next.None? then run == Run([], AssertionFailed)
      else
        var rest := MipChain(next.value, width / 2, height / 2, channelCount, index + 1, used + size, prefix, filter, shape);
        && |next.value| == size
        && run == Run([PngWrite(LevelPath(prefix, index + 1), width / 2, height / 2, channelCount, next.value)]
                      + rest.writes, rest.outcome)
  {
  }

  /** The loop turn that ends at a failed assertion: no room for the next level,
      or a generator that fails. */
  lemma MipChainStops(level: seq<Byte>, width: nat, height: nat, channelCount: nat, index: nat, used: nat,
                      prefix: string, filter: MipGenerationType, shape: ImageShape)
    requires |level| == width * height * channelCount
    requires width >= 2 && height >= 2
    requires used + (width / 2) * (height / 2) * channelCount > DefaultCapacity
             || NextLevel(level, width, height, channelCount, filter, shape).None?
    ensures MipChain(level, width, height, channelCount, index, used, prefix, filter, shape) == Run([], AssertionFailed)
  {
  }

  /** The loop turn that writes `next` as level `index + 1` and goes on from it. */
  lemma MipChainStep(level: seq<Byte>, width: nat, height: nat, channelCount: nat, index: nat, used: nat,
                     prefix: string, filter: MipGenerationType, shape: ImageShape, next: seq<Byte>)
    requires |level| == width * height * channelCount
    requires width >= 2 && height >= 2
    requires used + (width / 2) * (height / 2) * channelCount <= DefaultCapacity
    requires NextLevel(level, width, height, channelCount, filter, shape) == Some(next)
    ensures |next| == (width / 2) * (height / 2) * channelCount
    ensures var run := MipChain(level, width, height, channelCount, index, used, prefix, filter, shape);
      var rest := MipChain(next, width / 2, height / 2, channelCount, index + 1,
                           used + (width / 2) * (height / 2) * channelCount, prefix, filter, shape);
      && run.writes == [PngWrite(LevelPath(prefix, index + 1), width / 2, height / 2, channelCount, next)] + rest.writes
      && run.outcome == rest.outcome
  {
  }

  /** What `GenerateMipMap` (lines 222-272) does with a decoding outcome: print
      the failure reason, or copy the image into the arena, write it as level 0
      and run the level loop. */
  function MipMapRun(decoded: Decoded, prefix: string, filter: MipGenerationType, shape: ImageShape): (run: Run)
    requires decoded.Loaded? ==> |decoded.pixels| == decoded.width * decoded.height * decoded.channelCount
    ensures run.outcome.LoadFailed? <==> decoded.LoadFailure?
    ensures decoded.Loaded? && decoded.width * decoded.height * decoded.channelCount <= DefaultCapacity ==>
      |run.writes| >= 1 && run.writes[0].pixels == decoded.pixels
  {
    match decoded
    case LoadFailure(reason) => Run([], LoadFailed(reason))
    case Loaded(width, height, channelCount, pixels) =>
      var size := width * height * channelCount;
      if size > DefaultCapacity then Run([], AssertionFailed)
      else
        var rest := MipChain(pixels, width, height, channelCount, 0, size, prefix, filter, shape);
        Run([PngWrite(prefix + "0.png", width, height, channelCount, pixels)] + rest.writes, rest.outcome)
  }

  /** A decoded image that fits the arena is written as level 0, followed by
      the level loop started from it. */
  lemma MipMapRunLoaded(decoded: Decoded, prefix: string, filter: MipGenerationType, shape: ImageShape)
    requires decoded.Loaded? && |decoded.pixels| == decoded.width * decoded.height * decoded.channelCount
    requires decoded.width * decoded.height * decoded.channelCount <= DefaultCapacity
    ensures var size := decoded.width * decoded.height * decoded.channelCount;
      var rest := MipChain(decoded.pixels, decoded.width, decoded.height, decoded.channelCount, 0, size,
                           prefix, filter, shape);
      MipMapRun(decoded, prefix, filter, shape)
      == Run([PngWrite(prefix + "0.png", decoded.width, decoded.height, decoded.channelCount, decoded.pixels)]
             + rest.writes, rest.outcome)
  {
  }

  /** The `memcpy` of the decoded image into a new buffer (line 240). */
  method CopyImage(imageData: seq<Byte>) returns (level0: array<Byte>)
    ensures level0[..] == imageData
  {
    level0 := new Byte[|imageData|](k requires 0 <= k < |imageData| => imageData[k]);
  }

  /** `GenerateMipMap` (lines 222-272) on a local arena of the default capacity.
      The arena's own capacity assertion is checked before each allocation. */
  method GenerateMipMap(decoded: Decoded, targetPathPrefix: string, filter: MipGenerationType, shape: ImageShape,
                        systemGranularity: nat)
    returns (run: Run)
    requires decoded.Loaded? ==> |decoded.pixels| == decoded.width * decoded.height * decoded.channelCount
    requires IsPow2(systemGranularity) && systemGranularity < DwordModulus
    ensures run == MipMapRun(decoded, targetPathPrefix, filter, shape)
  {
    var mipMemory := new MemoryArena(DefaultCapacity, systemGranularity);
    if decoded.LoadFailure? {
      return Run([], LoadFailed(decoded.reason));
    }
    var width, height, channelCount := decoded.width, decoded.height, decoded.channelCount;
    var imageDataSize := width * height * channelCount;
    if mipMemory.used + imageDataSize > mipMemory.capacity {
      return Run([], AssertionFailed);
    }
    var _ := NewArray(mipMemory, 1, imageDataSize);
    var level0 := CopyImage(decoded.pixels);
    var path0 := targetPathPrefix + "0.png";
    assert mipMemory.used == imageDataSize;
    var writes, outcome := WriteMipLevels(mipMemory, level0, width, height, channelCount, targetPathPrefix, filter, shape);
    assert level0[..] == decoded.pixels;
    MipMapRunLoaded(decoded, targetPathPrefix, filter, shape);
    return Run([PngWrite(path0, width, height, channelCount, level0[..])] + writes, outcome);
  }

  /** Appending one element, then a tail, regroups. */
  lemma AppendShift<T>(a: seq<T>, x: T, b: seq<T>)
    ensures a + ([x] + b) == (a + [x]) + b
  {
  }

  /** One turn of the level loop (lines 253-265), stated against `MipChain`:
      either the turn fails an assertion and the loop's run ends there, or the
      new level is the first write of the run and the run goes on from it. */
  method GenerateChainLevel(arena: MemoryArena, source: array<Byte>, width: nat, height: nat, channelCount: nat,
                            index: nat, prefix: string, filter: MipGenerationType, shape: ImageShape)
    returns (next: Option<array<Byte>>)
    requires arena.Valid() && arena.capacity == DefaultCapacity
    requires source.Length == width * height * channelCount && width >= 2 && height >= 2
    modifies arena
    ensures arena.Valid()
    ensures var run := MipChain(source[..], width, height, channelCount, index, old(arena.used), prefix, filter, shape);
      match next
      case None => run == Run([], AssertionFailed)
      case Some(level) =>
        && level.Length == (width / 2) * (height / 2) * channelCount
        && var rest := MipChain(level[..], width / 2, height / 2, channelCount, index + 1, arena.used,
                                prefix, filter, shape);
        && run.writes == [PngWrite(LevelPath(prefix, index + 1), width / 2, height / 2, channelCount, level[..])]
                         + rest.writes
        && run.outcome == rest.outcome
  {
    ghost var current, usedBefore := source[..], arena.used;
    next := GenerateLevel(arena, source, width, height, channelCount, filter, shape);
    assert source[..] == current;
    if next.None? {
      MipChainStops(current, width, height, channelCount, index, usedBefore, prefix, filter, shape);
    } else {
      MipChainStep(current, width, height, channelCount, index, usedBefore, prefix, filter, shape, next.value[..]);
    }
  }

  /** The level loop of `GenerateMipMap` (lines 246-269), from level 0 held in
      `level0`: it returns the files written after level 0 and how the loop ends. */
  method WriteMipLevels(mipMemory: MemoryArena, level0: array<Byte>, width: nat, height: nat, channelCount: nat,
                        targetPathPrefix: string, filter: MipGenerationType, shape: ImageShape)
    returns (writes: seq<PngWrite>, outcome: MipMapOutcome)
    requires mipMemory.Valid() && mipMemory.capacity == DefaultCapacity
    requires level0.Length == width * height * channelCount
    modifies mipMemory
    ensures Run(writes, outcome)
      == MipChain(level0[..], width, height, channelCount, 0, old(mipMemory.used), targetPathPrefix, filter, shape)
  {
    ghost var spec := MipChain(level0[..], width, height, channelCount, 0, mipMemory.used, targetPathPrefix, filter, shape);
    writes := [];
    var mipSourceWidth: nat, mipSourceHeight: nat, mipSource := width, height, level0;
    var mipLevel: nat := 0;
    ghost var rest := spec;
    while mipSourceWidth >= 2 && mipSourceHeight >= 2
      invariant mipMemory.Valid() && mipMemory.capacity == DefaultCapacity
      invariant mipSource.Length == mipSourceWidth * mipSourceHeight * channelCount
      invariant rest == MipChain(mipSource[..], mipSourceWidth, mipSourceHeight, channelCount, mipLevel,
                                 mipMemory.used, targetPathPrefix, filter, shape)
      invariant writes + rest.writes == spec.writes && rest.outcome == spec.outcome
      decreases mipSourceWidth
    {
      var level := GenerateChainLevel(mipMemory, mipSource, mipSourceWidth, mipSourceHeight, channelCount,
                                      mipLevel, targetPathPrefix, filter, shape);
      if level.None? {
        return writes, AssertionFailed;
      }
      mipSource := level.value;
      mipSourceWidth, mipSourceHeight := mipSourceWidth / 2, mipSourceHeight / 2;
      mipLevel := mipLevel + 1;
      var write := PngWrite(LevelPath(targetPathPrefix, mipLevel), mipSourceWidth, mipSourceHeight,
                            channelCount, mipSource[..]);
      ghost var rest' := MipChain(mipSource[..], mipSourceWidth, mipSourceHeight, channelCount, mipLevel,
                                  mipMemory.used, targetPathPrefix, filter, shape);
      AppendShift(writes, write, rest'.writes);
      writes, rest := writes + [write], rest';
    }
    return writes, Finished;
  }

  function Pow2(k: nat): (p: nat)
    ensures p >= 1
  {
    if k == 0 then 1 else 2 * Pow2(k - 1)
  }

  /** How often both dimensions can be halved before one drops below 2. */
  function Halvings(width: nat, height: nat): nat
    decreases width
  {
    if width >= 2 && height >= 2 then 1 + Halvings(width / 2, height / 2) else 0
  }

  function FloorLog2(n: nat): nat
    requires n >= 1
    decreases n
  {
    if n < 2 then 0 else 1 + FloorLog2(n / 2)
  }

  /** The loop halves both dimensions `floor(log2(min(w, h)))` times. */
  lemma {:induction false} HalvingsIsFloorLog2(width: nat, height: nat)
    requires width >= 1 && height >= 1
    ensures Halvings(width, height) == FloorLog2(Min(width, height))
    decreases width
  {
    if width >= 2 && height >= 2 {
      HalvingsIsFloorLog2(width / 2, height / 2);
      assert Min(width / 2, height / 2) == Min(width, height) / 2;
    }
  }

  /** A level has at most a quarter of the bytes of the one it is made from. */
  lemma QuarterSize(width: nat, height: nat, channelCount: nat)
    ensures 4 * ((width / 2) * (height / 2) * channelCount) <= width * height * channelCount
  {
    var a, b := width / 2, height / 2;
    MulMono(2 * a, width, 2 * b);
    MulMono(2 * b, height, width);
    assert (2 * a) * (2 * b) <= width * height;
    MulMono((2 * a) * (2 * b), width * height, channelCount);
    assert 4 * (a * b * channelCount) == (2 * a) * (2 * b) * channelCount;
  }

  /** The writes are levels `index`, `index + 1`, ... of a `width` x `height`
      level `index`, each half the size of the one before (rounded down), with
      `channelCount` channels, written to `prefix + level + ".png"`. */
  ghost predicate Halved(writes: seq<PngWrite>, width: nat, height: nat, channelCount: nat, prefix: string, index: nat)
    decreases |writes|
  {
    |writes| == 0 ||
    (&& writes[0].width == width
     && writes[0].height == height
     && writes[0].channelCount == channelCount
     && writes[0].path == LevelPath(prefix, index)
     && Halved(writes[1..], width / 2, height / 2, channelCount, prefix, index + 1))
  }

  /** A level written in front of a halved sequence of its halvings is halved. */
  lemma HalvedCons(pixels: seq<Byte>, writes: seq<PngWrite>, width: nat, height: nat, channelCount: nat,
                   prefix: string, index: nat)
    requires Halved(writes, width / 2, height / 2, channelCount, prefix, index + 1)
    ensures Halved([PngWrite(LevelPath(prefix, index), width, height, channelCount, pixels)] + writes,
                   width, height, channelCount, prefix, index)
  {
    var all := [PngWrite(LevelPath(prefix, index), width, height, channelCount, pixels)] + writes;
    assert all[1..] == writes;
  }

  /** Write `k` of a halved sequence is level `index + k`, of size
      `width / 2^k` x `height / 2^k`. */
  lemma {:induction false} HalvedLevels(writes: seq<PngWrite>, width: nat, height: nat, channelCount: nat,
                                        prefix: string, index: nat)
    requires Halved(writes, width, height, channelCount, prefix, index)
    ensures forall k :: 0 <= k < |writes| ==>
      && writes[k].width == width / Pow2(k)
      && writes[k].height == height / Pow2(k)
      && writes[k].channelCount == channelCount
      && writes[k].path == LevelPath(prefix, index + k)
    decreases |writes|
  {
    if |writes| > 0 {
      var tail := writes[1..];
      HalvedLevels(tail, width / 2, height / 2, channelCount, prefix, index + 1);
      forall k | 1 <= k < |writes|
        ensures writes[k].width == width / Pow2(k) && writes[k].height == height / Pow2(k)
        ensures writes[k].channelCount == channelCount && writes[k].path == LevelPath(prefix, index + k)
      {
        assert writes[k] == tail[k - 1];
        DivTwice(width, Pow2(k - 1));
        DivTwice(height, Pow2(k - 1));
      }
    }
  }

  /** The loop writes at most `Halvings(width, height)` levels. */
  lemma {:induction false} MipChainLength(level: seq<Byte>, width: nat, height: nat, channelCount: nat, index: nat,
                                          used: nat, prefix: string, filter: MipGenerationType, shape: ImageShape)
    requires |level| == width * height * channelCount
    ensures |MipChain(level, width, height, channelCount, index, used, prefix, filter, shape).writes| <= Halvings(width, height)
    decreases width
  {
    if width >= 2 && height >= 2 {
      var size := (width / 2) * (height / 2) * channelCount;
      var next := NextLevel(level, width, height, channelCount, filter, shape);
      MipChainUnfold(level, width, height, channelCount, index, used, prefix, filter, shape);
      if used + size <= DefaultCapacity && next.Some? {
        MipChainLength(next.value, width / 2, height / 2, channelCount, index + 1, used + size, prefix, filter, shape);
      }
    }
  }

  /** The loop started from a `width` x `height` level with index `index`
      writes levels `index + 1`, `index + 2`, ..., each half the size of the one
      before. */
  lemma {:induction false} MipChainShape(level: seq<Byte>, width: nat, height: nat, channelCount: nat, index: nat,
                                         used: nat, prefix: string, filter: MipGenerationType, shape: ImageShape)
    requires |level| == width * height * channelCount
    ensures Halved(MipChain(level, width, height, channelCount, index, used, prefix, filter, shape).writes,
                   width / 2, height / 2, channelCount, prefix, index + 1)
    decreases width
  {
    if width >= 2 && height >= 2 {
      var size := (width / 2) * (height / 2) * channelCount;
      var next := NextLevel(level, width, height, channelCount, filter, shape);
      if used + size <= DefaultCapacity && next.Some? {
        var level' := next.value;
        MipChainStep(level, width, height, channelCount, index, used, prefix, filter, shape, level');
        MipChainShape(level', width / 2, height / 2, channelCount, index + 1, used + size, prefix, filter, shape);
        HalvedCons(level', MipChain(level', width / 2, height / 2, channelCount, index + 1, used + size,
                                    prefix, filter, shape).writes,
                   width / 2, height / 2, channelCount, prefix, index + 1);
      } else {
        MipChainStops(level, width, height, channelCount, index, used, prefix, filter, shape);
      }
    }
  }

  /** Every write carries `width * height * channelCount` bytes. */
  ghost predicate Sized(writes: seq<PngWrite>, channelCount: nat)
  {
    forall k :: 0 <= k < |writes| ==> |writes[k].pixels| == writes[k].width * writes[k].height * channelCount
  }

  /** Each write's pixels are the generator applied to the previous write's. */
  ghost predicate Chained(writes: seq<PngWrite>, channelCount: nat, filter: MipGenerationType, shape: ImageShape)
    requires Sized(writes, channelCount)
  {
    forall k :: 0 <= k < |writes| - 1 ==>
      NextLevel(writes[k].pixels, writes[k].width, writes[k].height, channelCount, filter, shape)
      == Some(writes[k + 1].pixels)
  }

  /** Every level the loop writes carries `width * height * channelCount` bytes. */
  lemma {:induction false} MipChainSized(level: seq<Byte>, width: nat, height: nat, channelCount: nat, index: nat,
                                         used: nat, prefix: string, filter: MipGenerationType, shape: ImageShape)
    requires |level| == width * height * channelCount
    ensures Sized(MipChain(level, width, height, channelCount, index, used, prefix, filter, shape).writes, channelCount)
    decreases width
  {
    if width >= 2 && height >= 2 {
      var size := (width / 2) * (height / 2) * channelCount;
      var next := NextLevel(level, width, height, channelCount, filter, shape);
      if used + size <= DefaultCapacity && next.Some? {
        var level' := next.value;
        MipChainStep(level, width, height, channelCount, index, used, prefix, filter, shape, level');
        MipChainSized(level', width / 2, height / 2, channelCount, index + 1, used + size, prefix, filter, shape);
        SizedCons(PngWrite(LevelPath(prefix, index + 1), width / 2, height / 2, channelCount, level'),
                  MipChain(level', width / 2, height / 2, channelCount, index + 1, used + size,
                           prefix, filter, shape).writes, channelCount);
      } else {
        MipChainStops(level, width, height, channelCount, index, used, prefix, filter, shape);
      }
    }
  }

  lemma SizedCons(first: PngWrite, writes: seq<PngWrite>, channelCount: nat)
    requires |first.pixels| == first.width * first.height * channelCount
    requires Sized(writes, channelCount)
    ensures Sized([first] + writes, channelCount)
  {
    var all := [first] + writes;
    forall k | 1 <= k < |all|
      ensures all[k] == writes[k - 1]
    {
    }
  }

  lemma ChainedCons(first: PngWrite, writes: seq<PngWrite>, channelCount: nat, filter: MipGenerationType,
                    shape: ImageShape)
    requires |first.pixels| == first.width * first.height * channelCount && Sized([first] + writes, channelCount)
    requires Sized(writes, channelCount) && Chained(writes, channelCount, filter, shape)
    requires |writes| > 0 ==>
      NextLevel(first.pixels, first.width, first.height, channelCount, filter, shape) == Some(writes[0].pixels)
    ensures Chained([first] + writes, channelCount, filter, shape)
  {
    var all := [first] + writes;
    forall k | 1 <= k < |all|
      ensures all[k] == writes[k - 1]
    {
    }
  }

  /** The first level the loop writes is the generator applied to the level
      it starts from. */
  lemma MipChainFirst(level: seq<Byte>, width: nat, height: nat, channelCount: nat, index: nat,
                      used: nat, prefix: string, filter: MipGenerationType, shape: ImageShape)
    requires |level| == width * height * channelCount
    ensures var run := MipChain(level, width, height, channelCount, index, used, prefix, filter, shape);
      |run.writes| > 0 ==> NextLevel(level, width, height, channelCount, filter, shape) == Some(run.writes[0].pixels)
  {
    if width >= 2 && height >= 2 {
      MipChainUnfold(level, width, height, channelCount, index, used, prefix, filter, shape);
    }
  }

  /** Each level the loop writes after its first is the generator applied to
      the one before it. */
  lemma {:induction false} MipChainPixels(level: seq<Byte>, width: nat, height: nat, channelCount: nat, index: nat,
                                          used: nat, prefix: string, filter: MipGenerationType, shape: ImageShape)
    requires |level| == width * height * channelCount
    ensures var run := MipChain(level, width, height, channelCount, index, used, prefix, filter, shape);
      Sized(run.writes, channelCount) && Chained(run.writes, channelCount, filter, shape)
    decreases width
  {
    MipChainSized(level, width, height, channelCount, index, used, prefix, filter, shape);
    var run := MipChain(level, width, height, channelCount, index, used, prefix, filter, shape);
    if width >= 2 && height >= 2 {
      var size := (width / 2) * (height / 2) * channelCount;
      var next := NextLevel(level, width, height, channelCount, filter, shape);
      MipChainUnfold(level, width, height, channelCount, index, used, prefix, filter, shape);
      if used + size <= DefaultCapacity && next.Some? {
        var rest := MipChain(next.value, width / 2, height / 2, channelCount, index + 1, used + size, prefix, filter, shape);
        MipChainPixels(next.value, width / 2, height / 2, channelCount, index + 1, used + size, prefix, filter, shape);
        MipChainFirst(next.value, width / 2, height / 2, channelCount, index + 1, used + size, prefix, filter, shape);
        var first := PngWrite(LevelPath(prefix, index + 1), width / 2, height / 2, channelCount, next.value);
        assert run.writes == [first] + rest.writes;
        SizedCons(first, rest.writes, channelCount);
        ChainedCons(first, rest.writes, channelCount, filter, shape);
      } else {
        assert run.writes == [];
      }
    } else {
      assert run.writes == [];
    }
  }

  /** For a regular image whose pyramid fits the arena (twice the image's bytes
      suffice), the loop writes exactly `Halvings(w, h)` levels and finishes. */
  lemma {:induction false} RegularChainFinishes(level: seq<Byte>, width: nat, height: nat, channelCount: nat,
                                                index: nat, used: nat, prefix: string, filter: MipGenerationType)
    requires |level| == width * height * channelCount
    requires used + width * height * channelCount <= DefaultCapacity
    ensures var run := MipChain(level, width, height, channelCount, index, used, prefix, filter, Regular);
      run.outcome == Finished && |run.writes| == Halvings(width, height)
    decreases width
  {
    if width >= 2 && height >= 2 {
      var size := (width / 2) * (height / 2) * channelCount;
      QuarterSize(width, height, channelCount);
      MipChainUnfold(level, width, height, channelCount, index, used, prefix, filter, Regular);
      var next := NextLevel(level, width, height, channelCount, filter, Regular);
      RegularChainFinishes(next.value, width / 2, height / 2, channelCount, index + 1, used + size, prefix, filter);
    }
  }

  /** Level 0 is the decoded image, byte for byte, and write `k` of the run is
      level `k`: `w / 2^k` x `h / 2^k` with the decoded channel count, written to
      `prefix + k + ".png"`; at most `Halvings(w, h)` levels follow level 0.
      When decoding fails nothing is written. */
  lemma MipMapRunShape(decoded: Decoded, prefix: string, filter: MipGenerationType, shape: ImageShape)
    requires decoded.Loaded? ==> |decoded.pixels| == decoded.width * decoded.height * decoded.channelCount
    ensures var run := MipMapRun(decoded, prefix, filter, shape);
      && (decoded.LoadFailure? ==> run == Run([], LoadFailed(decoded.reason)))
      && (decoded.Loaded? && |run.writes| > 0 ==>
            && run.writes[0].pixels == decoded.pixels
            && |run.writes| <= Halvings(decoded.width, decoded.height) + 1
            && forall k :: 0 <= k < |run.writes| ==>
                 && run.writes[k].width == decoded.width / Pow2(k)
                 && run.writes[k].height == decoded.height / Pow2(k)
                 && run.writes[k].channelCount == decoded.channelCount
                 && run.writes[k].path == LevelPath(prefix, k))
  {
    if decoded.Loaded? {
      var size := decoded.width * decoded.height * decoded.channelCount;
      if size <= DefaultCapacity {
        var run := MipMapRun(decoded, prefix, filter, shape);
        var rest := MipChain(decoded.pixels, decoded.width, decoded.height, decoded.channelCount, 0, size, prefix, filter, shape);
        MipChainShape(decoded.pixels, decoded.width, decoded.height, decoded.channelCount, 0, size, prefix, filter, shape);
        MipChainLength(decoded.pixels, decoded.width, decoded.height, decoded.channelCount, 0, size, prefix, filter, shape);
        LevelZeroPath(prefix);
        assert run.writes[1..] == rest.writes;
        HalvedLevels(run.writes, decoded.width, decoded.height, decoded.channelCount, prefix, 0);
      }
    }
  }

  /** Level 0's path, spelled out at line 243, is the one the loop's rule gives for 0. */
  lemma LevelZeroPath(prefix: string)
    ensures LevelPath(prefix, 0) == prefix + "0.png"
  {
    assert DecimalString(0) == "0";
  }

  /** A regular image whose pyramid fits the arena gets every level down to a
      dimension below 2 (`floor(log2(min(w, h)))` levels after level 0), each
      the chosen filter applied to the previous one, and the run finishes. */
  lemma RegularRunFinishes(decoded: Decoded, prefix: string, filter: MipGenerationType)
    requires decoded.Loaded? && |decoded.pixels| == decoded.width * decoded.height * decoded.channelCount
    requires 2 * (decoded.width * decoded.height * decoded.channelCount) <= DefaultCapacity
    ensures var run := MipMapRun(decoded, prefix, filter, Regular);
      && run.outcome == Finished
      && |run.writes| == Halvings(decoded.width, decoded.height) + 1
      && Sized(run.writes, decoded.channelCount)
      && Chained(run.writes, decoded.channelCount, filter, Regular)
  {
    var size := decoded.width * decoded.height * decoded.channelCount;
    var rest := MipChain(decoded.pixels, decoded.width, decoded.height, decoded.channelCount, 0, size, prefix, filter, Regular);
    RegularChainFinishes(decoded.pixels, decoded.width, decoded.height, decoded.channelCount, 0, size, prefix, filter);
    MipChainPixels(decoded.pixels, decoded.width, decoded.height, decoded.channelCount, 0, size, prefix, filter, Regular);
    MipChainFirst(decoded.pixels, decoded.width, decoded.height, decoded.channelCount, 0, size, prefix, filter, Regular);
    SizedCons(PngWrite(prefix + "0.png", decoded.width, decoded.height, decoded.channelCount, decoded.pixels),
              rest.writes, decoded.channelCount);
    ChainedCons(PngWrite(prefix + "0.png", decoded.width, decoded.height, decoded.channelCount, decoded.pixels),
                rest.writes, decoded.channelCount, filter, Regular);
  }

  /** An equirect image at least 2 x 2 whose first level fits the arena gets
      level 0 written and then, for Point and Kaiser, fails the assertion at
      line 217. */
  lemma EquirectRunFailsUnlessBox(decoded: Decoded, prefix: string, filter: MipGenerationType)
    requires decoded.Loaded? && |decoded.pixels| == decoded.width * decoded.height * decoded.channelCount
    requires decoded.width >= 2 && decoded.height >= 2 && filter != Box
    requires 2 * (decoded.width * decoded.height * decoded.channelCount) <= DefaultCapacity
    ensures MipMapRun(decoded, prefix, filter, Equirect)
      == Run([PngWrite(prefix + "0.png", decoded.width, decoded.height, decoded.channelCount, decoded.pixels)],
             AssertionFailed)
  {
    QuarterSize(decoded.width, decoded.height, decoded.channelCount);
    var size := decoded.width * decoded.height * decoded.channelCount;
    MipChainUnfold(decoded.pixels, decoded.width, decoded.height, decoded.channelCount, 0, size, prefix, filter, Equirect);
  }

  /** For an equirect image with the Box filter, every level after level 0 is
      blank: all its bytes are zero. */
  lemma EquirectBoxLevelsAreBlank(decoded: Decoded, prefix: string)
    requires decoded.Loaded? && |decoded.pixels| == decoded.width * decoded.height * decoded.channelCount
    ensures var run := MipMapRun(decoded, prefix, Box, Equirect);
      forall k, i :: 1 <= k < |run.writes| && 0 <= i < |run.writes[k].pixels| ==> run.writes[k].pixels[i] == 0
  {
    var size := decoded.width * decoded.height * decoded.channelCount;
    if size <= DefaultCapacity {
      var channelCount := decoded.channelCount;
      var run := MipMapRun(decoded, prefix, Box, Equirect);
      var rest := MipChain(decoded.pixels, decoded.width, decoded.height, channelCount, 0, size, prefix, Box, Equirect);
      MipChainPixels(decoded.pixels, decoded.width, decoded.height, channelCount, 0, size, prefix, Box, Equirect);
      MipChainFirst(decoded.pixels, decoded.width, decoded.height, channelCount, 0, size, prefix, Box, Equirect);
      SizedCons(PngWrite(prefix + "0.png", decoded.width, decoded.height, channelCount, decoded.pixels),
                rest.writes, channelCount);
      ChainedCons(PngWrite(prefix + "0.png", decoded.width, decoded.height, channelCount, decoded.pixels),
                  rest.writes, channelCount, Box, Equirect);
      forall k | 1 <= k < |run.writes|
        ensures forall i :: 0 <= i < |run.writes[k].pixels| ==> run.writes[k].pixels[i] == 0
      {
        var previous := run.writes[k - 1];
        BlankAfterEquirectBox(previous.pixels, previous.width, previous.height, channelCount, run.writes[k].pixels);
      }
    }
  }

  lemma BlankAfterEquirectBox(source: seq<Byte>, sourceWidth: nat, sourceHeight: nat, channelCount: nat, level: seq<Byte>)
    requires |source| == sourceWidth * sourceHeight * channelCount
    requires NextLevel(source, sourceWidth, sourceHeight, channelCount, Box, Equirect) == Some(level)
    ensures forall i :: 0 <= i < |level| ==> level[i] == 0
  {
  }
}
