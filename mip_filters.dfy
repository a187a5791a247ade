/** The 2x2 downsampling filters of EquirectConverter/src/EquirectConverter.cpp:
    an 8-bit, row-major image with interleaved channels is halved in each
    dimension (integer division) by point sampling or by a truncated box average.
    The specification functions describe the whole target buffer; the methods
    fill a new buffer with the source's nested y/x/c loops and are proved
    against them. */
module MipFilters {
  import opened BitMath

  /** `unsigned char`. */
  type Byte = b: int | 0 <= b < 256

  /** Offset of channel `c` of texel `(x, y)` in a row-major image `width` texels
      wide with `channelCount` interleaved channels. */
  function TexelOffset(x: nat, y: nat, width: nat, channelCount: nat, c: nat): nat
  {
    (y * width + x) * channelCount + c
  }

  lemma TexelOffsetInBounds(x: nat, y: nat, width: nat, height: nat, channelCount: nat, c: nat)
    requires x < width && y < height && c < channelCount
    ensures TexelOffset(x, y, width, channelCount, c) < width * height * channelCount
  {
    MulMono(y + 1, height, width);
    assert y * width + x + 1 <= height * width;
    MulMono(y * width + x + 1, height * width, channelCount);
    assert (y * width + x + 1) * channelCount == (y * width + x) * channelCount + channelCount;
  }

  /** A texel offset determines its texel and channel. */
  lemma TexelOffsetDecompose(x: nat, y: nat, width: nat, channelCount: nat, c: nat)
    requires x < width && c < channelCount
    ensures var k := TexelOffset(x, y, width, channelCount, c);
      k % channelCount == c && k / channelCount == y * width + x
      && (y * width + x) % width == x && (y * width + x) / width == y
  {
    DivUnique(TexelOffset(x, y, width, channelCount, c), channelCount, y * width + x, c);
    DivUnique(y * width + x, width, y, x);
  }

  lemma DivBelow(k: nat, a: nat, b: nat)
    requires b > 0 && k < a * b
    ensures k / b < a
  {
    var q := k / b;
    assert k == q * b + k % b;
    if q >= a {
      MulMono(a, q, b);
    }
  }

  /** Consecutive texels of a row, and the end of one row and the start of the next. */
  lemma TexelOffsetStep(x: nat, y: nat, width: nat, channelCount: nat)
    ensures TexelOffset(x, y, width, channelCount, channelCount) == TexelOffset(x + 1, y, width, channelCount, 0)
    ensures TexelOffset(width, y, width, channelCount, 0) == TexelOffset(0, y + 1, width, channelCount, 0)
  {
    assert (y * width + x) * channelCount + channelCount == (y * width + x + 1) * channelCount;
    assert (y + 1) * width == y * width + width;
  }

  /** The target texel `(i, j)` and channel `c` that byte `k` of a target image
      `targetWidth` x `targetHeight` holds. */
  function TargetTexel(k: nat, targetWidth: nat, targetHeight: nat, channelCount: nat): (t: (nat, nat, nat))
    requires k < targetWidth * targetHeight * channelCount
    ensures t.0 < targetWidth && t.1 < targetHeight && t.2 < channelCount
    ensures TexelOffset(t.0, t.1, targetWidth, channelCount, t.2) == k
  {
    assert targetWidth > 0 && channelCount > 0;
    var p := k / channelCount;
    DivBelow(k, targetWidth * targetHeight, channelCount);
    DivBelow(p, targetHeight, targetWidth);
    assert k == p * channelCount + k % channelCount;
    assert p == (p / targetWidth) * targetWidth + p % targetWidth;
    (p % targetWidth, p / targetWidth, k % channelCount)
  }

  /** Point filtering: target texel `(i, j)` is source texel `(2i, 2j)`. */
  function PointSample(source: seq<Byte>, sourceWidth: nat, sourceHeight: nat, channelCount: nat, k: nat): Byte
    requires |source| == sourceWidth * sourceHeight * channelCount
    requires k < (sourceWidth / 2) * (sourceHeight / 2) * channelCount
  {
    var (i, j, c) := TargetTexel(k, sourceWidth / 2, sourceHeight / 2, channelCount);
    TexelOffsetInBounds(2 * i, 2 * j, sourceWidth, sourceHeight, channelCount, c);
    source[TexelOffset(2 * i, 2 * j, sourceWidth, channelCount, c)]
  }

  /** The point-filtered level: `(sourceWidth/2) * (sourceHeight/2) * channelCount` bytes. */
  function PointMip(source: seq<Byte>, sourceWidth: nat, sourceHeight: nat, channelCount: nat): (mip: seq<Byte>)
    requires |source| == sourceWidth * sourceHeight * channelCount
    ensures |mip| == (sourceWidth / 2) * (sourceHeight / 2) * channelCount
  {
    var n := (sourceWidth / 2) * (sourceHeight / 2) * channelCount;
    seq(n, k requires 0 <= k < n => PointSample(source, sourceWidth, sourceHeight, channelCount, k))
  }

  /** The box average of four channel values: their sum (in `int`) divided by 4
      and truncated. It lies between the smallest and the largest of the four, so
      it fits in a byte, and four equal values average to that value. */
  function BoxAverage(s0: Byte, s1: Byte, s2: Byte, s3: Byte): (r: Byte)
    ensures Min(Min(s0, s1), Min(s2, s3)) <= r <= Max(Max(s0, s1), Max(s2, s3))
    ensures s0 == s1 == s2 == s3 ==> r == s0
  {
    (s0 + s1 + s2 + s3) / 4
  }

  /** The 2x2 source block under target texel `(i, j)`, channel `c`: source texels
      `(2i, 2j)`, `(2i, 2j+1)`, `(2i+1, 2j)` and `(2i+1, 2j+1)`, in the order the
      box filter sums them. */
  function SourceBlock(source: seq<Byte>, sourceWidth: nat, sourceHeight: nat, channelCount: nat,
                       i: nat, j: nat, c: nat): (block: (Byte, Byte, Byte, Byte))
    requires |source| == sourceWidth * sourceHeight * channelCount
    requires i < sourceWidth / 2 && j < sourceHeight / 2 && c < channelCount
    ensures TexelOffset(2 * i, 2 * j, sourceWidth, channelCount, c) < |source|
    ensures TexelOffset(2 * i, 2 * j + 1, sourceWidth, channelCount, c) < |source|
    ensures TexelOffset(2 * i + 1, 2 * j, sourceWidth, channelCount, c) < |source|
    ensures TexelOffset(2 * i + 1, 2 * j + 1, sourceWidth, channelCount, c) < |source|
    ensures block.0 == source[TexelOffset(2 * i, 2 * j, sourceWidth, channelCount, c)]
    ensures block.1 == source[TexelOffset(2 * i, 2 * j + 1, sourceWidth, channelCount, c)]
    ensures block.2 == source[TexelOffset(2 * i + 1, 2 * j, sourceWidth, channelCount, c)]
    ensures block.3 == source[TexelOffset(2 * i + 1, 2 * j + 1, sourceWidth, channelCount, c)]
  {
    TexelOffsetInBounds(2 * i, 2 * j, sourceWidth, sourceHeight, channelCount, c);
    TexelOffsetInBounds(2 * i, 2 * j + 1, sourceWidth, sourceHeight, channelCount, c);
    TexelOffsetInBounds(2 * i + 1, 2 * j, sourceWidth, sourceHeight, channelCount, c);
    TexelOffsetInBounds(2 * i + 1, 2 * j + 1, sourceWidth, sourceHeight, channelCount, c);
    (source[TexelOffset(2 * i, 2 * j, sourceWidth, channelCount, c)],
     source[TexelOffset(2 * i, 2 * j + 1, sourceWidth, channelCount, c)],
     source[TexelOffset(2 * i + 1, 2 * j, sourceWidth, channelCount, c)],
     source[TexelOffset(2 * i + 1, 2 * j + 1, sourceWidth, channelCount, c)])
  }

  /** Box filtering: target texel `(i, j)` is the box average of its source block. */
  function BoxSample(source: seq<Byte>, sourceWidth: nat, sourceHeight: nat, channelCount: nat, k: nat): Byte
    requires |source| == sourceWidth * sourceHeight * channelCount
    requires k < (sourceWidth / 2) * (sourceHeight / 2) * channelCount
  {
    var (i, j, c) := TargetTexel(k, sourceWidth / 2, sourceHeight / 2, channelCount);
    var block := SourceBlock(source, sourceWidth, sourceHeight, channelCount, i, j, c);
    BoxAverage(block.0, block.1, block.2, block.3)
  }

  /** The box-filtered level: `(sourceWidth/2) * (sourceHeight/2) * channelCount` bytes. */
  function BoxMip(source: seq<Byte>, sourceWidth: nat, sourceHeight: nat, channelCount: nat): (mip: seq<Byte>)
    requires |source| == sourceWidth * sourceHeight * channelCount
    ensures |mip| == (sourceWidth / 2) * (sourceHeight / 2) * channelCount
  {
    var n := (sourceWidth / 2) * (sourceHeight / 2) * channelCount;
    seq(n, k requires 0 <= k < n => BoxSample(source, sourceWidth, sourceHeight, channelCount, k))
  }

  /** The point-filtered level has `(w/2) * (h/2) * channels` bytes, and channel `c`
      of target texel `(i, j)` is channel `c` of source texel `(2i, 2j)`. */
  lemma PointMipTexel(source: seq<Byte>, sourceWidth: nat, sourceHeight: nat, channelCount: nat, i: nat, j: nat, c: nat)
    requires |source| == sourceWidth * sourceHeight * channelCount
    requires i < sourceWidth / 2 && j < sourceHeight / 2 && c < channelCount
    ensures var mip := PointMip(source, sourceWidth, sourceHeight, channelCount);
      var k := TexelOffset(i, j, sourceWidth / 2, channelCount, c);
      && |mip| == (sourceWidth / 2) * (sourceHeight / 2) * channelCount
      && k < |mip|
      && TexelOffset(2 * i, 2 * j, sourceWidth, channelCount, c) < |source|
      && mip[k] == source[TexelOffset(2 * i, 2 * j, sourceWidth, channelCount, c)]
  {
    TexelOffsetInBounds(i, j, sourceWidth / 2, sourceHeight / 2, channelCount, c);
    TexelOffsetInBounds(2 * i, 2 * j, sourceWidth, sourceHeight, channelCount, c);
    TexelOffsetDecompose(i, j, sourceWidth / 2, channelCount, c);
  }

  /** The box-filtered level has `(w/2) * (h/2) * channels` bytes; channel `c` of
      target texel `(i, j)` is the truncated mean of its 2x2 source block, lies
      between the block's smallest and largest value, and equals `v` when all
      four are `v`. */
  lemma BoxMipTexel(source: seq<Byte>, sourceWidth: nat, sourceHeight: nat, channelCount: nat, i: nat, j: nat, c: nat)
    requires |source| == sourceWidth * sourceHeight * channelCount
    requires i < sourceWidth / 2 && j < sourceHeight / 2 && c < channelCount
    ensures var mip := BoxMip(source, sourceWidth, sourceHeight, channelCount);
      var k := TexelOffset(i, j, sourceWidth / 2, channelCount, c);
      var (s0, s1, s2, s3) := SourceBlock(source, sourceWidth, sourceHeight, channelCount, i, j, c);
      && |mip| == (sourceWidth / 2) * (sourceHeight / 2) * channelCount
      && k < |mip|
      && mip[k] == (s0 + s1 + s2 + s3) / 4
      && Min(Min(s0, s1), Min(s2, s3)) <= mip[k] <= Max(Max(s0, s1), Max(s2, s3))
      && (s0 == s1 == s2 == s3 ==> mip[k] == s0)
  {
    var tw, th := sourceWidth / 2, sourceHeight / 2;
    var k := TexelOffset(i, j, tw, channelCount, c);
    TexelOffsetInBounds(i, j, tw, th, channelCount, c);
    TexelOffsetDecompose(i, j, tw, channelCount, c);
    assert TargetTexel(k, tw, th, channelCount) == (i, j, c);
    assert BoxMip(source, sourceWidth, sourceHeight, channelCount)[k]
        == BoxSample(source, sourceWidth, sourceHeight, channelCount, k);
  }

  /** Texel offsets up to the end of a row, and row starts up to the end of the
      image, stay within the image. */
  lemma TexelOffsetAtMost(x: nat, y: nat, width: nat, height: nat, channelCount: nat)
    requires (x <= width && y < height) || (x == 0 && y <= height)
    ensures TexelOffset(x, y, width, channelCount, 0) <= width * height * channelCount
  {
    if y < height {
      MulMono(y + 1, height, width);
    } else {
      MulMono(y, height, width);
    }
    assert y * width + x <= height * width;
    MulMono(y * width + x, height * width, channelCount);
  }

  /** The first `done` bytes of the target buffer hold the specified level. */
  ghost predicate Filled(mipMapData: array<Byte>, spec: seq<Byte>, done: nat)
    reads mipMapData
  {
    done <= mipMapData.Length && done <= |spec|
    && forall k :: 0 <= k < done ==> mipMapData[k] == spec[k]
  }

  /** The source offsets and the target offset the Point and Box arms compute
      for the block at `(x, y) == (2i, 2j)` (lines 124-125 and 142-146), as texel
      offsets. */
  lemma BlockOffsets(x: nat, y: nat, i: nat, j: nat, sourceWidth: nat, channelCount: nat)
    requires x == 2 * i && y == 2 * j
    ensures (y * sourceWidth + x) * channelCount == TexelOffset(2 * i, 2 * j, sourceWidth, channelCount, 0)
    ensures ((y + 1) * sourceWidth + x) * channelCount == TexelOffset(2 * i, 2 * j + 1, sourceWidth, channelCount, 0)
    ensures (y * sourceWidth + x + 1) * channelCount == TexelOffset(2 * i + 1, 2 * j, sourceWidth, channelCount, 0)
    ensures ((y + 1) * sourceWidth + x + 1) * channelCount == TexelOffset(2 * i + 1, 2 * j + 1, sourceWidth, channelCount, 0)
    ensures ((y / 2) * (sourceWidth / 2) + (x / 2)) * channelCount == TexelOffset(i, j, sourceWidth / 2, channelCount, 0)
  {
  }

  /** The row-major offsets end where the image does. */
  lemma TexelOffsetEnd(width: nat, height: nat, channelCount: nat)
    ensures TexelOffset(0, height, width, channelCount, 0) == width * height * channelCount
  {
  }

  /** The channel loop of the Point arm (lines 128-131) for the source texel at
      even `(x, y)`: channel `c` of target texel `(x/2, y/2)` gets channel `c` of
      source texel `(x, y)`, so the filled part of the target grows by one texel. */
  method CopyPointTexel(source: array<Byte>, sourceWidth: nat, sourceHeight: nat, channelCount: nat,
                        x: nat, y: nat, ghost i: nat, ghost j: nat, mipMapData: array<Byte>, ghost spec: seq<Byte>)
    requires source.Length == sourceWidth * sourceHeight * channelCount
    requires spec == PointMip(source[..], sourceWidth, sourceHeight, channelCount)
    requires mipMapData.Length == |spec| && mipMapData != source
    requires x == 2 * i && y == 2 * j && i < sourceWidth / 2 && j < sourceHeight / 2
    requires Filled(mipMapData, spec, TexelOffset(i, j, sourceWidth / 2, channelCount, 0))
    modifies mipMapData
    ensures Filled(mipMapData, spec, TexelOffset(i + 1, j, sourceWidth / 2, channelCount, 0))
  {
    var targetWidth := sourceWidth / 2;
    var sourceIndex := (y * sourceWidth + x) * channelCount;
    var targetIndex := ((y / 2) * targetWidth + (x / 2)) * channelCount;
    BlockOffsets(x, y, i, j, sourceWidth, channelCount);
    var c := 0;
    while c < channelCount
      invariant c <= channelCount
      invariant Filled(mipMapData, spec, targetIndex + c)
    {
      PointMipTexel(source[..], sourceWidth, sourceHeight, channelCount, i, j, c);
      mipMapData[targetIndex + c] := source[sourceIndex + c];
      c := c + 1;
    }
    TexelOffsetStep(i, j, targetWidth, channelCount);
  }

  /** The Point arm (lines 119-134) filling a new `(w/2) x (h/2)` buffer: for each
      even `y` and `x`, channel `c` of target texel `(x/2, y/2)` is copied from
      channel `c` of source texel `(x, y)`. The loops stop at `2 * (h/2)` and
      `2 * (w/2)`, dropping an odd last row or column; the source's own bounds
      are the subject of a finding. The source buffer is only read. */
  method PointFilter(source: array<Byte>, sourceWidth: nat, sourceHeight: nat, channelCount: nat)
    returns (mipMapData: array<Byte>)
    requires source.Length == sourceWidth * sourceHeight * channelCount
    ensures fresh(mipMapData)
    ensures mipMapData[..] == PointMip(source[..], sourceWidth, sourceHeight, channelCount)
  {
    var targetWidth, targetHeight := sourceWidth / 2, sourceHeight / 2;
    ghost var spec := PointMip(source[..], sourceWidth, sourceHeight, channelCount);
    mipMapData := new Byte[targetWidth * targetHeight * channelCount](_ => 0);
    var y := 0;
    ghost var j := 0;
    while y < 2 * targetHeight
      invariant y == 2 * j && j <= targetHeight
      invariant Filled(mipMapData, spec, TexelOffset(0, j, targetWidth, channelCount, 0))
    {
      var x := 0;
      ghost var i := 0;
      while x < 2 * targetWidth
        invariant x == 2 * i && i <= targetWidth
        invariant Filled(mipMapData, spec, TexelOffset(i, j, targetWidth, channelCount, 0))
      {
        CopyPointTexel(source, sourceWidth, sourceHeight, channelCount, x, y, i, j, mipMapData, spec);
        x, i := x + 2, i + 1;
      }
      TexelOffsetStep(targetWidth, j, targetWidth, channelCount);
      y, j := y + 2, j + 1;
    }
    TexelOffsetEnd(targetWidth, targetHeight, channelCount);
  }

  /** `BoxMipTexel` with every offset split into its texel's first byte plus `c`. */
  lemma BoxChannel(source: seq<Byte>, sourceWidth: nat, sourceHeight: nat, channelCount: nat, i: nat, j: nat, c: nat)
    requires |source| == sourceWidth * sourceHeight * channelCount
    requires i < sourceWidth / 2 && j < sourceHeight / 2 && c < channelCount
    ensures var mip := BoxMip(source, sourceWidth, sourceHeight, channelCount);
      var k := TexelOffset(i, j, sourceWidth / 2, channelCount, 0) + c;
      var o0 := TexelOffset(2 * i, 2 * j, sourceWidth, channelCount, 0) + c;
      var o1 := TexelOffset(2 * i, 2 * j + 1, sourceWidth, channelCount, 0) + c;
      var o2 := TexelOffset(2 * i + 1, 2 * j, sourceWidth, channelCount, 0) + c;
      var o3 := TexelOffset(2 * i + 1, 2 * j + 1, sourceWidth, channelCount, 0) + c;
      && k < |mip| && o0 < |source| && o1 < |source| && o2 < |source| && o3 < |source|
      && mip[k] == (source[o0] as int + source[o1] as int + source[o2] as int + source[o3] as int) / 4
  {
    BoxMipTexel(source, sourceWidth, sourceHeight, channelCount, i, j, c);
  }

  /** The channel loop of the Box arm (lines 149-155) for the block at even
      `(x, y)`: channel `c` of target texel `(x/2, y/2)` is the sum of channel `c`
      of source texels `(x, y)`, `(x, y+1)`, `(x+1, y)` and `(x+1, y+1)`, divided
      by 4, so the filled part of the target grows by one texel. */
  method AverageBoxTexel(source: array<Byte>, sourceWidth: nat, sourceHeight: nat, channelCount: nat,
                         x: nat, y: nat, ghost i: nat, ghost j: nat, mipMapData: array<Byte>, ghost spec: seq<Byte>)
    requires source.Length == sourceWidth * sourceHeight * channelCount
    requires spec == BoxMip(source[..], sourceWidth, sourceHeight, channelCount)
    requires mipMapData.Length == |spec| && mipMapData != source
    requires x == 2 * i && y == 2 * j && i < sourceWidth / 2 && j < sourceHeight / 2
    requires Filled(mipMapData, spec, TexelOffset(i, j, sourceWidth / 2, channelCount, 0))
    modifies mipMapData
    ensures Filled(mipMapData, spec, TexelOffset(i + 1, j, sourceWidth / 2, channelCount, 0))
  {
    var targetWidth := sourceWidth / 2;
    var sourceIndex0 := (y * sourceWidth + x) * channelCount;
    var sourceIndex1 := ((y + 1) * sourceWidth + x) * channelCount;
    var sourceIndex2 := (y * sourceWidth + x + 1) * channelCount;
    var sourceIndex3 := ((y + 1) * sourceWidth + x + 1) * channelCount;
    var targetIndex := ((y / 2) * targetWidth + (x / 2)) * channelCount;
    BlockOffsets(x, y, i, j, sourceWidth, channelCount);
    var c := 0;
    while c < channelCount
      invariant c <= channelCount
      invariant Filled(mipMapData, spec, targetIndex + c)
    {
      BoxChannel(source[..], sourceWidth, sourceHeight, channelCount, i, j, c);
      // The bytes are promoted to `int` before they are summed.
      mipMapData[targetIndex + c] := (source[sourceIndex0 + c] as int
        + source[sourceIndex1 + c] as int
        + source[sourceIndex2 + c] as int
        + source[sourceIndex3 + c] as int) / 4;
      c := c + 1;
    }
    TexelOffsetStep(i, j, targetWidth, channelCount);
  }

  /** The Box arm (lines 137-158) filling a new `(w/2) x (h/2)` buffer: target
      texel `(x/2, y/2)` is the truncated mean of the 2x2 block at even `(x, y)`.
      The loops stop at `2 * (h/2)` and `2 * (w/2)`, as in `PointFilter`. The
      source buffer is only read. */
  method BoxFilter(source: array<Byte>, sourceWidth: nat, sourceHeight: nat, channelCount: nat)
    returns (mipMapData: array<Byte>)
    requires source.Length == sourceWidth * sourceHeight * channelCount
    ensures fresh(mipMapData)
    ensures mipMapData[..] == BoxMip(source[..], sourceWidth, sourceHeight, channelCount)
  {
    var targetWidth, targetHeight := sourceWidth / 2, sourceHeight / 2;
    ghost var spec := BoxMip(source[..], sourceWidth, sourceHeight, channelCount);
    mipMapData := new Byte[targetWidth * targetHeight * channelCount](_ => 0);
    var y := 0;
    ghost var j := 0;
    while y < 2 * targetHeight
      invariant y == 2 * j && j <= targetHeight
      invariant Filled(mipMapData, spec, TexelOffset(0, j, targetWidth, channelCount, 0))
    {
      var x := 0;
      ghost var i := 0;
      while x < 2 * targetWidth
        invariant x == 2 * i && i <= targetWidth
        invariant Filled(mipMapData, spec, TexelOffset(i, j, targetWidth, channelCount, 0))
      {
        AverageBoxTexel(source, sourceWidth, sourceHeight, channelCount, x, y, i, j, mipMapData, spec);
        x, i := x + 2, i + 1;
      }
      TexelOffsetStep(targetWidth, j, targetWidth, channelCount);
      y, j := y + 2, j + 1;
    }
    TexelOffsetEnd(targetWidth, targetHeight, channelCount);
  }

  /** The `(x, y)` pairs the loops visit as written (lines 120-122 and 138-140):
      every even `x` below `sourceWidth` and every even `y` below `sourceHeight`. */
  predicate AsWrittenVisits(x: nat, y: nat, sourceWidth: nat, sourceHeight: nat)
  {
    x % 2 == 0 && y % 2 == 0 && x < sourceWidth && y < sourceHeight
  }

  /** The pairs `PointFilter` and `BoxFilter` visit: the even `x` below
      `2 * (sourceWidth / 2)` and the even `y` below `2 * (sourceHeight / 2)`. */
  predicate CorrectedVisits(x: nat, y: nat, sourceWidth: nat, sourceHeight: nat)
  {
    x % 2 == 0 && y % 2 == 0 && x < 2 * (sourceWidth / 2) && y < 2 * (sourceHeight / 2)
  }

  /** `targetIndex` (lines 125 and 146) and `sourceIndex3`, the last of the four
      block offsets (line 145), at the visit `(x, y)`. */
  function TargetIndex(x: nat, y: nat, sourceWidth: nat, channelCount: nat): nat
  {
    ((y / 2) * (sourceWidth / 2) + (x / 2)) * channelCount
  }

  function LastBlockIndex(x: nat, y: nat, sourceWidth: nat, channelCount: nat): nat
  {
    ((y + 1) * sourceWidth + x + 1) * channelCount
  }

  /** As written, an odd width or height makes the loops visit a block whose
      first target byte lies at or past the end of the
      `(w/2) * (h/2) * channels`-byte target buffer, so both arms write out of
      bounds. */
  lemma AsWrittenWritesPastTarget(sourceWidth: nat, sourceHeight: nat, channelCount: nat)
    requires channelCount >= 1 && sourceWidth >= 1 && sourceHeight >= 1
    requires sourceWidth % 2 == 1 || sourceHeight % 2 == 1
    ensures exists x: nat, y: nat ::
              AsWrittenVisits(x, y, sourceWidth, sourceHeight)
              && TargetIndex(x, y, sourceWidth, channelCount) >= (sourceWidth / 2) * (sourceHeight / 2) * channelCount
  {
    var targetWidth, targetHeight := sourceWidth / 2, sourceHeight / 2;
    if sourceHeight % 2 == 1 {
      var y := sourceHeight - 1;
      assert y / 2 == targetHeight;
      assert TargetIndex(0, y, sourceWidth, channelCount) == (targetHeight * targetWidth) * channelCount;
      assert AsWrittenVisits(0, y, sourceWidth, sourceHeight);
    } else {
      var x, y := sourceWidth - 1, sourceHeight - 2;
      assert x / 2 == targetWidth && y / 2 == targetHeight - 1;
      assert (targetHeight - 1) * targetWidth + targetWidth == targetHeight * targetWidth;
      assert TargetIndex(x, y, sourceWidth, channelCount) == (targetHeight * targetWidth) * channelCount;
      assert AsWrittenVisits(x, y, sourceWidth, sourceHeight);
    }
  }

  /** As written, an odd width or height makes the Box arm read its fourth block
      texel at or past the end of the `w * h * channels`-byte source buffer. */
  lemma AsWrittenBoxReadsPastSource(sourceWidth: nat, sourceHeight: nat, channelCount: nat)
    requires channelCount >= 1 && sourceWidth >= 1 && sourceHeight >= 1
    requires sourceWidth % 2 == 1 || sourceHeight % 2 == 1
    ensures exists x: nat, y: nat ::
              AsWrittenVisits(x, y, sourceWidth, sourceHeight)
              && LastBlockIndex(x, y, sourceWidth, channelCount) >= sourceWidth * sourceHeight * channelCount
  {
    if sourceHeight % 2 == 1 {
      var y := sourceHeight - 1;
      assert LastBlockIndex(0, y, sourceWidth, channelCount) == (sourceHeight * sourceWidth + 1) * channelCount;
      MulMono(sourceHeight * sourceWidth, sourceHeight * sourceWidth + 1, channelCount);
      assert AsWrittenVisits(0, y, sourceWidth, sourceHeight);
    } else {
      var x, y := sourceWidth - 1, sourceHeight - 2;
      assert (y + 1) * sourceWidth + x + 1 == sourceHeight * sourceWidth;
      assert AsWrittenVisits(x, y, sourceWidth, sourceHeight);
    }
  }

  /** The corrected bounds keep every write inside the target buffer and every
      read inside the source buffer. */
  lemma CorrectedVisitsInBounds(x: nat, y: nat, sourceWidth: nat, sourceHeight: nat, channelCount: nat)
    requires CorrectedVisits(x, y, sourceWidth, sourceHeight)
    ensures TargetIndex(x, y, sourceWidth, channelCount) + channelCount
      <= (sourceWidth / 2) * (sourceHeight / 2) * channelCount
    ensures LastBlockIndex(x, y, sourceWidth, channelCount) <= sourceWidth * sourceHeight * channelCount
  {
    var i, j := x / 2, y / 2;
    BlockOffsets(x, y, i, j, sourceWidth, channelCount);
    TexelOffsetStep(i, j, sourceWidth / 2, channelCount);
    TexelOffsetAtMost(i + 1, j, sourceWidth / 2, sourceHeight / 2, channelCount);
    TexelOffsetStep(2 * i + 1, 2 * j + 1, sourceWidth, channelCount);
    TexelOffsetAtMost(2 * i + 2, 2 * j + 1, sourceWidth, sourceHeight, channelCount);
  }

  /** For even dimensions the corrected loops visit exactly the pairs the loops
      as written visit. */
  lemma {:induction false} CorrectedVisitsAgreeOnEvenDimensions(x: nat, y: nat, sourceWidth: nat, sourceHeight: nat)
    requires sourceWidth % 2 == 0 && sourceHeight % 2 == 0
    ensures CorrectedVisits(x, y, sourceWidth, sourceHeight) <==> AsWrittenVisits(x, y, sourceWidth, sourceHeight)
  {
  }
}
