/**
 * The sample conversion of the device bridge in
 * Services/AzureSpeechRealTimeTranslator.cs: each block of captured audio,
 * in the device's own format, is mixed down to one channel and written to
 * the recogniser's push stream as 16-bit little-endian PCM.
 *
 * Sample values are exact reals: the single-precision rounding of the
 * source's `float` arithmetic is not modelled.
 */
module Pcm {
  import opened Wrappers

  type byte = b: int | 0 <= b < 256

  /** The encodings the sample reader tells apart. */
  datatype Encoding = Pcm | IeeeFloat | Extensible | OtherEncoding

  /** The fields of the capture's `WaveFormat` the conversion reads. */
  datatype WaveFormat = WaveFormat(encoding: Encoding, bitsPerSample: int, channels: int, blockAlign: int)

  const ShortMaxValue: int := 32767

  // ---------------------------------------------------------------------
  // Integer layouts
  // ---------------------------------------------------------------------

  /** A 16-bit two's complement value stored low byte first (`BitConverter.ToInt16`). */
  function Int16(lo: byte, hi: byte): (v: int)
    ensures -0x8000 <= v < 0x8000
    ensures (v - lo as int) % 0x100 == 0 && (v - lo as int) / 0x100 % 0x100 == hi as int
  {
    var u := lo as int + 0x100 * (hi as int);
    if u >= 0x8000 then u - 0x1_0000 else u
  }

  /** A 32-bit two's complement value stored low byte first (`BitConverter.ToInt32`). */
  function Int32(b0: byte, b1: byte, b2: byte, b3: byte): (v: int)
    ensures -0x8000_0000 <= v < 0x8000_0000
    ensures ToInt32(UInt32(b0, b1, b2, b3)) == v
    ensures v % 0x100 == b0 as int && v / 0x100 % 0x100 == b1 as int
    ensures v / 0x1_0000 % 0x100 == b2 as int && v / 0x100_0000 % 0x100 == b3 as int
  {
    var u := UInt32(b0, b1, b2, b3);
    var v := if u >= 0x8000_0000 then u - 0x1_0000_0000 else u;
    var top := if u >= 0x8000_0000 then b3 as int - 0x100 else b3 as int;
    assert v == b0 as int + 0x100 * (b1 as int) + 0x1_0000 * (b2 as int) + 0x100_0000 * top;
    Int32Digits(b0, b1, b2, b3, top);
    DivMod(u, 0, 0x1_0000_0000);
    v
  }

  /** The base-256 digits of `b0 + 0x100 * b1 + 0x1_0000 * b2 + 0x100_0000 * top`, for a top digit `b3` or `b3 - 0x100`. */
  lemma Int32Digits(b0: byte, b1: byte, b2: byte, b3: byte, top: int)
    requires top == b3 as int || top == b3 as int - 0x100
    ensures var v := b0 as int + 0x100 * (b1 as int) + 0x1_0000 * (b2 as int) + 0x100_0000 * top;
      && v % 0x100 == b0 as int && v / 0x100 % 0x100 == b1 as int
      && v / 0x1_0000 % 0x100 == b2 as int && v / 0x100_0000 % 0x100 == b3 as int
  {
    var v := b0 as int + 0x100 * (b1 as int) + 0x1_0000 * (b2 as int) + 0x100_0000 * top;
    var r1 := b1 as int + 0x100 * (b2 as int) + 0x1_0000 * top;
    var r2 := b2 as int + 0x100 * top;
    DivMod(b0 as int, r1, 0x100);
    assert v / 0x100 == r1;
    DivMod(b1 as int, r2, 0x100);
    DivMod(b0 as int + 0x100 * (b1 as int), r2, 0x1_0000);
    assert v / 0x1_0000 == r2;
    DivMod(b2 as int, top, 0x100);
    DivMod(b0 as int + 0x100 * (b1 as int) + 0x1_0000 * (b2 as int), top, 0x100_0000);
    assert v / 0x100_0000 == top;
    DivMod(b3 as int, if top == b3 as int then 0 else -1, 0x100);
  }

  /** Euclidean division of `d + m * q` by `m` when `0 <= d < m`. */
  lemma DivMod(d: int, q: int, m: int)
    requires 0 <= d < m
    ensures (d + m * q) / m == q && (d + m * q) % m == d
  {
    var k, r := (d + m * q) / m, (d + m * q) % m;
    assert m * (k - q) == d - r;
    if k > q {
      MulAtLeast(m, k - q);
    } else if k < q {
      MulAtLeast(m, q - k);
    }
  }

  /** A positive multiple of a positive `m` is at least `m`. */
  lemma MulAtLeast(m: int, n: int)
    requires m > 0 && n >= 1
    ensures m * n >= m
  {
  }

  /** The `int` whose 32 bits are the low 32 bits of `u`. */
  function ToInt32(u: int): int {
    var w := u % 0x1_0000_0000;
    if w >= 0x8000_0000 then w - 0x1_0000_0000 else w
  }

  /**
   * The 24-bit reader as written: the three bytes are shifted into the top of
   * an `int` (`b2 << 24` wraps into the sign bit; the three shifted ranges
   * are disjoint, so the `|` is a sum) and shifted back with the arithmetic
   * `>> 8`, which rounds toward minus infinity like Dafny's `/` by a
   * positive divisor.
   */
  function Int24(b0: byte, b1: byte, b2: byte): int {
    ToInt32(0x100_0000 * (b2 as int) + 0x1_0000 * (b1 as int) + 0x100 * (b0 as int)) / 0x100
  }

  /** The shifts sign-extend the 24-bit two's complement value stored low byte first. */
  lemma {:induction false} Int24SignExtends(b0: byte, b1: byte, b2: byte)
    ensures var u := b0 as int + 0x100 * (b1 as int) + 0x1_0000 * (b2 as int);
      Int24(b0, b1, b2) == (if u >= 0x80_0000 then u - 0x100_0000 else u)
    ensures -0x80_0000 <= Int24(b0, b1, b2) < 0x80_0000
  {
    var u := b0 as int + 0x100 * (b1 as int) + 0x1_0000 * (b2 as int);
    var shifted := 0x100_0000 * (b2 as int) + 0x1_0000 * (b1 as int) + 0x100 * (b0 as int);
    assert shifted == 0x100 * u;
    assert 0 <= shifted < 0x1_0000_0000;
    assert shifted % 0x1_0000_0000 == shifted;
    if u >= 0x80_0000 {
      assert ToInt32(shifted) == 0x100 * (u - 0x100_0000);
    } else {
      assert ToInt32(shifted) == 0x100 * u;
    }
  }

  // ---------------------------------------------------------------------
  // IEEE 754 single precision
  // ---------------------------------------------------------------------

  /** 2 to the power `n`. */
  function Pow2(n: nat): (r: nat)
    ensures r > 0
  {
    if n == 0 then 1 else 2 * Pow2(n - 1)
  }

  /** The unsigned value of four bytes stored low byte first. */
  function UInt32(b0: byte, b1: byte, b2: byte, b3: byte): (u: nat)
    ensures u < 0x1_0000_0000
  {
    b0 as int + 0x100 * (b1 as int) + 0x1_0000 * (b2 as int) + 0x100_0000 * (b3 as int)
  }

  /**
   * The value of a binary32 bit pattern (`BitConverter.ToSingle`): sign,
   * 8-bit biased exponent, 23-bit fraction, with subnormals. A NaN or an
   * infinity is read as 0.
   */
  function Binary32(u: int): real
    requires 0 <= u < 0x1_0000_0000
  {
    var exponent := u / 0x80_0000 % 0x100;
    var fraction := u % 0x80_0000;
    // A subnormal has no implicit leading 1 and the smallest normal exponent.
    var significand := if exponent == 0 then fraction else 0x80_0000 + fraction;
    var scale := if exponent == 0 then 1 else exponent;
    var magnitude :=
      if exponent == 0xFF then 0.0
      else if scale >= 150 then (significand * Pow2(scale - 150)) as real
      else significand as real / Pow2(150 - scale) as real;
    if u >= 0x8000_0000 then -magnitude else magnitude
  }

  // ---------------------------------------------------------------------
  // One sample
  // ---------------------------------------------------------------------

  predicate IsIntegerPcm(format: WaveFormat) {
    format.encoding == Pcm || format.encoding == Extensible
  }

  /** How many bytes `ReadSampleAsFloat` reads for a format; 0 when it reads none. */
  function SampleWidth(format: WaveFormat): nat {
    if format.encoding == IeeeFloat && format.bitsPerSample == 32 then 4
    else if IsIntegerPcm(format) && format.bitsPerSample == 16 then 2
    else if IsIntegerPcm(format) && format.bitsPerSample == 24 then 3
    else if IsIntegerPcm(format) && format.bitsPerSample == 32 then 4
    else 0
  }

  /**
   * `ReadSampleAsFloat`: the sample at `offset` scaled to full scale 1: a
   * 32-bit float as stored, 16-, 24- and 32-bit integers divided by 2^15,
   * 2^23 and 2^31; every other format reads as silence.
   */
  function ReadSampleAsFloat(buffer: seq<byte>, offset: nat, format: WaveFormat): (sample: real)
    requires offset + SampleWidth(format) <= |buffer|
    ensures SampleWidth(format) == 0 ==> sample == 0.0
    ensures IsIntegerPcm(format) ==> -1.0 <= sample < 1.0
  {
    var bits := format.bitsPerSample;
    if format.encoding == IeeeFloat && bits == 32 then
      Binary32(UInt32(buffer[offset], buffer[offset + 1], buffer[offset + 2], buffer[offset + 3]))
    else if IsIntegerPcm(format) && bits == 16 then
      Int16(buffer[offset], buffer[offset + 1]) as real / 32768.0
    else if IsIntegerPcm(format) && bits == 24 then
      Int24SignExtends(buffer[offset], buffer[offset + 1], buffer[offset + 2]);
      Int24(buffer[offset], buffer[offset + 1], buffer[offset + 2]) as real / 8388608.0
    else if IsIntegerPcm(format) && bits == 32 then
      Int32(buffer[offset], buffer[offset + 1], buffer[offset + 2], buffer[offset + 3]) as real / 2147483648.0
    else 0.0
  }

  // ---------------------------------------------------------------------
  // One frame
  // ---------------------------------------------------------------------

  /** `Math.Max(1, BitsPerSample / 8)` (for a negative count both divisions give at most 0, so the maximum is 1 either way). */
  function BytesPerSample(format: WaveFormat): nat {
    if format.bitsPerSample / 8 > 1 then format.bitsPerSample / 8 else 1
  }

  function Channels(format: WaveFormat): nat {
    if format.channels > 1 then format.channels else 1
  }

  function BlockAlign(format: WaveFormat): nat {
    if format.blockAlign > 1 then format.blockAlign else 1
  }

  /** Where channel `ch` of frame `frame` starts. */
  function SampleOffset(format: WaveFormat, frame: nat, ch: nat): nat {
    frame * BlockAlign(format) + ch * BytesPerSample(format)
  }

  /** Every sample of frame `frame` lies inside the buffer. */
  predicate FrameInBuffer(buffer: seq<byte>, format: WaveFormat, frame: nat) {
    SampleOffset(format, frame, Channels(format) - 1) + SampleWidth(format) <= |buffer|
  }

  lemma {:induction false} SampleOffsetMonotone(format: WaveFormat, frame: nat, frame': nat, ch: nat, ch': nat)
    requires frame <= frame' && ch <= ch'
    ensures SampleOffset(format, frame, ch) <= SampleOffset(format, frame', ch')
  {
    var a, b := BlockAlign(format), BytesPerSample(format);
    assert frame * a <= frame' * a by { MulLeq(frame, frame', a); }
    assert ch * b <= ch' * b by { MulLeq(ch, ch', b); }
  }

  lemma {:induction false} MulLeq(x: nat, y: nat, k: nat)
    requires x <= y
    ensures x * k <= y * k
  {
    if x < y {
      MulLeq(x, y - 1, k);
    }
  }

  /** The sum of the first `n` channels of a frame. */
  function ChannelSum(buffer: seq<byte>, format: WaveFormat, frame: nat, n: nat): real
    requires n <= Channels(format) && FrameInBuffer(buffer, format, frame)
  {
    if n == 0 then 0.0
    else
      SampleOffsetMonotone(format, frame, frame, n - 1, Channels(format) - 1);
      ChannelSum(buffer, format, frame, n - 1) + ReadSampleAsFloat(buffer, SampleOffset(format, frame, n - 1), format)
  }

  /** `Math.Clamp(x, -1f, 1f)`. */
  function Clamp(x: real): (r: real)
    ensures -1.0 <= r <= 1.0
    ensures -1.0 <= x <= 1.0 ==> r == x
    ensures x < -1.0 ==> r == -1.0
    ensures x > 1.0 ==> r == 1.0
  {
    if x < -1.0 then -1.0 else if x > 1.0 then 1.0 else x
  }

  /** The `(short)` cast of a value in range: the integer part, rounded toward zero. */
  function Truncate(x: real): (r: int)
    ensures 0.0 <= x ==> r as real <= x < r as real + 1.0
    ensures x <= 0.0 ==> r as real - 1.0 < x <= r as real
  {
    if x >= 0.0 then x.Floor else -((-x).Floor)
  }

  /** `(short)(mono * short.MaxValue)` for a clamped mono value. */
  function Quantize(mono: real): (pcm: int)
    requires -1.0 <= mono <= 1.0
    ensures -ShortMaxValue <= pcm <= ShortMaxValue
    ensures mono >= 0.0 ==> 0 <= pcm && pcm as real <= mono * 32767.0 < pcm as real + 1.0
    ensures mono <= 0.0 ==> pcm <= 0 && pcm as real - 1.0 < mono * 32767.0 <= pcm as real
  {
    Truncate(mono * 32767.0)
  }

  /** The frame mixed down to one channel: mean of its channels, clamped to full scale. */
  function FrameMono(buffer: seq<byte>, format: WaveFormat, frame: nat): (mono: real)
    requires FrameInBuffer(buffer, format, frame)
    ensures -1.0 <= mono <= 1.0
  {
    Clamp(ChannelSum(buffer, format, frame, Channels(format)) / Channels(format) as real)
  }

  /** The 16-bit value written for a frame. */
  function FramePcm(buffer: seq<byte>, format: WaveFormat, frame: nat): int
    requires FrameInBuffer(buffer, format, frame)
  {
    Quantize(FrameMono(buffer, format, frame))
  }

  /** A one-channel frame is its sample, clamped to full scale and cast to `short`. */
  lemma {:induction false} MonoFrame(buffer: seq<byte>, format: WaveFormat, frame: nat)
    requires Channels(format) == 1 && FrameInBuffer(buffer, format, frame)
    ensures FrameMono(buffer, format, frame) == Clamp(ReadSampleAsFloat(buffer, SampleOffset(format, frame, 0), format))
    ensures FramePcm(buffer, format, frame) == Quantize(Clamp(ReadSampleAsFloat(buffer, SampleOffset(format, frame, 0), format)))
  {
    var sample := ReadSampleAsFloat(buffer, SampleOffset(format, frame, 0), format);
    assert ChannelSum(buffer, format, frame, 1) == sample;
    assert sample / 1.0 == sample;
  }

  /** `(byte)(pcm & 0xFF)`: the low byte of the two's complement value. */
  function LowByte(pcm: int): byte {
    pcm % 0x100
  }

  /** `(byte)((pcm >> 8) & 0xFF)`: the high byte of the two's complement value. */
  function HighByte(pcm: int): byte {
    pcm / 0x100 % 0x100
  }

  /** The two bytes written for a 16-bit value read back, low byte first, as that value. */
  lemma {:induction false} BytesRoundTrip(pcm: int)
    requires -0x8000 <= pcm < 0x8000
    ensures Int16(LowByte(pcm), HighByte(pcm)) == pcm
  {
    var lo, hi := LowByte(pcm) as int, HighByte(pcm) as int;
    assert pcm == 0x100 * (pcm / 0x100) + lo;
    if pcm >= 0 {
      assert hi == pcm / 0x100;
    } else {
      assert hi == pcm / 0x100 + 0x100;
      assert lo + 0x100 * hi == pcm + 0x1_0000;
    }
  }

  // ---------------------------------------------------------------------
  // One block
  // ---------------------------------------------------------------------

  /** `e.BytesRecorded / blockAlign` for a positive byte count. */
  function FrameCount(bytesRecorded: nat, format: WaveFormat): nat {
    bytesRecorded / BlockAlign(format)
  }

  /** A block holds no whole frame exactly when it is shorter than one. */
  lemma {:induction false} FrameCountZero(bytesRecorded: nat, format: WaveFormat)
    ensures FrameCount(bytesRecorded, format) == 0 <==> bytesRecorded < BlockAlign(format)
  {
    DivIsZero(bytesRecorded, BlockAlign(format));
  }

  lemma {:induction false} DivIsZero(n: nat, d: nat)
    requires d > 0
    ensures n / d == 0 <==> n < d
  {
    if n / d == 0 {
      assert n == d * (n / d) + n % d;
    }
  }

  /** The first `n` frames lie inside the buffer. */
  predicate FramesInBuffer(buffer: seq<byte>, format: WaveFormat, n: nat) {
    n > 0 ==> FrameInBuffer(buffer, format, n - 1)
  }

  lemma {:induction false} EarlierFrameInBuffer(buffer: seq<byte>, format: WaveFormat, n: nat, frame: nat)
    requires FramesInBuffer(buffer, format, n) && frame < n
    ensures FrameInBuffer(buffer, format, frame)
  {
    SampleOffsetMonotone(format, frame, n - 1, Channels(format) - 1, Channels(format) - 1);
  }

  /** The 16-bit little-endian bytes of the first `n` frames. */
  function PcmBytes(buffer: seq<byte>, format: WaveFormat, n: nat): (bytes: seq<byte>)
    requires FramesInBuffer(buffer, format, n)
    ensures |bytes| == 2 * n
  {
    if n == 0 then []
    else
      EarlierFrameInBuffer(buffer, format, n, n - 1);
      assert FramesInBuffer(buffer, format, n - 1) by {
        if n > 1 { EarlierFrameInBuffer(buffer, format, n, n - 2); }
      }
      var pcm := FramePcm(buffer, format, n - 1);
      PcmBytes(buffer, format, n - 1) + [LowByte(pcm), HighByte(pcm)]
  }

  /** The output for one more frame is the output so far and the frame's two bytes. */
  lemma {:induction false} PcmBytesStep(buffer: seq<byte>, format: WaveFormat, n: nat)
    requires FramesInBuffer(buffer, format, n + 1)
    ensures FrameInBuffer(buffer, format, n) && FramesInBuffer(buffer, format, n)
    ensures PcmBytes(buffer, format, n + 1)
      == PcmBytes(buffer, format, n) + [LowByte(FramePcm(buffer, format, n)), HighByte(FramePcm(buffer, format, n))]
  {
    if n > 0 {
      EarlierFrameInBuffer(buffer, format, n + 1, n - 1);
    }
  }

  /** Byte pair `frame` of the output is the frame's 16-bit value. */
  lemma {:induction false} PcmBytesFrame(buffer: seq<byte>, format: WaveFormat, n: nat, frame: nat)
    requires FramesInBuffer(buffer, format, n) && frame < n
    ensures FrameInBuffer(buffer, format, frame)
    ensures var bytes := PcmBytes(buffer, format, n);
      bytes[2 * frame] == LowByte(FramePcm(buffer, format, frame))
      && bytes[2 * frame + 1] == HighByte(FramePcm(buffer, format, frame))
  {
    EarlierFrameInBuffer(buffer, format, n, frame);
    if frame < n - 1 {
      EarlierFrameInBuffer(buffer, format, n, n - 2);
      PcmBytesFrame(buffer, format, n - 1, frame);
    }
  }

  /** Byte pair `frame` of the output reads back as the frame's 16-bit value. */
  lemma {:induction false} PcmBytesDecode(buffer: seq<byte>, format: WaveFormat, n: nat, frame: nat)
    requires FramesInBuffer(buffer, format, n) && frame < n
    ensures FrameInBuffer(buffer, format, frame)
    ensures var bytes := PcmBytes(buffer, format, n);
      Int16(bytes[2 * frame], bytes[2 * frame + 1]) == FramePcm(buffer, format, frame)
  {
    PcmBytesFrame(buffer, format, n, frame);
    BytesRoundTrip(FramePcm(buffer, format, frame));
  }

  /** The precondition the conversion of a block needs: the frames it reads lie inside the buffer. */
  predicate BlockInBuffer(buffer: seq<byte>, bytesRecorded: int, format: WaveFormat) {
    bytesRecorded > 0 ==> FramesInBuffer(buffer, format, FrameCount(bytesRecorded, format))
  }

  /**
   * What `OnDataAvailable` writes for a block: nothing for an empty block or
   * one shorter than a frame, else two bytes per frame.
   */
  function Converted(buffer: seq<byte>, bytesRecorded: int, format: WaveFormat): Option<seq<byte>>
    requires BlockInBuffer(buffer, bytesRecorded, format)
  {
    if bytesRecorded <= 0 then None
    else
      var frameCount := FrameCount(bytesRecorded, format);
      if frameCount == 0 then None
      else Some(PcmBytes(buffer, format, frameCount))
  }

  /**
   * A block is written exactly when it holds a whole frame; what is written
   * is one 16-bit little-endian value per frame, the frame's channels mixed
   * and scaled to at most 32767 in magnitude.
   */
  lemma {:induction false} ConvertedShape(buffer: seq<byte>, bytesRecorded: int, format: WaveFormat)
    requires BlockInBuffer(buffer, bytesRecorded, format)
    ensures Converted(buffer, bytesRecorded, format).None? <==> bytesRecorded < BlockAlign(format)
    ensures Converted(buffer, bytesRecorded, format).Some? ==>
      var bytes := Converted(buffer, bytesRecorded, format).value;
      var n := FrameCount(bytesRecorded, format);
      && |bytes| == 2 * n
      && forall frame :: 0 <= frame < n ==>
           var pcm := Int16(bytes[2 * frame], bytes[2 * frame + 1]);
           && -ShortMaxValue <= pcm <= ShortMaxValue
           && FrameInBuffer(buffer, format, frame)
           && pcm == FramePcm(buffer, format, frame)
  {
    if bytesRecorded > 0 {
      FrameCountZero(bytesRecorded, format);
    }
    if bytesRecorded > 0 && FrameCount(bytesRecorded, format) > 0 {
      var bytes := Converted(buffer, bytesRecorded, format).value;
      var n := FrameCount(bytesRecorded, format);
      assert bytes == PcmBytes(buffer, format, n);
      forall frame | 0 <= frame < n
        ensures FrameInBuffer(buffer, format, frame)
        ensures Int16(bytes[2 * frame], bytes[2 * frame + 1]) == FramePcm(buffer, format, frame)
      {
        PcmBytesDecode(buffer, format, n, frame);
      }
    }
  }

  /**
   * The device bridge: a capture in `sourceWaveFormat` whose blocks are
   * converted and appended to the recogniser's push stream.
   */
  class DeviceAudioBridge {
    const sourceWaveFormat: WaveFormat
    /** Everything written to the push stream so far. */
    var stream: seq<byte>

    constructor(format: WaveFormat)
      ensures sourceWaveFormat == format && stream == []
    {
      sourceWaveFormat := format;
      stream := [];
    }

    /** `OnDataAvailable`: converts one captured block and writes it to the stream. */
    method OnDataAvailable(buffer: seq<byte>, bytesRecorded: int)
      requires BlockInBuffer(buffer, bytesRecorded, sourceWaveFormat)
      modifies this
      ensures stream == old(stream) + match Converted(buffer, bytesRecorded, sourceWaveFormat)
        case None => []
        case Some(bytes) => bytes
    {
      if bytesRecorded <= 0 {
        return;
      }

      var bytesPerSample := BytesPerSample(sourceWaveFormat);
      var channels := Channels(sourceWaveFormat);
      var blockAlign := BlockAlign(sourceWaveFormat);
      var frameCount := bytesRecorded / blockAlign;
      if frameCount <= 0 {
        return;
      }

      var pcmBytes := new byte[frameCount * 2];
      var targetIndex := 0;

      for frame := 0 to frameCount
        invariant targetIndex == 2 * frame
        invariant FramesInBuffer(buffer, sourceWaveFormat, frame)
        invariant pcmBytes[..targetIndex] == PcmBytes(buffer, sourceWaveFormat, frame)
        invariant stream == old(stream)
      {
        assert FramesInBuffer(buffer, sourceWaveFormat, frame + 1) by {
          EarlierFrameInBuffer(buffer, sourceWaveFormat, frameCount, frame);
        }
        var pcm := MixFrame(buffer, frame);
        ghost var before := pcmBytes[..targetIndex];
        pcmBytes[targetIndex] := LowByte(pcm);
        targetIndex := targetIndex + 1;
        pcmBytes[targetIndex] := HighByte(pcm);
        targetIndex := targetIndex + 1;
        assert pcmBytes[..targetIndex] == PcmBytes(buffer, sourceWaveFormat, frame + 1) by {
          assert pcmBytes[..targetIndex] == before + [LowByte(pcm), HighByte(pcm)];
          PcmBytesStep(buffer, sourceWaveFormat, frame);
        }
      }

      assert pcmBytes[..] == pcmBytes[..targetIndex];
      stream := stream + pcmBytes[..];
    }

    /**
     * The inner loop and the scaling of `OnDataAvailable` for one frame: the
     * channels' samples summed, averaged, clamped and cast to `short`.
     */
    method MixFrame(buffer: seq<byte>, frame: nat) returns (pcm: int)
      requires FrameInBuffer(buffer, sourceWaveFormat, frame)
      ensures pcm == FramePcm(buffer, sourceWaveFormat, frame)
    {
      var bytesPerSample := BytesPerSample(sourceWaveFormat);
      var channels := Channels(sourceWaveFormat);
      var blockAlign := BlockAlign(sourceWaveFormat);
      var sum := 0.0;
      for ch := 0 to channels
        invariant sum == ChannelSum(buffer, sourceWaveFormat, frame, ch)
      {
        var sampleOffset := (frame * blockAlign) + (ch * bytesPerSample);
        SampleOffsetMonotone(sourceWaveFormat, frame, frame, ch, channels - 1);
        var sample := ReadSampleAsFloat(buffer, sampleOffset, sourceWaveFormat);
        sum := sum + sample;
      }

      var mono := sum / channels as real;
      mono := Clamp(mono);
      pcm := Quantize(mono);
    }
  }
}
