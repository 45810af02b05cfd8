/**
 * Worked examples of the sample conversion in module `Pcm`, each a concrete
 * block or bit pattern and the value the conversion gives it.
 */
module PcmExamples {
  import opened Pcm

  /** The bytes `00 00 40` hold 2^22, half of the 24-bit full scale. */
  lemma Int24HalfScale()
    ensures Int24(0x00, 0x00, 0x40) == 0x40_0000
  {
    Int24SignExtends(0x00, 0x00, 0x40);
  }

  lemma Pow2Values()
    ensures Pow2(0) == 1 && Pow2(23) == 0x80_0000 && Pow2(24) == 0x100_0000
  {
    assert Pow2(1) == 2;
    assert Pow2(2) == 4;
    assert Pow2(3) == 8;
    assert Pow2(4) == 16;
    assert Pow2(5) == 32;
    assert Pow2(6) == 64;
    assert Pow2(7) == 128;
    assert Pow2(8) == 256;
    assert Pow2(9) == 512;
    assert Pow2(10) == 1024;
    assert Pow2(11) == 2048;
    assert Pow2(12) == 4096;
    assert Pow2(13) == 8192;
    assert Pow2(14) == 16384;
    assert Pow2(15) == 32768;
    assert Pow2(16) == 65536;
    assert Pow2(17) == 131072;
    assert Pow2(18) == 262144;
    assert Pow2(19) == 524288;
    assert Pow2(20) == 1048576;
    assert Pow2(21) == 2097152;
    assert Pow2(22) == 4194304;
    assert Pow2(23) == 8388608;
    assert Pow2(24) == 16777216;
  }

  /** The patterns 3F800000, BF000000 and 4B000001 are 1.0, -0.5 and 2^23 + 1. */
  lemma Binary32Examples()
    ensures Binary32(0x3F80_0000) == 1.0
    ensures Binary32(0xBF00_0000) == -0.5
    ensures Binary32(0x4B00_0001) == 0x80_0001 as real
  {
    Pow2Values();
  }

  /**
   * The 24-bit sample `00 00 40` (2^22, half scale) reads as 0.5; by
   * `MonoFrame` a one-channel frame holding it is written as 16383, which is
   * stored as the bytes `FF 3F`.
   */
  lemma HalfScaleExample()
    ensures ReadSampleAsFloat([0x00, 0x00, 0x40], 0, WaveFormat(Pcm, 24, 1, 3)) == 0.5
    ensures Quantize(Clamp(0.5)) == 16383
    ensures LowByte(16383) == 0xFF && HighByte(16383) == 0x3F
  {
    HalfScaleSample();
    QuantizeHalf();
    HalfScaleBytes();
  }

  /** 16383 is 3FFF: low byte FF, high byte 3F. */
  lemma HalfScaleBytes()
    ensures LowByte(16383) == 0xFF && HighByte(16383) == 0x3F
  {
  }

  /** Half scale is cast to 16383, the integer part of 16383.5. */
  lemma QuantizeHalf()
    ensures Quantize(Clamp(0.5)) == 16383
  {
    assert Clamp(0.5) == 0.5;
    assert 0.5 * 32767.0 == 16383.5;
    assert Truncate(16383.5) == 16383;
  }

  /** The 24-bit sample `00 00 40` reads as 0.5. */
  lemma HalfScaleSample()
    ensures ReadSampleAsFloat([0x00, 0x00, 0x40], 0, WaveFormat(Pcm, 24, 1, 3)) == 0.5
  {
    Int24HalfScale();
  }

}
