/** Compile-time configuration of the audio front end (audio_processing.h)
    and the size relationships the rest of the pipeline relies on. */
module AudioConfig {

  const SAMPLE_RATE: int := 16000
  const FFT_SIZE: int := 512
  const NUM_MELS: int := 40
  const NUM_FRAMES: int := 49
  const HOP_LENGTH: int := 160
  const BUFFER_SIZE: int := NUM_FRAMES * HOP_LENGTH + FFT_SIZE
  const MIN_FREQ: int := 20
  const MAX_FREQ: int := 8000

  /** Size of the flat feature tensor, declared separately in main.cpp. */
  const SPECTROGRAM_SIZE: int := 1960

  /** A signed 16-bit PCM sample. */
  type int16 = x: int | -0x8000 <= x < 0x8000

  /** 2^p */
  function Pow2(p: nat): (r: nat)
    ensures r >= 1
  {
    if p == 0 then 1 else 2 * Pow2(p - 1)
  }

  /** floor(log2(n)) for n >= 1; for a power of two this is the exact
      exponent that `log2(size)` yields in the FFT's stage loop. */
  function Log2(n: nat): (r: nat)
    requires n >= 1
    ensures Pow2(r) <= n < 2 * Pow2(r)
  {
    if n == 1 then 0 else 1 + Log2(n / 2)
  }

  predicate IsPowerOfTwo(n: nat) {
    n >= 1 && Pow2(Log2(n)) == n
  }

  lemma {:induction false} Pow2Split(s: nat, p: nat)
    requires s <= p
    ensures Pow2(p) == Pow2(s) * Pow2(p - s)
  {
    if s < p {
      Pow2Split(s, p - 1);
      assert Pow2(p) == 2 * Pow2(p - 1);
      assert Pow2(p - s) == 2 * Pow2(p - 1 - s);
    }
  }

  lemma {:induction false} Log2OfPow2(p: nat)
    ensures Log2(Pow2(p)) == p
  {
    if p > 0 {
      Log2OfPow2(p - 1);
      assert Pow2(p) / 2 == Pow2(p - 1);
    }
  }

  /** The frame length is the hop grid plus one extra FFT window. */
  lemma BufferSizeValue()
    ensures BUFFER_SIZE == NUM_FRAMES * HOP_LENGTH + FFT_SIZE == 8352
  {
  }

  /** The last analysis segment ends inside the frame, so the zero-padding
      branch of the segment copy can never be taken. */
  lemma LastSegmentInBounds()
    ensures (NUM_FRAMES - 1) * HOP_LENGTH + FFT_SIZE <= BUFFER_SIZE
  {
  }

  /** FFT_SIZE is 2^9: a power of two, as the transform needs, and greater
      than one, so the Hann divisor FFT_SIZE - 1 is not zero. */
  lemma {:induction false} FftSizeIsPowerOfTwo()
    ensures FFT_SIZE == Pow2(9) && IsPowerOfTwo(FFT_SIZE) && Log2(FFT_SIZE) == 9
    ensures FFT_SIZE > 1 && FFT_SIZE % 2 == 0
  {
    assert Pow2(9) == 512 by {
      assert Pow2(4) == 16;
      assert Pow2(8) == 256;
    }
    Log2OfPow2(9);
  }

  /** The feature grid has exactly as many cells as the model input tensor. */
  lemma GridMatchesTensor()
    ensures NUM_MELS * NUM_FRAMES == SPECTROGRAM_SIZE == 1960
  {
  }

  /** The analysed band is non-empty and its top is the Nyquist frequency. */
  lemma BandBelowNyquist()
    ensures 0 < MIN_FREQ < MAX_FREQ && MAX_FREQ == SAMPLE_RATE / 2
  {
  }

  /** The non-zero-sample threshold of the validator. */
  lemma NonZeroThreshold()
    ensures BUFFER_SIZE / 10 == 835
  {
  }
}
