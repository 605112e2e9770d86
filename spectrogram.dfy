/** Assembly of the mel spectrogram from the audio frame
    (audioToMelSpectrogram): NUM_FRAMES overlapping segments, each windowed,
    transformed and filtered, written into a mel-major grid, then
    normalised as a whole. */
module Spectrogram {
  import opened AudioConfig
  import opened Numerics
  import opened Window
  import opened Fft
  import opened Mel
  import opened Normalization

  /** The FFT_SIZE samples of frame f, starting at f * HOP_LENGTH;
      positions at or past BUFFER_SIZE read as 0. */
  function Segment(audio: seq<real>, f: nat): (seg: seq<real>)
    requires |audio| == BUFFER_SIZE
    ensures |seg| == FFT_SIZE
  {
    seq(FFT_SIZE, i requires 0 <= i < FFT_SIZE =>
      if f * HOP_LENGTH + i < BUFFER_SIZE then audio[f * HOP_LENGTH + i] else 0.0)
  }

  /** For every frame the loop visits, the segment is a plain slice of the
      audio: the zero padding is never used. */
  lemma SegmentIsSlice(audio: seq<real>, f: nat)
    requires |audio| == BUFFER_SIZE && f < NUM_FRAMES
    ensures f * HOP_LENGTH + FFT_SIZE <= BUFFER_SIZE
    ensures Segment(audio, f) == audio[f * HOP_LENGTH .. f * HOP_LENGTH + FFT_SIZE]
  {
    LastSegmentInBounds();
    assert f * HOP_LENGTH <= (NUM_FRAMES - 1) * HOP_LENGTH;
  }

  /** Consecutive segments overlap by FFT_SIZE - HOP_LENGTH samples. */
  lemma SegmentsOverlap(audio: seq<real>, f: nat)
    requires |audio| == BUFFER_SIZE
    ensures Segment(audio, f + 1)[..FFT_SIZE - HOP_LENGTH] == Segment(audio, f)[HOP_LENGTH..]
  {
    var a, b := Segment(audio, f + 1)[..FFT_SIZE - HOP_LENGTH], Segment(audio, f)[HOP_LENGTH..];
    forall i | 0 <= i < FFT_SIZE - HOP_LENGTH
      ensures a[i] == b[i]
    {
      assert (f + 1) * HOP_LENGTH + i == f * HOP_LENGTH + (HOP_LENGTH + i);
    }
  }

  /** The content of fft_buffer after the transform: the magnitudes in the
      lower half, the windowed samples still in the upper half. */
  function FrameBuffer(k: Kernels, audio: seq<real>, f: nat): (b: seq<real>)
    requires |audio| == BUFFER_SIZE
    ensures |b| == FFT_SIZE
  {
    FftSizeIsPowerOfTwo();
    var w := Windowed(k, Segment(audio, f));
    Magnitudes(k, w) + w[FFT_SIZE / 2..]
  }

  /** The NUM_MELS energies of frame f. */
  function FrameEnergies(k: Kernels, audio: seq<real>, f: nat): (e: seq<real>)
    requires |audio| == BUFFER_SIZE && LogSigns(k) && LogMonotone(k)
    ensures |e| == NUM_MELS
  {
    FftIndicesNonNegative(k);
    MelEnergies(FrameBuffer(k, audio, f), FftIndices(k))
  }

  /** A frame's energies depend only on the spectrum magnitudes, not on the
      samples the transform leaves in the upper half of its buffer. */
  lemma FrameEnergiesFromMagnitudes(k: Kernels, audio: seq<real>, f: nat, upper: seq<real>)
    requires |audio| == BUFFER_SIZE && LogSigns(k) && LogMonotone(k)
    requires |upper| == FFT_SIZE / 2
    ensures IsPowerOfTwo(FFT_SIZE) && ValidIndices(FftIndices(k))
    ensures FrameEnergies(k, audio, f)
         == MelEnergies(Magnitudes(k, Windowed(k, Segment(audio, f))) + upper, FftIndices(k))
  {
    FftSizeIsPowerOfTwo();
    FftIndicesNonNegative(k);
    var mags := Magnitudes(k, Windowed(k, Segment(audio, f)));
    var a, b := FrameBuffer(k, audio, f), mags + upper;
    assert a[..FFT_SIZE / 2] == mags == b[..FFT_SIZE / 2];
    MelEnergiesReadLowerHalf(a, b, FftIndices(k));
  }

  /** Where the energy of band `mel` in frame `frame` is stored. */
  function CellIndex(mel: int, frame: int): (p: int)
    ensures 0 <= mel < NUM_MELS && 0 <= frame < NUM_FRAMES ==> 0 <= p < SPECTROGRAM_SIZE
  {
    mel * NUM_FRAMES + frame
  }

  /** Every (band, frame) pair has its own cell inside the grid, and every
      cell of the grid belongs to exactly one pair. */
  lemma CellIndexBijective(mel: int, frame: int, p: int)
    ensures 0 <= mel < NUM_MELS && 0 <= frame < NUM_FRAMES ==>
      0 <= CellIndex(mel, frame) < NUM_MELS * NUM_FRAMES
    ensures 0 <= frame < NUM_FRAMES ==>
      (CellIndex(mel, frame) == p <==> mel == p / NUM_FRAMES && frame == p % NUM_FRAMES)
  {
    if 0 <= frame < NUM_FRAMES && CellIndex(mel, frame) == p {
      DivModOfCell(mel, frame);
    }
  }

  lemma DivModOfCell(mel: int, frame: int)
    requires 0 <= frame < NUM_FRAMES
    ensures CellIndex(mel, frame) / NUM_FRAMES == mel && CellIndex(mel, frame) % NUM_FRAMES == frame
  {
  }

  /** The grid before normalisation: band-major, NUM_FRAMES cells per band. */
  function Grid(k: Kernels, audio: seq<real>): (g: seq<real>)
    requires |audio| == BUFFER_SIZE && LogSigns(k) && LogMonotone(k)
    ensures |g| == NUM_MELS * NUM_FRAMES
  {
    seq(NUM_MELS * NUM_FRAMES, p requires 0 <= p < NUM_MELS * NUM_FRAMES =>
      FrameEnergies(k, audio, p % NUM_FRAMES)[p / NUM_FRAMES])
  }

  /** The cell of band `mel` in frame `frame` holds that frame's energy. */
  lemma GridCell(k: Kernels, audio: seq<real>, mel: int, frame: int)
    requires |audio| == BUFFER_SIZE && LogSigns(k) && LogMonotone(k)
    requires 0 <= mel < NUM_MELS && 0 <= frame < NUM_FRAMES
    ensures 0 <= CellIndex(mel, frame) < |Grid(k, audio)|
    ensures Grid(k, audio)[CellIndex(mel, frame)] == FrameEnergies(k, audio, frame)[mel]
  {
    DivModOfCell(mel, frame);
    CellIndexBijective(mel, frame, 0);
  }

  /** The finished spectrogram. */
  function MelSpectrogram(k: Kernels, audio: seq<real>): (s: seq<real>)
    requires |audio| == BUFFER_SIZE && LogSigns(k) && LogMonotone(k)
    ensures |s| == SPECTROGRAM_SIZE
  {
    Normalized(Grid(k, audio))
  }

  /** With non-negative magnitudes every cell of the spectrogram is in
      [0, 1]. */
  lemma MelSpectrogramInUnitRange(k: Kernels, audio: seq<real>)
    requires |audio| == BUFFER_SIZE && LogSigns(k) && LogMonotone(k)
    requires forall x :: 0.0 <= x ==> 0.0 <= k.sqrt(x)
    ensures forall p :: 0 <= p < SPECTROGRAM_SIZE ==> 0.0 <= MelSpectrogram(k, audio)[p] <= 1.0
  {
    var g := Grid(k, audio);
    forall p | 0 <= p < |g|
      ensures 0.0 <= g[p]
    {
      var f := p % NUM_FRAMES;
      FftSizeIsPowerOfTwo();
      FftIndicesNonNegative(k);
      var b := FrameBuffer(k, audio, f);
      assert NonNegativeHalf(b) by {
        var w := Windowed(k, Segment(audio, f));
        assert b[..FFT_SIZE / 2] == Magnitudes(k, w);
        MagnitudesNonNegative(k, w);
        assert forall j :: 0 <= j < FFT_SIZE / 2 ==> b[j] == b[..FFT_SIZE / 2][j];
      }
      MelEnergiesNonNegative(b, FftIndices(k));
    }
    NormalizedInUnitRange(g);
  }

  /** When some cell of the finished spectrogram is positive, some cell is
      exactly 1: the grid had a positive peak and was divided by it. */
  lemma MelSpectrogramReachesOne(k: Kernels, audio: seq<real>)
    requires |audio| == BUFFER_SIZE && LogSigns(k) && LogMonotone(k)
    requires exists p :: 0 <= p < SPECTROGRAM_SIZE && 0.0 < MelSpectrogram(k, audio)[p]
    ensures exists p :: 0 <= p < SPECTROGRAM_SIZE && MelSpectrogram(k, audio)[p] == 1.0
  {
    var g := Grid(k, audio);
    var p :| 0 <= p < SPECTROGRAM_SIZE && 0.0 < MelSpectrogram(k, audio)[p];
    assert g[p] <= Peak(g);
    assert 0.0 < Peak(g);
    PeakBecomesOne(g);
  }

  /** The segment copy at the start of each frame. */
  method LoadSegment(audio: array<real>, fftBuffer: array<real>, frame: nat)
    requires audio.Length == BUFFER_SIZE && fftBuffer.Length == FFT_SIZE && audio != fftBuffer
    modifies fftBuffer
    ensures fftBuffer[..] == Segment(audio[..], frame)
  {
    for i := 0 to FFT_SIZE
      invariant forall j :: 0 <= j < i ==> fftBuffer[j] == Segment(audio[..], frame)[j]
    {
      var idx := frame * HOP_LENGTH + i;
      fftBuffer[i] := if idx < BUFFER_SIZE then audio[idx] else 0.0;
    }
  }

  /** The copy of one frame's energies into its column of the grid. */
  method StoreFrame(melEnergies: array<real>, spectrogram: array<real>, frame: nat)
    requires melEnergies.Length == NUM_MELS && spectrogram.Length == SPECTROGRAM_SIZE
    requires frame < NUM_FRAMES && melEnergies != spectrogram
    modifies spectrogram
    ensures forall mel :: 0 <= mel < NUM_MELS ==> spectrogram[CellIndex(mel, frame)] == melEnergies[mel]
    ensures forall p :: 0 <= p < SPECTROGRAM_SIZE && p % NUM_FRAMES != frame ==> spectrogram[p] == old(spectrogram[p])
  {
    for mel := 0 to NUM_MELS
      invariant forall m :: 0 <= m < mel ==> spectrogram[CellIndex(m, frame)] == melEnergies[m]
      invariant forall p :: 0 <= p < SPECTROGRAM_SIZE && p % NUM_FRAMES != frame ==> spectrogram[p] == old(spectrogram[p])
    {
      DivModOfCell(mel, frame);
      forall m | 0 <= m < mel
        ensures CellIndex(m, frame) != CellIndex(mel, frame)
      {
        DivModOfCell(m, frame);
      }
      spectrogram[CellIndex(mel, frame)] := melEnergies[mel];
    }
  }

  /** The body of the frame loop up to the filterbank: the segment is
      loaded, windowed and transformed in fft_buffer, then filtered into
      mel_energies. */
  method ProcessFrame(k: Kernels, audio: array<real>, fftBuffer: array<real>, melEnergies: array<real>, frame: nat)
    requires audio.Length == BUFFER_SIZE && fftBuffer.Length == FFT_SIZE && melEnergies.Length == NUM_MELS
    requires audio != fftBuffer && audio != melEnergies && fftBuffer != melEnergies
    requires LogSigns(k) && LogMonotone(k)
    modifies fftBuffer, melEnergies
    ensures melEnergies[..] == FrameEnergies(k, audio[..], frame)
  {
    FftSizeIsPowerOfTwo();
    LoadSegment(audio, fftBuffer, frame);
    assert fftBuffer[..FFT_SIZE] == fftBuffer[..] == Segment(audio[..], frame);
    ApplyHannWindow(k, fftBuffer, FFT_SIZE);
    ghost var w := fftBuffer[..];
    assert w == fftBuffer[..FFT_SIZE] == Windowed(k, Segment(audio[..], frame));
    ComputeFFT(k, fftBuffer, FFT_SIZE);
    assert fftBuffer[..FFT_SIZE / 2] == Magnitudes(k, w);
    assert fftBuffer[FFT_SIZE / 2..] == w[FFT_SIZE / 2..];
    assert fftBuffer[..] == fftBuffer[..FFT_SIZE / 2] + fftBuffer[FFT_SIZE / 2..];
    assert fftBuffer[..] == FrameBuffer(k, audio[..], frame);
    ComputeMelFilterbank(k, fftBuffer, melEnergies);
  }

  /** audioToMelSpectrogram: for each frame, load, window, transform and
      filter a segment and store its energies; then normalise the grid. */
  method AudioToMelSpectrogram(k: Kernels, audio: array<real>, spectrogram: array<real>)
    requires audio.Length == BUFFER_SIZE && spectrogram.Length == SPECTROGRAM_SIZE
    requires audio != spectrogram
    requires LogSigns(k) && LogMonotone(k)
    modifies spectrogram
    ensures spectrogram[..] == MelSpectrogram(k, audio[..])
  {
    FftSizeIsPowerOfTwo();
    GridMatchesTensor();
    var fftBuffer := new real[FFT_SIZE];
    var melEnergies := new real[NUM_MELS];
    ghost var a := audio[..];

    for frame := 0 to NUM_FRAMES
      modifies spectrogram, fftBuffer, melEnergies
      invariant forall mel, f :: 0 <= mel < NUM_MELS && 0 <= f < frame ==>
        spectrogram[CellIndex(mel, f)] == FrameEnergies(k, a, f)[mel]
    {
      ProcessFrame(k, audio, fftBuffer, melEnergies, frame);
      StoreFrame(melEnergies, spectrogram, frame);
      forall mel, f | 0 <= mel < NUM_MELS && 0 <= f <= frame
        ensures spectrogram[CellIndex(mel, f)] == FrameEnergies(k, a, f)[mel]
      {
        DivModOfCell(mel, f);
        if f == frame {
          assert spectrogram[CellIndex(mel, f)] == melEnergies[mel];
        }
      }
    }
    forall p | 0 <= p < SPECTROGRAM_SIZE
      ensures spectrogram[p] == Grid(k, a)[p]
    {
      var mel, f := p / NUM_FRAMES, p % NUM_FRAMES;
      assert p == CellIndex(mel, f);
      GridCell(k, a, mel, f);
    }
    ghost var grid := spectrogram[..];
    assert grid == spectrogram[..SPECTROGRAM_SIZE] == Grid(k, a);
    NormalizeSpectrogram(spectrogram, SPECTROGRAM_SIZE);
    assert spectrogram[..] == spectrogram[..SPECTROGRAM_SIZE] == Normalized(grid);
    assert audio[..] == a;
  }
}
