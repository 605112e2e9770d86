# ESP32 sound classifier: a verified model of the audio front end and the classification loop

The firmware listens to a 16 kHz mono I2S microphone and sorts each frame of
8352 PCM samples into one of three classes: glass breaking, a door opening, a
floor creaking. One pass of `loop()` does four things:

1. It validates the frame. The frame is rejected unless more than a tenth of
   its samples are non-zero and its extremes differ.
2. It scales the samples to [-1, 1) and turns them into a 40 x 49 mel
   spectrogram. For each of 49 overlapping 512-sample segments it applies a
   Hann window, an in-place radix-2 FFT, the magnitudes of the first 256 bins
   and 40 triangular mel filters. The grid is then normalised by its global
   maximum.
3. It copies the grid into the TensorFlow Lite input tensor and runs the
   interpreter.
4. It picks the arg-max of the three scores and grades its confidence.

The model is written in Dafny, one module per stage:

| module | file | models |
|---|---|---|
| `AudioConfig` | config.dfy | the compile-time constants and the arithmetic facts behind them |
| `Numerics` | numerics.dfy | the math library: `roundf` exactly; cos, sin, sqrt, log10 and 10^x as the `Kernels` record |
| `Window` | window.dfy | `applyHannWindow` |
| `Fft` | fft.dfy | `computeFFT`, specified stage by stage and butterfly by butterfly |
| `Mel` | mel.dfy | `hzToMel`, `melToHz`, `computeMelFilterbank` |
| `Normalization` | normalization.dfy | `normalizeSpectrogram` |
| `Spectrogram` | spectrogram.dfy | `audioToMelSpectrogram` |
| `AudioFrame` | frame.dfy | the validator and the sample scaling in `loop()` |
| `Classifier` | classifier.dfy | the arg-max and the confidence tiers |
| `Cycle` | cycle.dfy | one pass of `loop()` over the device's buffers (class `Device`) |

The imperative C++ becomes methods over arrays, and each method is proved
against a specification function:

- `ComputeFFT` against `Magnitudes`;
- `AudioToMelSpectrogram` against `MelSpectrogram`;
- `NormalizeSpectrogram` against `Normalized`;
- `Device.Loop` against `CycleOutcome`.

Lemmas then prove the properties of those functions.

Floats are modelled as exact reals. The transcendental functions are the
fields of a `Kernels` value. Properties that need them to behave like the
exact functions say so in their preconditions:

- `LogSigns`: the signs of log10 and 10^x;
- `LogMonotone`: both are monotone;
- `LogInverse`: 10^x undoes log10.

What the code does, as opposed to how it is often described:

- **No bit-reversal in the FFT.** `computeFFT` runs the textbook
  decimation-in-time butterflies on the samples in natural order, without the
  bit-reversal permutation. The model reproduces this. `Fft.NoBitReversal`
  shows that with exact roots the result is not the discrete Fourier
  transform: for the input [1, 1, 0, 0], bin 1 has power 0, where the DFT
  gives 1 - i (power 2). The classifier was presumably trained on features
  from this same code, so this is recorded as a property of the front end,
  not as a defect.
- **The extremes check is redundant.** Both extremes start at 0, so
  `max_sample != min_sample` holds whenever any sample is non-zero, and that
  already follows from `non_zero_count > BUFFER_SIZE / 10`.
  `AudioFrame.DataVariesIffEnoughNonZero` proves this.
- **Mel weights never divide by zero.** In each branch of the weight formula
  the divisor is positive for every bin the loop visits, whatever the order
  of the edges.
- **Upper half of the FFT buffer.** `computeFFT` leaves the windowed samples
  in the upper half of its buffer, and the mel filters never read them.
- **Errors end the pass.** Every failure (read error, rejected frame, wrong
  input type, failed `Invoke`) simply ends the pass, and the next call to
  `loop()` starts over. `Cycle.Outcome` names these endings. There is no
  retry and no shape check beyond the tensor type.

## Model

| member | source | states |
|---|---|---|
| AudioConfig.Log2 | src/audio_processing.cpp:23 | the number of stages is floor(log2(size)): 2^r <= n < 2^(r+1) |
| AudioConfig.BufferSizeValue | src/audio_processing.h:10-12 | the frame length is NUM_FRAMES * HOP_LENGTH + FFT_SIZE = 8352 samples |
| AudioConfig.LastSegmentInBounds | src/audio_processing.cpp:127-131 | the last analysis segment ends inside the frame, so no segment needs zero padding |
| AudioConfig.FftSizeIsPowerOfTwo | src/audio_processing.h:8 | FFT_SIZE = 2^9: a power of two with 9 stages, even and greater than 1 |
| AudioConfig.GridMatchesTensor | src/main.cpp:14 | NUM_MELS * NUM_FRAMES equals the tensor size SPECTROGRAM_SIZE = 1960 |
| AudioConfig.BandBelowNyquist | src/audio_processing.h:7-14 | 0 < MIN_FREQ < MAX_FREQ, and MAX_FREQ is the Nyquist frequency SAMPLE_RATE / 2 |
| AudioConfig.NonZeroThreshold | src/main.cpp:256 | the non-zero threshold BUFFER_SIZE / 10 is 835 samples |
| Numerics.RoundF | src/audio_processing.cpp:86 | roundf lands within 1/2 of its argument and keeps non-negative values non-negative |
| Numerics.RoundFMonotone | src/audio_processing.cpp:86 | roundf never reverses the order of two arguments |
| Window.HannCoeff | src/audio_processing.cpp:7 | reference definition of the Hann weight 0.5 * (1 - cos(2*pi*i/(size - 1))) of sample i; characterised by `Window.HannEndpoints` and `Window.HannCoeffInUnitRange` |
| Window.Windowed | src/audio_processing.cpp:5-9 | reference definition of the windowed segment: as long as the segment, sample i multiplied by its Hann weight; `Window.ApplyHannWindow` is proved to produce it |
| Window.ApplyHannWindow | src/audio_processing.cpp:5-9 | the first `size` samples become the windowed segment; the rest of the buffer is unchanged |
| Window.HannEndpoints | src/audio_processing.cpp:7 | with exact cosines the window is 0 at both ends and 1 at the centre of an odd-length window |
| Window.HannCoeffInUnitRange | src/audio_processing.cpp:7 | each window weight lies in [0, 1] |
| Fft.Root | src/audio_processing.cpp:24-26 | reference definition of a stage's root (cos(2*pi/m), -sin(2*pi/m)) for blocks of m points; `Fft.NoBitReversal` evaluates it for m = 2 and 4 |
| Fft.Twiddle | src/audio_processing.cpp:29-44 | reference definition of the twiddle of butterfly j: 1 for j = 0, then each step multiplies by the root; `Fft.Butterfly` requires its w to be the twiddle of its index, and `Fft.ButterflyBlock` keeps w so from one butterfly to the next |
| Fft.BlockAt | src/audio_processing.cpp:33-39 | reference definition of one point of a block after its butterflies: x[j] + w_j*x[j+h] in the lower half, x[j] - w_j*x[j+h] in the upper half; characterised by `Fft.PartialStep` and `Fft.UpdatePair` |
| Fft.Block | src/audio_processing.cpp:29-45 | reference definition of a block of m points after its m/2 butterflies, as long as the block; `Fft.ButterflyBlock` is proved to produce it |
| Fft.StageOut | src/audio_processing.cpp:24-46 | reference definition of one stage: the signal cut into consecutive blocks of m points, each replaced by its butterfly image, same length; characterised by `Fft.StageOutAppend` and `Fft.StageStep`, produced by `Fft.ApplyStage` |
| Fft.Stages | src/audio_processing.cpp:23-47 | reference definition of the first s stages, with blocks of 2, 4, ..., 2^s points, same length; `Fft.RunStages` is proved to produce all log2(size) of them |
| Fft.Spectrum | src/audio_processing.cpp:13-47 | reference definition of the complex signal after every stage, starting from the real input with zero imaginary parts and without bit reversal; `Fft.NoBitReversal` shows it differs from the DFT |
| Fft.Magnitudes | src/audio_processing.cpp:50-52 | reference definition of the size/2 magnitudes sqrt(re^2 + im^2) of the spectrum's lower bins; `Fft.ComputeFFT` is proved to produce them and `Fft.MagnitudesNonNegative` bounds them |
| Fft.MagnitudesNonNegative | src/audio_processing.cpp:50-52 | with a square root that is non-negative on non-negative arguments every magnitude is non-negative |
| Fft.ComputeFFT | src/audio_processing.cpp:12-53 | the first size/2 buffer entries become the bin magnitudes of the staged transform of the input; the upper half keeps its values |
| Fft.RunStages | src/audio_processing.cpp:23-47 | after the stage loop the arrays hold stages 1 .. log2(size) applied in order |
| Fft.ApplyStage | src/audio_processing.cpp:24-46 | one stage applies the butterfly block to every block of m consecutive entries |
| Fft.ButterflyBlock | src/audio_processing.cpp:29-45 | the block of m entries at `start` becomes its butterfly image; nothing outside it changes |
| Fft.Butterfly | src/audio_processing.cpp:32-44 | butterfly j completes pair j of the block with twiddle wm^j, keeping everything else |
| Fft.UpdatePair | src/audio_processing.cpp:33-39 | t = w * x[c]; x[c] becomes x[a] - t and x[a] becomes x[a] + t, nothing else changes |
| Fft.BlockProgressStep | src/audio_processing.cpp:32-45 | one more butterfly advances the block from j to j + 1 completed pairs |
| Fft.PartialStep | src/audio_processing.cpp:32-45 | pair j of the butterfly image is written at positions j and j + m/2 |
| Fft.PartialEnds | src/audio_processing.cpp:32-45 | with no pairs done the block is the input, and with m/2 pairs done it is the butterfly image |
| Fft.StageStep | src/audio_processing.cpp:28-46 | transforming block k extends the stage output by that block and leaves later blocks untouched |
| Fft.StageOutAppend | src/audio_processing.cpp:28-46 | a stage on a signal with one more block is the old stage output followed by that block's butterfly image |
| Fft.WriteMagnitudes | src/audio_processing.cpp:50-52 | slot i < size/2 receives sqrt(re^2 + im^2) of bin i; higher slots are untouched |
| Fft.ButterflyInBounds | src/audio_processing.cpp:23-46 | every butterfly index k + j and k + j + m/2 lies inside the buffer |
| Fft.NoBitReversal | src/audio_processing.cpp:12-53 | with exact roots, bin 1 for input [1, 1, 0, 0] is 0 where the DFT has 1 - i: without bit-reversal this is not the DFT |
| Mel.HzToMel | src/audio_processing.cpp:56-58 | hzToMel = 2595 * log10(1 + hz/700); non-negative frequencies get non-negative mel values |
| Mel.MelToHz | src/audio_processing.cpp:61-63 | melToHz = 700 * (10^(mel/2595) - 1); non-negative mel values give non-negative frequencies |
| Mel.MelRoundTrip | src/audio_processing.cpp:56-63 | melToHz undoes hzToMel on every frequency above -700 Hz |
| Mel.HzToMelMonotone | src/audio_processing.cpp:56-58 | hzToMel preserves the order of frequencies |
| Mel.MelPoints | src/audio_processing.cpp:67-75 | reference definition of the NUM_MELS + 2 mel edges mel_min + i * mel_step; characterised by `Mel.MelPointsSpacing` and `Mel.MelPointsAscend`, produced by `Mel.ComputeMelPoints` |
| Mel.FreqPoints | src/audio_processing.cpp:78-81 | reference definition of the NUM_MELS + 2 edges converted back to Hz; produced by `Mel.ComputeFreqPoints`; with exact logarithms its ends round to bins 1 and FFT_SIZE / 2 (`Mel.FftIndicesEnds`) |
| Mel.BinOf | src/audio_processing.cpp:86 | the FFT bin of a frequency lies within half a bin of hz * FFT_SIZE / SAMPLE_RATE and is non-negative for non-negative frequencies |
| Mel.FftIndices | src/audio_processing.cpp:84-87 | reference definition of the NUM_MELS + 2 edges as FFT bins; characterised by `Mel.FftIndicesAscend`, `Mel.FftIndicesNonNegative`, `Mel.FftIndicesEnds` and `Mel.FftIndicesWithinHalf`, produced by `Mel.ComputeFftIndices` |
| Mel.MelPointsSpacing | src/audio_processing.cpp:67-75 | the mel edges run from mel(MIN_FREQ) to mel(MAX_FREQ) in NUM_MELS + 1 equal steps |
| Mel.MelPointsAscend | src/audio_processing.cpp:67-75 | the mel step is non-negative and the mel edges ascend |
| Mel.FftIndicesAscend | src/audio_processing.cpp:78-87 | the FFT-bin edges never decrease, so each filter's edges come in order |
| Mel.FftIndicesNonNegative | src/audio_processing.cpp:78-87 | every FFT-bin edge is a non-negative index |
| Mel.FftIndicesEnds | src/audio_processing.cpp:67-87 | with exact logarithms the first edge is bin 1 and the last is bin FFT_SIZE / 2 |
| Mel.FftIndicesWithinHalf | src/audio_processing.cpp:84-93 | with exact logarithms no edge exceeds FFT_SIZE / 2, so the guard j < FFT_SIZE/2 never skips a bin |
| Mel.WeightDenominatorsPositive | src/audio_processing.cpp:95-99 | for every visited bin l <= j < r the divisor of its branch (c - l or r - c) is positive |
| Mel.Weight | src/audio_processing.cpp:94-99 | the triangular weight of bin j (rising (j - l)/(c - l) before c, falling (r - j)/(r - c) from c on) lies in [0, 1] |
| Mel.WeightShape | src/audio_processing.cpp:94-99 | the weight is 1 at the centre bin whenever the filter falls after it, and 0 at the left edge whenever the filter rises |
| Mel.PartialEnergy | src/audio_processing.cpp:91-101 | reference definition of the running energy of a filter after the bins l .. n-1, bins from FFT_SIZE / 2 on adding nothing; characterised by `Mel.PartialEnergyGrows` and `Mel.PartialEnergyReadsLowerHalf` |
| Mel.FilterEnergy | src/audio_processing.cpp:91-102 | reference definition of the energy of the filter with edges l, c, r, 0 when r <= l; characterised by `Mel.FilterEnergyNonNegative` and `Mel.FilterEnergyPositiveAtCentre`, produced by `Mel.AccumulateFilter` |
| Mel.MelEnergies | src/audio_processing.cpp:90-103 | reference definition of the NUM_MELS filter energies over consecutive edge triples; characterised by `Mel.MelEnergiesNonNegative` and `Mel.MelEnergiesReadLowerHalf`, produced by `Mel.ComputeMelFilterbank` |
| Mel.PartialEnergyGrows | src/audio_processing.cpp:92-101 | with non-negative magnitudes the running energy is non-negative and never decreases |
| Mel.FilterEnergyNonNegative | src/audio_processing.cpp:91-102 | with non-negative magnitudes a filter's energy is non-negative |
| Mel.FilterEnergyPositiveAtCentre | src/audio_processing.cpp:91-102 | a filter whose centre bin carries energy has positive energy |
| Mel.PartialEnergyReadsLowerHalf | src/audio_processing.cpp:92-101 | the running energy depends only on magnitudes below FFT_SIZE / 2 |
| Mel.MelEnergiesReadLowerHalf | src/audio_processing.cpp:90-103 | all mel energies depend only on the first FFT_SIZE / 2 buffer entries |
| Mel.MelEnergiesNonNegative | src/audio_processing.cpp:90-103 | with non-negative magnitudes every mel energy is non-negative |
| Mel.ComputeMelFilterbank | src/audio_processing.cpp:66-104 | the edge indices are valid, and each band receives the weighted sum of its bins' magnitudes |
| Mel.ComputeMelPoints | src/audio_processing.cpp:67-75 | the mel-edge table equals the evenly spaced mel edges |
| Mel.ComputeFreqPoints | src/audio_processing.cpp:78-81 | the frequency table holds each mel edge converted back to Hz |
| Mel.ComputeFftIndices | src/audio_processing.cpp:84-87 | the index table holds each frequency edge rounded to its FFT bin |
| Mel.AccumulateFilter | src/audio_processing.cpp:91-102 | band i receives its filter energy over bins l .. r-1 below FFT_SIZE / 2; other bands are unchanged |
| Normalization.Peak | src/audio_processing.cpp:108-113 | the scan's result is max(0, largest element): no element exceeds it and it is 0 or attained |
| Normalization.Normalized | src/audio_processing.cpp:107-120 | reference definition of the normalised values: unchanged when the peak is 0, each divided by the peak otherwise, same length; characterised by `Normalization.NormalizedPeakIsOne`, `Normalization.NormalizedInUnitRange` and `Normalization.NormalizedIdempotent` |
| Normalization.NormalizeSpectrogram | src/audio_processing.cpp:107-120 | the first `size` values become their normalisation; the rest are unchanged |
| Normalization.FindPeak | src/audio_processing.cpp:108-113 | the first loop returns the peak of the first `size` values |
| Normalization.DivideBy | src/audio_processing.cpp:115-119 | the second loop divides each of the first `size` values by the positive peak |
| Normalization.NormalizedWithoutPositive | src/audio_processing.cpp:115 | with no positive value the array is left as it was |
| Normalization.NormalizedPeakIsOne | src/audio_processing.cpp:107-120 | with a positive value, every result is at most 1, one is exactly 1 and the new peak is 1 |
| Normalization.NormalizedInUnitRange | src/audio_processing.cpp:107-120 | non-negative inputs are normalised into [0, 1] |
| Normalization.NormalizedIdempotent | src/audio_processing.cpp:107-120 | normalising a second time changes nothing |
| Spectrogram.Segment | src/audio_processing.cpp:129-132 | the FFT_SIZE samples of a frame from frame * HOP_LENGTH on, 0 past the end of the audio |
| Spectrogram.SegmentIsSlice | src/audio_processing.cpp:129-132 | the segment of each visited frame is the slice at frame * HOP_LENGTH and lies inside the audio |
| Spectrogram.SegmentsOverlap | src/audio_processing.cpp:129-131 | consecutive segments share FFT_SIZE - HOP_LENGTH samples |
| Spectrogram.FrameEnergiesFromMagnitudes | src/audio_processing.cpp:133-139 | a frame's energies depend only on its spectrum magnitudes, not on what lies above them |
| Spectrogram.FrameEnergies | src/audio_processing.cpp:128-139 | reference definition of a frame's NUM_MELS energies: its segment windowed, transformed and filtered; `Spectrogram.ProcessFrame` is proved to produce them |
| Spectrogram.CellIndex | src/audio_processing.cpp:143 | the cell of band mel in frame frame lies inside the grid; `Spectrogram.CellIndexBijective` shows the cells are distinct |
| Spectrogram.Grid | src/audio_processing.cpp:127-145 | reference definition of the SPECTROGRAM_SIZE grid before normalisation; `Spectrogram.GridCell` places each frame's energies in their cells |
| Spectrogram.MelSpectrogram | src/audio_processing.cpp:123-149 | reference definition of the finished spectrogram: the grid normalised, SPECTROGRAM_SIZE cells; characterised by `Spectrogram.MelSpectrogramInUnitRange` and `Spectrogram.MelSpectrogramReachesOne`, produced by `Spectrogram.AudioToMelSpectrogram` |
| Spectrogram.CellIndexBijective | src/audio_processing.cpp:142-144 | (band, frame) maps one-to-one onto the cells of the grid |
| Spectrogram.GridCell | src/audio_processing.cpp:142-144 | the cell of band `mel` in frame `frame` holds that frame's energy for that band |
| Spectrogram.MelSpectrogramInUnitRange | src/audio_processing.cpp:123-149 | with a square root that is non-negative on non-negative arguments every cell of the finished spectrogram is in [0, 1] |
| Spectrogram.MelSpectrogramReachesOne | src/audio_processing.cpp:107-120 | when some cell of the finished spectrogram is positive, some cell is exactly 1 |
| Spectrogram.LoadSegment | src/audio_processing.cpp:129-132 | the FFT buffer receives the frame's segment |
| Spectrogram.StoreFrame | src/audio_processing.cpp:142-144 | each band's energy lands in its cell of this frame's column; no other column changes |
| Spectrogram.ProcessFrame | src/audio_processing.cpp:128-139 | load, window, transform and filter produce the frame's mel energies |
| Spectrogram.AudioToMelSpectrogram | src/audio_processing.cpp:123-149 | the output is the normalised grid of all frames' mel energies |
| AudioFrame.MaxFrom0 | src/main.cpp:232-238 | max_sample is non-negative, bounds every sample, and is 0 or attained |
| AudioFrame.MinFrom0 | src/main.cpp:233-239 | min_sample is non-positive, is at most every sample, and is 0 or attained |
| AudioFrame.CountNonZero | src/main.cpp:235-241 | non_zero_count after the scan: the number of non-zero samples, at most the frame length |
| AudioFrame.CountNonZeroBounds | src/main.cpp:235-241 | the count is 0 exactly when every sample is 0, and full exactly when none is |
| AudioFrame.ExtremesDiffer | src/main.cpp:232-239 | the extremes differ exactly when some sample is non-zero |
| AudioFrame.DataVaries | src/main.cpp:256 | data_varies: the extremes differ and more than BUFFER_SIZE / 10 samples are non-zero; a varying frame has a non-zero sample |
| AudioFrame.DataVariesIffEnoughNonZero | src/main.cpp:256 | data_varies holds exactly when more than BUFFER_SIZE / 10 samples are non-zero |
| AudioFrame.SilentFrameRejected | src/main.cpp:256-259 | an all-zero frame does not vary |
| AudioFrame.ConstantFrameAccepted | src/main.cpp:256 | a full frame of one non-zero value passes both halves of the check |
| AudioFrame.ValidateFrame | src/main.cpp:232-256 | the validator loop yields the extremes, the non-zero count and data_varies of the frame |
| AudioFrame.Scale | src/main.cpp:270 | a scaled sample is in [-1, 1) with the sign of the sample |
| AudioFrame.ScaleRecoversSample | src/main.cpp:270 | scaling by 1/32768 loses nothing and keeps the order of samples |
| AudioFrame.ScaledSamples | src/main.cpp:269-271 | reference definition of the scaled frame, one value per sample; `AudioFrame.ScaleSamples` is proved to produce it |
| AudioFrame.ScaleSamples | src/main.cpp:269-271 | audioBuffer receives every sample scaled, each in [-1, 1) |
| Classifier.Scan | src/main.cpp:317-326 | the winner bounds every score, is the first to attain it, or is class 0 with -1000 when nothing beats the sentinel |
| Classifier.ArgMax | src/main.cpp:316-326 | the loop returns the scan's winner of the three output scores, an index below 3 |
| Classifier.ScanTieGoesToLowestIndex | src/main.cpp:322 | a later score equal to the maximum never displaces an earlier one |
| Classifier.ScanAllLow | src/main.cpp:317-326 | when no score exceeds -1000 the result is class 0 with score -1000 |
| Classifier.ScanFindsMaximum | src/main.cpp:317-326 | when some score exceeds -1000 the winner is an actual score that no score exceeds |
| Classifier.WinnerHasName | src/main.cpp:336 | every possible winner indexes class_names |
| Classifier.TierOf | src/main.cpp:342-348 | very low below 0.3, low in [0.3, 0.6), high from 0.6 on, each as an if-and-only-if |
| Classifier.TierMonotone | src/main.cpp:342-348 | a higher score never gets a lower tier |
| Cycle.CycleOutcome | src/main.cpp:226-357 | the ending of a pass, checks in the code's order: a read with data is rejected exactly when the frame does not vary; a classification names a class and carries its score's tier |
| Cycle.ClassifiedIff | src/main.cpp:226-313 | a pass classifies exactly when the read delivered data, the frame varies, the input tensor is float32 and Invoke succeeded |
| Cycle.ClassificationIsBest | src/main.cpp:316-348 | a classification names a class, carries the largest score and that score's tier |
| Cycle.RejectionIgnoresInterpreter | src/main.cpp:259-266 | a rejected frame is rejected whatever the interpreter would do |
| Cycle.SilenceRejected | src/main.cpp:256-266 | a successful read of silence is rejected |
| Cycle.Device.constructor | src/main.cpp:17-19 | the device starts with distinct buffers of the configured sizes |
| Cycle.Device.Loop | src/main.cpp:226-357 | the pass ends as `CycleOutcome`; each buffer changes only at the stages reached: after a read sampleBuffer holds the delivered samples; once the frame varies audioBuffer holds it scaled and the spectrogram is its mel spectrogram; the input tensor is untouched unless it is float32, and then a copy of the spectrogram; the output tensor changes only on a classification and then holds the interpreter's scores |
| Cycle.Device.ReadInto | src/main.cpp:228 | sampleBuffer receives the delivered samples |
| Cycle.Device.CopyToInput | src/main.cpp:300 | the input tensor becomes a copy of the spectrogram |
| Cycle.Device.Invoke | src/main.cpp:309 | the output tensor receives the scores the model computes from the input tensor |

## Left out

- The I2S driver is left out. A read enters as a `Cycle.Reading` value: status, byte count and buffer contents.
- Partial reads (`bytes_read` smaller than the buffer) are not distinguished. The model takes the buffer as it stands after the read.
- The TensorFlow Lite interpreter is left out. It enters as a `Cycle.Interpreter` value: whether the input tensor type is float32, whether Invoke succeeds, and the scores as a function of the input. The network itself is not modelled.
- `setup()` is left out: serial port, PSRAM check, I2S configuration, model loading, tensor allocation and the microphone self-test (src/main.cpp:61-224).
- Everything printed is left out, along with `delay`. This covers the serial diagnostics and their helper values: the int32 `sum` and `average` (src/main.cpp:234, 240, 244), the spectrogram statistics (src/main.cpp:277-295) and the score listing (src/main.cpp:329-339). None of them feeds a decision. The `sum` cannot overflow: at most 8352 * 32768 = 273,678,336 in magnitude, below 2^31.
- IEEE single precision is modelled as exact real arithmetic, so rounding, NaN and infinities are not captured.
- cosf, sinf, sqrtf, log10f and powf are the fields of `Numerics.Kernels`. Properties needing their mathematical behaviour take it as a precondition (`LogSigns`, `LogMonotone`, `LogInverse`, exact cosine values, non-negative square roots).
- Window.ApplyHannWindow: requires size != 1, because the source divides by size - 1 and a one-sample window would compute 0/0.
- Mel.ComputeMelFilterbank: requires `LogSigns` and `LogMonotone` of the math kernels. The source has no precondition, but with a log10 or powf of the wrong sign an edge index could be negative and the filter loop would read before the magnitudes.
- Mel.MelRoundTrip: holds only under `LogInverse`, i.e. an exact 10^x after log10. With floats the round trip is approximate.
- Fft.ComputeFFT: the magnitudes use `Kernels.sqrt`, and the twiddle factors use the kernel cosine and sine of 2*pi/m. That the result approximates a transform is not stated; `Fft.NoBitReversal` shows what it is not.
- The local `real`/`imag` arrays of `computeFFT` and the stack arrays of `computeMelFilterbank` are modelled as freshly allocated arrays.
