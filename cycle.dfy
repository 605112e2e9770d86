/** One pass of loop(): read a frame, validate it, turn it into a mel
    spectrogram, hand it to the interpreter and rank the scores. The I2S
    read and the TensorFlow Lite interpreter are outside the model; they
    enter as the values they deliver. */
module Cycle {
  import opened AudioConfig
  import opened Numerics
  import opened AudioFrame
  import opened Mel
  import opened Spectrogram
  import opened Classifier

  /** What i2s_read reports and delivers: its status, the byte count and
      the samples a successful read delivers. */
  datatype Reading = Reading(ok: bool, bytesRead: nat, samples: seq<int16>)

  /** Three class scores, as the model's output tensor holds them. */
  type Scores = s: seq<real> | |s| == NUM_CLASSES witness [0.0, 0.0, 0.0]

  /** The interpreter as seen from loop(): whether its input tensor is
      float32, whether Invoke succeeds, and the scores it computes from its
      input. */
  datatype Interpreter = Interpreter(inputIsFloat32: bool, invokeOk: bool, infer: seq<real> -> Scores)

  /** The ways a pass can end. */
  datatype Outcome =
    | ReadError
    | Rejected
    | UnexpectedInputType
    | InferenceFailed
    | Classified(index: nat, score: real, tier: Tier)

  /** The outcome of a pass, checks taken in the order of the code. A read
      that delivered data is rejected exactly when the frame does not vary;
      a classification always names a class and carries its score's tier. */
  function CycleOutcome(k: Kernels, r: Reading, interp: Interpreter): (o: Outcome)
    requires |r.samples| == BUFFER_SIZE && LogSigns(k) && LogMonotone(k)
    ensures o == Rejected <==> r.ok && r.bytesRead > 0 && !DataVaries(r.samples)
    ensures o.Classified? ==> o.index < NUM_CLASSES && o.tier == TierOf(o.score)
  {
    if !(r.ok && r.bytesRead > 0) then ReadError
    else if !DataVaries(r.samples) then Rejected
    else if !interp.inputIsFloat32 then UnexpectedInputType
    else if !interp.invokeOk then InferenceFailed
    else
      var best := Scan(interp.infer(MelSpectrogram(k, ScaledSamples(r.samples))));
      Classified(best.index, best.score, TierOf(best.score))
  }

  /** A pass classifies exactly when the read succeeded with data, the
      frame varies, the input tensor is float32 and Invoke succeeded. */
  lemma ClassifiedIff(k: Kernels, r: Reading, interp: Interpreter)
    requires |r.samples| == BUFFER_SIZE && LogSigns(k) && LogMonotone(k)
    ensures CycleOutcome(k, r, interp).Classified? <==>
      r.ok && r.bytesRead > 0 && DataVaries(r.samples) && interp.inputIsFloat32 && interp.invokeOk
  {
  }

  /** A classification names one of the three classes, with the largest
      score the model gave and the tier of that score. */
  lemma ClassificationIsBest(k: Kernels, r: Reading, interp: Interpreter)
    requires |r.samples| == BUFFER_SIZE && LogSigns(k) && LogMonotone(k)
    requires CycleOutcome(k, r, interp).Classified?
    ensures var o := CycleOutcome(k, r, interp);
      var scores := interp.infer(MelSpectrogram(k, ScaledSamples(r.samples)));
      && o.index < NUM_CLASSES
      && (forall i :: 0 <= i < NUM_CLASSES ==> scores[i] <= o.score)
      && o.tier == TierOf(o.score)
  {
    var scores := interp.infer(MelSpectrogram(k, ScaledSamples(r.samples)));
    WinnerHasName(scores);
  }

  /** A rejected frame stops the pass before the interpreter is consulted:
      the outcome does not depend on it at all. */
  lemma RejectionIgnoresInterpreter(k: Kernels, r: Reading, a: Interpreter, b: Interpreter)
    requires |r.samples| == BUFFER_SIZE && LogSigns(k) && LogMonotone(k)
    requires CycleOutcome(k, r, a) == Rejected
    ensures CycleOutcome(k, r, b) == Rejected
  {
  }

  /** A successful read of silence is rejected. */
  lemma SilenceRejected(k: Kernels, r: Reading, interp: Interpreter)
    requires |r.samples| == BUFFER_SIZE && LogSigns(k) && LogMonotone(k)
    requires r.ok && r.bytesRead > 0
    requires forall i :: 0 <= i < |r.samples| ==> r.samples[i] == 0
    ensures CycleOutcome(k, r, interp) == Rejected
  {
    SilentFrameRejected(r.samples);
  }

  /** The device's buffers and its math library. */
  class Device {
    const kernels: Kernels
    const sampleBuffer: array<int16>
    const audioBuffer: array<real>
    const spectrogram: array<real>
    const inputTensor: array<real>
    const outputTensor: array<real>

    ghost predicate Valid()
      reads this
    {
      && LogSigns(kernels) && LogMonotone(kernels)
      && sampleBuffer.Length == BUFFER_SIZE
      && audioBuffer.Length == BUFFER_SIZE
      && spectrogram.Length == SPECTROGRAM_SIZE
      && inputTensor.Length == SPECTROGRAM_SIZE
      && outputTensor.Length == NUM_CLASSES
      && audioBuffer != spectrogram && audioBuffer != inputTensor && audioBuffer != outputTensor
      && spectrogram != inputTensor && spectrogram != outputTensor && inputTensor != outputTensor
    }

    constructor (k: Kernels)
      requires LogSigns(k) && LogMonotone(k)
      ensures Valid() && kernels == k
      ensures fresh(sampleBuffer) && fresh(audioBuffer) && fresh(spectrogram)
      ensures fresh(inputTensor) && fresh(outputTensor)
    {
      kernels := k;
      sampleBuffer := new int16[BUFFER_SIZE];
      audioBuffer := new real[BUFFER_SIZE];
      spectrogram := new real[SPECTROGRAM_SIZE];
      inputTensor := new real[SPECTROGRAM_SIZE];
      outputTensor := new real[NUM_CLASSES];
    }

    /** One pass of loop(). The read lands in sampleBuffer; the spectrogram
        is computed only for a frame that varies, the input tensor written
        only when it is float32, and the output tensor only by a
        successful Invoke. */
    method Loop(reading: Reading, interp: Interpreter) returns (outcome: Outcome)
      requires Valid() && |reading.samples| == BUFFER_SIZE
      modifies sampleBuffer, audioBuffer, spectrogram, inputTensor, outputTensor
      ensures outcome == CycleOutcome(kernels, reading, interp)
      ensures outcome == ReadError ==> unchanged(sampleBuffer)
      ensures outcome in {ReadError, Rejected} ==>
        unchanged(audioBuffer) && unchanged(spectrogram) && unchanged(inputTensor) && unchanged(outputTensor)
      ensures !outcome.Classified? ==> unchanged(outputTensor)
      ensures outcome !in {ReadError, Rejected} ==>
        spectrogram[..] == MelSpectrogram(kernels, ScaledSamples(reading.samples))
      ensures outcome != ReadError ==> sampleBuffer[..] == reading.samples
      ensures outcome !in {ReadError, Rejected} ==> audioBuffer[..] == ScaledSamples(reading.samples)
      ensures outcome == UnexpectedInputType ==> unchanged(inputTensor)
      ensures outcome == InferenceFailed || outcome.Classified? ==> inputTensor[..] == spectrogram[..]
      ensures outcome.Classified? ==> outputTensor[..] == interp.infer(inputTensor[..])
    {
      if !(reading.ok && reading.bytesRead > 0) {
        return ReadError;
      }
      ReadInto(reading.samples);

      var maxSample, minSample, nonZeroCount, dataVaries := ValidateFrame(sampleBuffer);
      if !dataVaries {
        return Rejected;
      }

      ScaleSamples(sampleBuffer, audioBuffer);
      AudioToMelSpectrogram(kernels, audioBuffer, spectrogram);

      if !interp.inputIsFloat32 {
        return UnexpectedInputType;
      }
      CopyToInput();

      if !interp.invokeOk {
        return InferenceFailed;
      }
      Invoke(interp);

      var maxScore, maxIndex := ArgMax(outputTensor);
      assert outputTensor[..NUM_CLASSES] == outputTensor[..];
      outcome := Classified(maxIndex, maxScore, TierOf(maxScore));
    }

    /** The samples delivered by the read, written into sampleBuffer. */
    method ReadInto(samples: seq<int16>)
      requires Valid() && |samples| == BUFFER_SIZE
      modifies sampleBuffer
      ensures sampleBuffer[..] == samples
    {
      for i := 0 to BUFFER_SIZE
        invariant forall j :: 0 <= j < i ==> sampleBuffer[j] == samples[j]
      {
        sampleBuffer[i] := samples[i];
      }
    }

    /** The memcpy of the spectrogram into the float32 input tensor. */
    method CopyToInput()
      requires Valid()
      modifies inputTensor
      ensures inputTensor[..] == spectrogram[..]
    {
      for i := 0 to SPECTROGRAM_SIZE
        invariant forall j :: 0 <= j < i ==> inputTensor[j] == spectrogram[j]
      {
        inputTensor[i] := spectrogram[i];
      }
    }

    /** A successful Invoke: the output tensor receives the scores the model
        computes from the input tensor. */
    method Invoke(interp: Interpreter)
      requires Valid()
      modifies outputTensor
      ensures outputTensor[..] == interp.infer(inputTensor[..])
    {
      var scores := interp.infer(inputTensor[..]);
      for i := 0 to NUM_CLASSES
        invariant forall j :: 0 <= j < i ==> outputTensor[j] == scores[j]
      {
        outputTensor[i] := scores[i];
      }
    }
  }
}
