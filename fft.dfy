/** The iterative radix-2 transform of computeFFT: log2(size) stages of
    butterflies over blocks of m = 2^stage points, followed by the
    magnitudes of the first size/2 bins. As in the code there is no
    bit-reversal step. */
module Fft {
  import opened AudioConfig
  import opened Numerics

  datatype Complex = Complex(re: real, im: real)

  function Add(a: Complex, b: Complex): Complex {
    Complex(a.re + b.re, a.im + b.im)
  }

  function Sub(a: Complex, b: Complex): Complex {
    Complex(a.re - b.re, a.im - b.im)
  }

  function Mul(a: Complex, b: Complex): Complex {
    Complex(a.re * b.re - a.im * b.im, a.re * b.im + a.im * b.re)
  }

  /** The rotating factor w after j butterflies of a block: it starts at 1
      and is multiplied by the stage's root after each butterfly. */
  function Twiddle(wm: Complex, j: nat): Complex {
    if j == 0 then Complex(1.0, 0.0) else Mul(Twiddle(wm, j - 1), wm)
  }

  /** The root of a stage with blocks of m points: (cos(2*pi/m), -sin(2*pi/m)). */
  function Root(math: Kernels, m: nat): Complex
    requires m > 0
  {
    Complex(math.cosTurn(1.0 / m as real), -math.sinTurn(1.0 / m as real))
  }

  function Zip(re: seq<real>, im: seq<real>): (z: seq<Complex>)
    requires |re| == |im|
    ensures |z| == |re|
  {
    seq(|re|, i requires 0 <= i < |re| => Complex(re[i], im[i]))
  }

  /** Point p of a block of m = 2h points after its butterflies: point
      j < h pairs with point j + h, and the pair becomes
      (x + w_j*y, x - w_j*y). */
  function BlockAt(b: seq<Complex>, wm: Complex, p: nat): Complex
    requires |b| % 2 == 0 && p < |b|
  {
    var h := |b| / 2;
    if p < h then Add(b[p], Mul(Twiddle(wm, p), b[p + h]))
    else Sub(b[p - h], Mul(Twiddle(wm, p - h), b[p]))
  }

  /** A block after its butterflies. */
  function Block(b: seq<Complex>, wm: Complex): (r: seq<Complex>)
    requires |b| % 2 == 0
    ensures |r| == |b|
  {
    seq(|b|, p requires 0 <= p < |b| => BlockAt(b, wm, p))
  }

  /** One stage: the signal is cut into consecutive blocks of m points and
      each block goes through its butterflies. */
  function StageOut(x: seq<Complex>, m: nat, wm: Complex): (y: seq<Complex>)
    requires m >= 2 && m % 2 == 0 && |x| % m == 0
    ensures |y| == |x|
    decreases |x|
  {
    if |x| == 0 then []
    else
      NextBlock(0, m, |x|);
      SubMod(|x|, m);
      Block(x[..m], wm) + StageOut(x[m..], m, wm)
  }

  /** The first s stages, with blocks of 2, 4, ..., 2^s points. */
  function Stages(math: Kernels, x: seq<Complex>, s: nat): (y: seq<Complex>)
    requires IsPowerOfTwo(|x|) && s <= Log2(|x|)
    ensures |y| == |x|
  {
    if s == 0 then x
    else
      Pow2Divides(s, Log2(|x|));
      StageOut(Stages(math, x, s - 1), Pow2(s), Root(math, Pow2(s)))
  }

  /** The complex signal after all log2(size) stages, from real input. */
  function Spectrum(math: Kernels, samples: seq<real>): (y: seq<Complex>)
    requires IsPowerOfTwo(|samples|)
    ensures |y| == |samples|
  {
    var x := Zip(samples, seq(|samples|, _ => 0.0));
    Stages(math, x, Log2(|samples|))
  }

  function Power(z: Complex): real {
    z.re * z.re + z.im * z.im
  }

  /** What the transform leaves in the first size/2 slots of the buffer. */
  function Magnitudes(math: Kernels, samples: seq<real>): (r: seq<real>)
    requires IsPowerOfTwo(|samples|)
    ensures |r| == |samples| / 2
  {
    var y := Spectrum(math, samples);
    seq(|samples| / 2, i requires 0 <= i < |samples| / 2 => math.sqrt(Power(y[i])))
  }

  /** A power is never negative. */
  lemma PowerNonNegative(z: Complex)
    ensures 0.0 <= Power(z)
  {
  }

  /** With a square root that is non-negative on non-negative arguments,
      every magnitude is non-negative. */
  lemma MagnitudesNonNegative(math: Kernels, samples: seq<real>)
    requires IsPowerOfTwo(|samples|)
    requires forall x :: 0.0 <= x ==> 0.0 <= math.sqrt(x)
    ensures forall i :: 0 <= i < |samples| / 2 ==> 0.0 <= Magnitudes(math, samples)[i]
  {
    var y := Spectrum(math, samples);
    forall i | 0 <= i < |samples| / 2
      ensures 0.0 <= Magnitudes(math, samples)[i]
    {
      PowerNonNegative(y[i]);
    }
  }

  /** The butterflies of the block [start, start + m), in place. */
  method ButterflyBlock(re: array<real>, im: array<real>, start: nat, m: nat, wm: Complex)
    requires re != im && re.Length == im.Length
    requires m >= 2 && m % 2 == 0 && start + m <= re.Length
    modifies re, im
    ensures Zip(re[start..start + m], im[start..start + m])
         == Block(Zip(old(re[start..start + m]), old(im[start..start + m])), wm)
    ensures re[..start] == old(re[..start]) && re[start + m..] == old(re[start + m..])
    ensures im[..start] == old(im[..start]) && im[start + m..] == old(im[start + m..])
  {
    ghost var re0, im0 := re[..], im[..];
    BlockProgressStart(re0, im0, start, m, wm);
    var h := m / 2;
    var w := Complex(1.0, 0.0);
    for j := 0 to h
      invariant w == Twiddle(wm, j)
      invariant BlockProgress(re0, im0, re[..], im[..], start, m, wm, j)
    {
      Butterfly(re, im, start, m, j, w, wm, re0, im0);
      w := Mul(w, wm);
    }
    BlockProgressEnd(re0, im0, re[..], im[..], start, m, wm);
    assert re0[start..start + m] == old(re[start..start + m]);
    assert im0[start..start + m] == old(im[start..start + m]);
  }

  /** Butterfly j of the block at `start`, with twiddle w = wm^j: the pair
      (x, y) at (start + j, start + j + m/2) becomes (x + w*y, x - w*y),
      which moves the block's progress one pair further. */
  method Butterfly(re: array<real>, im: array<real>, start: nat, m: nat, j: nat, w: Complex,
                   ghost wm: Complex, ghost re0: seq<real>, ghost im0: seq<real>)
    requires re != im && j < m / 2 && w == Twiddle(wm, j)
    requires BlockProgress(re0, im0, re[..], im[..], start, m, wm, j)
    modifies re, im
    ensures BlockProgress(re0, im0, re[..], im[..], start, m, wm, j + 1)
  {
    ghost var reS, imS := re[..], im[..];
    var t := UpdatePair(re, im, start + j, start + j + m / 2, w, reS, imS);
    BlockProgressStep(re0, im0, reS, imS, start, m, wm, j, t);
  }

  /** The four stores of a butterfly on (a, c): t = w * x[c], then
      x[c] = x[a] - t and x[a] = x[a] + t. The arrays' contents before the
      call are passed as reS and imS. */
  method UpdatePair(re: array<real>, im: array<real>, a: nat, c: nat, w: Complex,
                    ghost reS: seq<real>, ghost imS: seq<real>) returns (t: Complex)
    requires re != im && re.Length == im.Length && a < c < re.Length
    requires re[..] == reS && im[..] == imS
    modifies re, im
    ensures t == Mul(w, Complex(reS[c], imS[c]))
    ensures re[..] == Pair(reS, a, c, t.re) && im[..] == Pair(imS, a, c, t.im)
  {
    t := Mul(w, Complex(re[c], im[c]));
    re[c] := re[a] - t.re;
    im[c] := im[a] - t.im;
    re[a] := re[a] + t.re;
    im[a] := im[a] + t.im;
  }

  /** One component of a butterfly on the pair (a, c): s[a] + t at a and
      s[a] - t at c. */
  function Pair(s: seq<real>, a: nat, c: nat, t: real): (r: seq<real>)
    requires a < c < |s|
    ensures |r| == |s|
  {
    s[c := s[a] - t][a := s[a] + t]
  }

  /** After j butterflies of the block at `start`, the block of (re, im)
      holds the first j pairs done and the rest of the block as it was in
      (re0, im0); nothing outside the block has moved. */
  ghost predicate BlockProgress(re0: seq<real>, im0: seq<real>, re: seq<real>, im: seq<real>,
                                start: nat, m: nat, wm: Complex, j: nat)
  {
    && |re0| == |im0| == |re| == |im| && start + m <= |re| && m % 2 == 0 && j <= m / 2
    && Zip(re[start..start + m], im[start..start + m])
       == Partial(Zip(re0[start..start + m], im0[start..start + m]), wm, j)
    && re[..start] == re0[..start] && re[start + m..] == re0[start + m..]
    && im[..start] == im0[..start] && im[start + m..] == im0[start + m..]
  }

  lemma BlockProgressStart(re0: seq<real>, im0: seq<real>, start: nat, m: nat, wm: Complex)
    requires |re0| == |im0| && start + m <= |re0| && m % 2 == 0
    ensures BlockProgress(re0, im0, re0, im0, start, m, wm, 0)
  {
    PartialEnds(Zip(re0[start..start + m], im0[start..start + m]), wm);
  }

  /** Butterfly j keeps the progress, one pair further on. */
  lemma BlockProgressStep(re0: seq<real>, im0: seq<real>, re: seq<real>, im: seq<real>,
                          start: nat, m: nat, wm: Complex, j: nat, t: Complex)
    requires BlockProgress(re0, im0, re, im, start, m, wm, j) && j < m / 2
    requires t == Mul(Twiddle(wm, j), Complex(re[start + j + m / 2], im[start + j + m / 2]))
    ensures BlockProgress(re0, im0, Pair(re, start + j, start + j + m / 2, t.re),
      Pair(im, start + j, start + j + m / 2, t.im), start, m, wm, j + 1)
  {
    var h := m / 2;
    var x := Zip(re0[start..start + m], im0[start..start + m]);
    var z := Zip(re[start..start + m], im[start..start + m]);
    var re1, im1 := Pair(re, start + j, start + j + h, t.re), Pair(im, start + j, start + j + h, t.im);
    ZipSliceAt(re, im, start, m, j + h);
    PairOfPartial(x, z, wm, j, h, t);
    ButterflyStep(re, im, re1, im1, start, m, j, t);
    PartialStep(x, wm, j, h);
  }

  /** With the first j pairs done, pair j still holds its input, so the
      butterfly on it with t = w_j * z[j + h] gives the block's points j
      and j + h. */
  lemma PairOfPartial(x: seq<Complex>, z: seq<Complex>, wm: Complex, j: nat, h: nat, t: Complex)
    requires |x| % 2 == 0 && h == |x| / 2 && j < h && z == Partial(x, wm, j)
    requires t == Mul(Twiddle(wm, j), z[j + h])
    ensures BlockAt(x, wm, j) == Add(z[j], t) && BlockAt(x, wm, j + h) == Sub(z[j], t)
  {
    assert z[j] == x[j] && z[j + h] == x[j + h];
  }

  lemma ZipSliceAt(re: seq<real>, im: seq<real>, start: nat, m: nat, p: nat)
    requires |re| == |im| && start + m <= |re| && p < m
    ensures Zip(re[start..start + m], im[start..start + m])[p] == Complex(re[start + p], im[start + p])
  {
  }

  lemma BlockProgressEnd(re0: seq<real>, im0: seq<real>, re: seq<real>, im: seq<real>,
                         start: nat, m: nat, wm: Complex)
    requires BlockProgress(re0, im0, re, im, start, m, wm, m / 2)
    ensures Zip(re[start..start + m], im[start..start + m])
         == Block(Zip(re0[start..start + m], im0[start..start + m]), wm)
  {
    PartialEnds(Zip(re0[start..start + m], im0[start..start + m]), wm);
  }

  /** The arrays after butterfly j of the block at `start` mirror the
      updated z, and nothing outside the block moves. */
  lemma ButterflyStep(re0: seq<real>, im0: seq<real>, re1: seq<real>, im1: seq<real>,
                      start: nat, m: nat, j: nat, t: Complex)
    requires |re0| == |im0| && m % 2 == 0 && j < m / 2 && start + m <= |re0|
    requires re1 == Pair(re0, start + j, start + j + m / 2, t.re)
    requires im1 == Pair(im0, start + j, start + j + m / 2, t.im)
    ensures |re1| == |im1| == |re0|
    ensures var z := Zip(re0[start..start + m], im0[start..start + m]);
      Zip(re1[start..start + m], im1[start..start + m])
        == z[j := Add(z[j], t)][j + m / 2 := Sub(z[j], t)]
    ensures re1[..start] == re0[..start] && re1[start + m..] == re0[start + m..]
    ensures im1[..start] == im0[..start] && im1[start + m..] == im0[start + m..]
  {
    var h := m / 2;
    var z := Zip(re0[start..start + m], im0[start..start + m]);
    var z1 := z[j := Add(z[j], t)][j + h := Sub(z[j], t)];
    var y := Zip(re1[start..start + m], im1[start..start + m]);
    forall p | 0 <= p < m
      ensures y[p] == z1[p]
    {
      assert y[p] == Complex(re1[start + p], im1[start + p]);
      assert z[p] == Complex(re0[start + p], im0[start + p]);
    }
  }

  /** Block x after its first j butterflies: the pairs (p, p + h) with
      p < j are done, the rest still hold their input. */
  function Partial(x: seq<Complex>, wm: Complex, j: nat): (z: seq<Complex>)
    requires |x| % 2 == 0
    ensures |z| == |x|
  {
    seq(|x|, p requires 0 <= p < |x| =>
      if p < j || |x| / 2 <= p < |x| / 2 + j then BlockAt(x, wm, p) else x[p])
  }

  /** Before any butterfly the block is its input; after all h of them it
      is the block transform. */
  lemma PartialEnds(x: seq<Complex>, wm: Complex)
    requires |x| % 2 == 0
    ensures Partial(x, wm, 0) == x
    ensures Partial(x, wm, |x| / 2) == Block(x, wm)
  {
    assert forall p :: 0 <= p < |x| ==> Partial(x, wm, 0)[p] == x[p];
    assert forall p :: 0 <= p < |x| ==> Partial(x, wm, |x| / 2)[p] == Block(x, wm)[p];
  }

  /** Butterfly j sets exactly the points j and j + h. */
  lemma PartialStep(x: seq<Complex>, wm: Complex, j: nat, h: nat)
    requires |x| % 2 == 0 && h == |x| / 2 && j < h
    ensures Partial(x, wm, j + 1)
         == Partial(x, wm, j)[j := BlockAt(x, wm, j)][j + h := BlockAt(x, wm, j + h)]
  {
    var u := Partial(x, wm, j)[j := BlockAt(x, wm, j)][j + h := BlockAt(x, wm, j + h)];
    forall p | 0 <= p < |x|
      ensures Partial(x, wm, j + 1)[p] == u[p]
    {
      if p != j && p != j + h {
        assert u[p] == Partial(x, wm, j)[p];
      }
    }
  }

  /** One whole stage in place, block after block. */
  method ApplyStage(re: array<real>, im: array<real>, m: nat, wm: Complex)
    requires re != im && re.Length == im.Length
    requires m >= 2 && m % 2 == 0 && re.Length % m == 0
    modifies re, im
    ensures Zip(re[..], im[..]) == StageOut(Zip(old(re[..]), old(im[..])), m, wm)
  {
    ghost var x := Zip(re[..], im[..]);
    var k := 0;
    DivModUnique(0, m, 0, 0);
    while k < re.Length
      invariant 0 <= k <= re.Length && k % m == 0
      invariant Zip(re[..], im[..])[..k] == StageOut(x[..k], m, wm)
      invariant Zip(re[..], im[..])[k..] == x[k..]
      decreases re.Length - k
    {
      NextBlock(k, m, re.Length);
      ghost var re0, im0 := re[..], im[..];
      ButterflyBlock(re, im, k, m, wm);
      StageStep(x, re0, im0, re[..], im[..], k, m, wm);
      k := k + m;
    }
    assert x[..k] == x;
  }

  /** One more block of the stage is done. */
  lemma StageStep(x: seq<Complex>, re0: seq<real>, im0: seq<real>, re1: seq<real>, im1: seq<real>,
                  k: nat, m: nat, wm: Complex)
    requires |re0| == |im0| == |re1| == |im1| == |x|
    requires m >= 2 && m % 2 == 0 && k % m == 0 && k + m <= |x| && (k + m) % m == 0
    requires Zip(re0, im0)[..k] == StageOut(x[..k], m, wm)
    requires Zip(re0, im0)[k..] == x[k..]
    requires Zip(re1[k..k + m], im1[k..k + m]) == Block(Zip(re0[k..k + m], im0[k..k + m]), wm)
    requires re1[..k] == re0[..k] && re1[k + m..] == re0[k + m..]
    requires im1[..k] == im0[..k] && im1[k + m..] == im0[k + m..]
    ensures Zip(re1, im1)[..k + m] == StageOut(x[..k + m], m, wm)
    ensures Zip(re1, im1)[k + m..] == x[k + m..]
  {
    ZipFrames(re0, im0, re1, im1, k, m, wm);
    StageStepOnSignal(x, Zip(re0, im0), Zip(re1, im1), k, m, wm);
  }

  /** The block and frame facts of ButterflyBlock, read on the complex
      signal. */
  lemma ZipFrames(re0: seq<real>, im0: seq<real>, re1: seq<real>, im1: seq<real>,
                  k: nat, m: nat, wm: Complex)
    requires |re0| == |im0| == |re1| == |im1| && m % 2 == 0 && k + m <= |re0|
    requires Zip(re1[k..k + m], im1[k..k + m]) == Block(Zip(re0[k..k + m], im0[k..k + m]), wm)
    requires re1[..k] == re0[..k] && re1[k + m..] == re0[k + m..]
    requires im1[..k] == im0[..k] && im1[k + m..] == im0[k + m..]
    ensures Zip(re1, im1)[..k] == Zip(re0, im0)[..k]
    ensures Zip(re1, im1)[k..k + m] == Block(Zip(re0, im0)[k..k + m], wm)
    ensures Zip(re1, im1)[k + m..] == Zip(re0, im0)[k + m..]
  {
    ZipSlice(re0, im0, k, k + m);
    ZipSlice(re1, im1, k, k + m);
    ZipSlice(re0, im0, 0, k);
    ZipSlice(re1, im1, 0, k);
    assert re1[0..k] == re0[0..k] && im1[0..k] == im0[0..k];
    ZipSlice(re0, im0, k + m, |re0|);
    ZipSlice(re1, im1, k + m, |re0|);
    assert re1[k + m..|re0|] == re0[k + m..|re0|] && im1[k + m..|re0|] == im0[k + m..|re0|];
  }

  /** The stage's progress on the complex signal: blocks before k done in
      `before`, one more block done in `after`. */
  lemma StageStepOnSignal(x: seq<Complex>, before: seq<Complex>, after: seq<Complex>,
                          k: nat, m: nat, wm: Complex)
    requires |before| == |after| == |x|
    requires m >= 2 && m % 2 == 0 && k % m == 0 && k + m <= |x|
    requires before[..k] == StageOut(x[..k], m, wm) && before[k..] == x[k..]
    requires after[..k] == before[..k] && after[k + m..] == before[k + m..]
    requires after[k..k + m] == Block(before[k..k + m], wm)
    ensures (k + m) % m == 0
    ensures after[..k + m] == StageOut(x[..k + m], m, wm)
    ensures after[k + m..] == x[k + m..]
  {
    var next := k + m;
    assert before[k..next] == before[k..][..m] == x[k..][..m] == x[k..next];
    assert after[..next] == after[..k] + after[k..next];
    StageOutAppend(x[..k], x[k..next], m, wm);
    assert x[..k] + x[k..next] == x[..next];
    assert before[next..] == before[k..][m..];
  }

  lemma ZipSlice(re: seq<real>, im: seq<real>, i: nat, j: nat)
    requires |re| == |im| && i <= j <= |re|
    ensures Zip(re[i..j], im[i..j]) == Zip(re, im)[i..j]
  {
  }

  /** computeFFT: the stages in order, then the magnitudes of the first
      size/2 bins overwrite the front of the buffer; the rest of the
      buffer is left as it was. */
  method ComputeFFT(math: Kernels, buffer: array<real>, size: nat)
    requires size <= buffer.Length && IsPowerOfTwo(size)
    modifies buffer
    ensures buffer[..size / 2] == Magnitudes(math, old(buffer[..size]))
    ensures buffer[size / 2..] == old(buffer[size / 2..])
  {
    ghost var samples := buffer[..size];
    ghost var x := Zip(samples, seq(size, _ => 0.0));
    var re := new real[size];
    var im := new real[size];
    for i := 0 to size
      modifies re, im
      invariant forall p :: 0 <= p < i ==> re[p] == buffer[p] && im[p] == 0.0
    {
      re[i] := buffer[i];
      im[i] := 0.0;
    }
    assert Zip(re[..], im[..]) == x;
    RunStages(math, re, im);
    WriteMagnitudes(math, buffer, re, im, size / 2);
    ghost var y := Spectrum(math, samples);
    assert forall p :: 0 <= p < size ==> y[p] == Complex(re[p], im[p]);
    assert forall p :: 0 <= p < size / 2 ==> buffer[..size / 2][p] == Magnitudes(math, samples)[p];
  }

  /** The stage loop of computeFFT: stages 1 .. log2(size) in order. */
  method RunStages(math: Kernels, re: array<real>, im: array<real>)
    requires re != im && re.Length == im.Length && IsPowerOfTwo(re.Length)
    modifies re, im
    ensures Zip(re[..], im[..]) == Stages(math, Zip(old(re[..]), old(im[..])), Log2(re.Length))
  {
    ghost var x := Zip(re[..], im[..]);
    var stages := Log2(re.Length);
    for stage := 1 to stages + 1
      invariant Zip(re[..], im[..]) == Stages(math, x, stage - 1)
    {
      var m := Pow2(stage);
      Pow2Divides(stage, stages);
      ghost var prev := Zip(re[..], im[..]);
      ApplyStage(re, im, m, Root(math, m));
      assert Zip(re[..], im[..]) == StageOut(prev, m, Root(math, m));
      assert Stages(math, x, stage) == StageOut(Stages(math, x, stage - 1), m, Root(math, m));
    }
  }

  /** The final loop of computeFFT: slot i of the buffer receives the
      magnitude of bin i, for the first `half` bins. */
  method WriteMagnitudes(math: Kernels, buffer: array<real>, re: array<real>, im: array<real>, half: nat)
    requires half <= buffer.Length && half <= re.Length && half <= im.Length
    requires buffer != re && buffer != im
    modifies buffer
    ensures forall p :: 0 <= p < half ==> buffer[p] == math.sqrt(Power(Complex(re[p], im[p])))
    ensures forall p :: half <= p < buffer.Length ==> buffer[p] == old(buffer[p])
  {
    for i := 0 to half
      invariant forall p :: 0 <= p < i ==> buffer[p] == math.sqrt(Power(Complex(re[p], im[p])))
      invariant forall p :: i <= p < buffer.Length ==> buffer[p] == old(buffer[p])
    {
      buffer[i] := math.sqrt(Power(Complex(re[i], im[i])));
    }
  }

  /** The butterfly pattern never leaves the buffer: for size = 2^p, at
      stage s (blocks of m = 2^s), a block start k that is a multiple of m
      below size and an offset j < m/2, both k + j and k + j + m/2 are
      indices of the buffer. */
  lemma {:induction false} ButterflyInBounds(p: nat, s: nat, k: nat, j: nat)
    requires 1 <= s <= p
    requires k % Pow2(s) == 0 && k < Pow2(p) && j < Pow2(s) / 2
    ensures k + j < k + j + Pow2(s) / 2 < Pow2(p)
  {
    Pow2Divides(s, p);
    Log2OfPow2(p);
    NextBlock(k, Pow2(s), Pow2(p));
  }

  /** Bin 1 of the four-point discrete Fourier transform with exact roots,
      sum of x[t] * e^(-2*pi*i*t/4): x0 - i*x1 - x2 + i*x3. */
  function Dft4Bin1(x: seq<Complex>): Complex
    requires |x| == 4
  {
    Complex(x[0].re + x[1].im - x[2].re - x[3].im, x[0].im - x[1].re - x[2].im + x[3].re)
  }

  /** Without the bit-reversal permutation the transform does not compute
      the DFT: with exact roots, the four-point input [1, 1, 0, 0] gets
      nothing in bin 1, where the DFT has 1 - i, of power 2. */
  lemma NoBitReversal(math: Kernels)
    requires math.cosTurn(0.5) == -1.0 && math.sinTurn(0.5) == 0.0
    requires math.cosTurn(0.25) == 0.0 && math.sinTurn(0.25) == 1.0
    ensures Spectrum(math, [1.0, 1.0, 0.0, 0.0])[1] == Complex(0.0, 0.0)
    ensures Dft4Bin1(Zip([1.0, 1.0, 0.0, 0.0], [0.0, 0.0, 0.0, 0.0])) == Complex(1.0, -1.0)
    ensures Power(Spectrum(math, [1.0, 1.0, 0.0, 0.0])[1]) == 0.0
    ensures Power(Dft4Bin1(Zip([1.0, 1.0, 0.0, 0.0], [0.0, 0.0, 0.0, 0.0]))) == 2.0
  {
    PairSpectrum(math);
    PowerAt(Spectrum(math, [1.0, 1.0, 0.0, 0.0])[1], 0.0, 0.0);
    PairDft();
  }

  lemma PairDft()
    ensures Dft4Bin1(Zip([1.0, 1.0, 0.0, 0.0], [0.0, 0.0, 0.0, 0.0])) == Complex(1.0, -1.0)
    ensures Power(Dft4Bin1(Zip([1.0, 1.0, 0.0, 0.0], [0.0, 0.0, 0.0, 0.0]))) == 2.0
  {
    var x := Zip([1.0, 1.0, 0.0, 0.0], [0.0, 0.0, 0.0, 0.0]);
    assert x[0].re == 1.0 && x[1].re == 1.0 && x[2].re == 0.0 && x[3].re == 0.0;
    assert x[0].im == 0.0 && x[1].im == 0.0 && x[2].im == 0.0 && x[3].im == 0.0;
    var d := Dft4Bin1(x);
    assert d == Complex(1.0, -1.0);
    PowerAt(d, 1.0, -1.0);
  }

  lemma PowerAt(z: Complex, re: real, im: real)
    requires z == Complex(re, im)
    ensures Power(z) == re * re + im * im
  {
  }

  lemma PairSpectrum(math: Kernels)
    requires math.cosTurn(0.5) == -1.0 && math.sinTurn(0.5) == 0.0
    requires math.cosTurn(0.25) == 0.0 && math.sinTurn(0.25) == 1.0
    ensures Spectrum(math, [1.0, 1.0, 0.0, 0.0])[1] == Complex(0.0, 0.0)
  {
    var x := Zip([1.0, 1.0, 0.0, 0.0], seq(4, _ => 0.0));
    var s1 := [Complex(2.0, 0.0), Complex(0.0, 0.0), Complex(0.0, 0.0), Complex(0.0, 0.0)];
    PairFirstStage(math, x);
    PairSecondStage(math, s1);
    StagesUnfold(math, x, 2);
    assert Pow2(2) == 4;
  }

  /** Stage s of the transform is applied to the result of the first s - 1. */
  lemma StagesUnfold(math: Kernels, x: seq<Complex>, s: nat)
    requires IsPowerOfTwo(|x|) && 1 <= s <= Log2(|x|)
    ensures Pow2(s) >= 2 && Pow2(s) % 2 == 0 && |x| % Pow2(s) == 0
    ensures Stages(math, x, s) == StageOut(Stages(math, x, s - 1), Pow2(s), Root(math, Pow2(s)))
  {
    Pow2Divides(s, Log2(|x|));
  }

  /** The first stage (blocks of 2, root -1) maps [1, 1, 0, 0] to [2, 0, 0, 0]. */
  lemma PairFirstStage(math: Kernels, x: seq<Complex>)
    requires math.cosTurn(0.5) == -1.0 && math.sinTurn(0.5) == 0.0
    requires x == Zip([1.0, 1.0, 0.0, 0.0], seq(4, _ => 0.0))
    ensures IsPowerOfTwo(|x|) && Log2(|x|) == 2
    ensures Stages(math, x, 1) == [Complex(2.0, 0.0), Complex(0.0, 0.0), Complex(0.0, 0.0), Complex(0.0, 0.0)]
  {
    var one, zero := Complex(1.0, 0.0), Complex(0.0, 0.0);
    assert x == [one, one, zero, zero];
    assert Log2(4) == 2 by {
      assert Log2(2) == 1;
    }
    assert Pow2(1) == 2 && Pow2(2) == 4;
    var r2 := Root(math, 2);
    assert Stages(math, x, 1) == StageOut(x, 2, r2);
    StageOutTwoBlocks(x, r2);
    assert x[..2] == [one, one] && x[2..] == [zero, zero];
    PairBlock(one, r2);
    PairBlock(zero, r2);
  }

  /** A block of two equal points a becomes [2a, 0] under any root: its one
      butterfly uses the twiddle 1. */
  lemma PairBlock(a: Complex, wm: Complex)
    ensures Block([a, a], wm) == [Add(a, a), Complex(0.0, 0.0)]
  {
    var b := Block([a, a], wm);
    assert Twiddle(wm, 0) == Complex(1.0, 0.0);
    MulOne(a);
    assert b[0] == Add(a, a);
    assert b[1] == Complex(0.0, 0.0);
  }

  lemma MulOne(a: Complex)
    ensures Mul(Complex(1.0, 0.0), a) == a
  {
  }

  /** The second stage (one block of 4) leaves 0 in bin 1 of [2, 0, 0, 0],
      whatever its root: bin 1 pairs two zero points. */
  lemma PairSecondStage(math: Kernels, s1: seq<Complex>)
    requires s1 == [Complex(2.0, 0.0), Complex(0.0, 0.0), Complex(0.0, 0.0), Complex(0.0, 0.0)]
    ensures StageOut(s1, 4, Root(math, 4))[1] == Complex(0.0, 0.0)
  {
    var r4, zero := Root(math, 4), Complex(0.0, 0.0);
    StageOutOneBlock(s1, r4);
    var t := Twiddle(r4, 1);
    MulZero(t);
    assert BlockAt(s1, r4, 1) == Add(s1[1], Mul(t, s1[3]));
    assert s1[1] == zero && s1[3] == zero;
  }

  lemma MulZero(a: Complex)
    ensures Mul(a, Complex(0.0, 0.0)) == Complex(0.0, 0.0)
  {
  }

  lemma StageOutOneBlock(x: seq<Complex>, wm: Complex)
    requires |x| == 4
    ensures StageOut(x, 4, wm) == Block(x, wm)
  {
    assert x[..4] == x && x[4..] == [];
  }

  lemma StageOutTwoBlocks(x: seq<Complex>, wm: Complex)
    requires |x| == 4
    ensures StageOut(x, 2, wm) == Block(x[..2], wm) + Block(x[2..], wm)
  {
    assert x[2..][..2] == x[2..] && x[2..][2..] == [];
  }

  // ---- block arithmetic ----

  lemma MulBounds(m: int, d: int)
    requires m > 0
    ensures d >= 1 ==> m * d >= m
    ensures d <= -1 ==> m * d <= -m
  {
  }

  lemma MulLe(m: int, a: int, b: int)
    requires m > 0 && a <= b
    ensures m * a <= m * b
  {
    MulBounds(m, b - a);
    assert m * (b - a) == m * b - m * a;
  }

  lemma DivModUnique(n: int, m: int, q: int, r: int)
    requires m > 0 && 0 <= r < m && n == m * q + r
    ensures n / m == q && n % m == r
  {
    var q', r' := n / m, n % m;
    assert n == m * q' + r' && 0 <= r' < m;
    MulBounds(m, q - q');
    assert m * (q - q') == m * q - m * q';
  }

  /** The next block start is still a multiple of m and still in range. */
  lemma NextBlock(k: nat, m: nat, n: nat)
    requires m > 0 && k % m == 0 && n % m == 0 && k < n
    ensures k + m <= n && (k + m) % m == 0
  {
    var q, bound := k / m, n / m;
    assert k == m * q && n == m * bound;
    if q >= bound {
      MulLe(m, bound, q);
    }
    MulLe(m, q + 1, bound);
    assert m * (q + 1) == m * q + m;
    DivModUnique(k + m, m, q + 1, 0);
  }

  lemma SubMod(n: nat, m: nat)
    requires m > 0 && n >= m && n % m == 0
    ensures (n - m) % m == 0
  {
    var q := n / m;
    assert n == m * q;
    assert n - m == m * (q - 1);
    DivModUnique(n - m, m, q - 1, 0);
  }

  /** 2^s divides 2^p for s <= p, and 2^s is an even block size for s >= 1. */
  lemma Pow2Divides(s: nat, p: nat)
    requires 1 <= s <= p
    ensures Pow2(p) % Pow2(s) == 0 && Pow2(s) >= 2 && Pow2(s) % 2 == 0
  {
    Pow2Split(s, p);
    DivModUnique(Pow2(p), Pow2(s), Pow2(p - s), 0);
  }

  /** Appending a block to a whole number of blocks appends its butterflies. */
  lemma {:induction false} StageOutAppend(a: seq<Complex>, b: seq<Complex>, m: nat, wm: Complex)
    requires m >= 2 && m % 2 == 0 && |a| % m == 0 && |b| == m
    ensures |a + b| % m == 0
    ensures StageOut(a + b, m, wm) == StageOut(a, m, wm) + Block(b, wm)
    decreases |a|
  {
    DivModUnique(|a| + m, m, |a| / m + 1, 0);
    if |a| == 0 {
      assert a + b == b;
      assert b[..m] == b && b[m..] == [];
    } else {
      NextBlock(0, m, |a|);
      SubMod(|a|, m);
      assert (a + b)[..m] == a[..m];
      assert (a + b)[m..] == a[m..] + b;
      StageOutAppend(a[m..], b, m, wm);
    }
  }
}
