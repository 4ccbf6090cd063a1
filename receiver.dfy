/**
 * The decision and bookkeeping logic of the BFSK receiver script: DC removal,
 * fixed-length segmentation of the intensity signal into per-bit windows,
 * selection of the spectrum bins inside each carrier's tolerance band, the
 * energy comparison that decides each bit, and the BER / data-rate score.
 *
 * The numerics around that logic are inputs: the Hann window is a sequence of
 * coefficients, and `spectrum` stands for `np.abs(rfft(.))`, of which the model
 * only assumes what every magnitude spectrum satisfies (IsMagnitudeSpectrum).
 */
module Receiver {
  import opened Common

  // Configuration, as in the receiver script.
  const TRANSMITTED_BITS: string := "1011001110001111"
  const BIT_DURATION: real := 0.4
  const FREQ_0: real := 5.0
  const FREQ_1: real := 10.0
  const FREQ_TOL: real := 1.0

  /** One classified window: the decided symbol and the two band energies behind it. */
  datatype BitDecision = BitDecision(bit: char, energy0: real, energy1: real)

  /** The scores printed at the end of the script. */
  datatype ScoreReport = ScoreReport(compared: nat, correct: nat, ber: real, dataRate: real)

  /** Scoring with no overlapping bits divides by zero. */
  datatype ScoreError = EmptyComparison

  // ---------------------------------------------------------------------------
  // Preprocessing: removing the DC level
  // ---------------------------------------------------------------------------

  /** `np.mean`: the value that, repeated `|xs|` times, has the same sum as `xs`. */
  function Mean(xs: seq<real>): (m: real)
    requires |xs| > 0
    ensures m * |xs| as real == Sum(xs)
  {
    Sum(xs) / |xs| as real
  }

  /** Every element moved down by the same amount `c`. */
  function Shift(xs: seq<real>, c: real): (ys: seq<real>)
    ensures |ys| == |xs|
    ensures forall i :: 0 <= i < |ys| ==> xs[i] - ys[i] == c
  {
    seq(|xs|, i requires 0 <= i < |xs| => xs[i] - c)
  }

  lemma {:induction false} SumShift(xs: seq<real>, c: real)
    ensures Sum(Shift(xs, c)) == Sum(xs) - |xs| as real * c
  {
    if xs != [] {
      var n := |xs|;
      assert Shift(xs, c)[..n - 1] == Shift(xs[..n - 1], c);
      SumShift(xs[..n - 1], c);
    }
  }

  /**
   * `intensities - np.mean(intensities)`: a uniform shift of the samples after
   * which they sum to zero.
   */
  function RemoveDC(intensities: seq<real>): (signal: seq<real>)
    requires |intensities| > 0
    ensures |signal| == |intensities|
    ensures forall i :: 0 <= i < |signal| ==> signal[i] - intensities[i] == signal[0] - intensities[0]
    ensures Sum(signal) == 0.0
  {
    SumShift(intensities, Mean(intensities));
    Shift(intensities, Mean(intensities))
  }

  // ---------------------------------------------------------------------------
  // Segmentation
  // ---------------------------------------------------------------------------

  lemma MulLe(a: nat, b: nat, c: nat)
    requires a <= b
    ensures a * c <= b * c
  {
  }

  /** A multiple of a positive `d` divides back exactly. */
  lemma MultipleDivides(i: nat, d: nat)
    ensures d > 0 ==> (i * d) / d == i && (i * d) % d == 0
  {
    if d > 0 {
      var q, r := (i * d) / d, (i * d) % d;
      assert q * d + r == i * d;
      if q < i {
        MulLe(q + 1, i, d);
      } else if q > i {
        MulLe(i + 1, q, d);
      }
    }
  }

  /** First sample of window `i`; the window is `[WindowStart(i), WindowStart(i) + spb)`. */
  function WindowStart(i: nat, spb: nat): (start: nat)
    ensures spb > 0 ==> start / spb == i && start % spb == 0
  {
    MultipleDivides(i, spb);
    i * spb
  }

  /**
   * How many windows the classification loop gets through on a signal of `n`
   * samples: all `numBits` when they fit, otherwise the whole windows that fit.
   */
  function WindowCount(n: nat, numBits: nat, spb: nat): (count: nat)
    requires spb > 0
    ensures count <= numBits
    ensures count * spb <= n
    ensures count < numBits ==> n < (count + 1) * spb
  {
    var whole := n / spb;
    assert whole * spb <= n < (whole + 1) * spb;
    if numBits <= whole then
      MulLe(numBits, whole, spb);
      numBits
    else
      whole
  }

  /** Fewer than `numBits` windows are classified exactly when the signal is short of `numBits * spb` samples. */
  lemma TruncatedIffShort(n: nat, numBits: nat, spb: nat)
    requires spb > 0
    ensures WindowCount(n, numBits, spb) < numBits <==> n < numBits * spb
  {
    var count := WindowCount(n, numBits, spb);
    if count < numBits {
      MulLe(count + 1, numBits, spb);
    }
  }

  /** A signal holding `k < numBits` whole windows and part of the next yields exactly `k` bits. */
  lemma TruncatedCountIsWholeWindows(n: nat, numBits: nat, spb: nat, k: nat)
    requires spb > 0 && k < numBits
    requires k * spb <= n < (k + 1) * spb
    ensures WindowCount(n, numBits, spb) == k
  {
    var count := WindowCount(n, numBits, spb);
    if count > k {
      MulLe(k + 1, count, spb);
    } else if count < k {
      MulLe(count + 1, k, spb);
    }
  }

  /** Classified windows lie inside the signal, in order, and do not overlap. */
  lemma WindowsInsideAndDisjoint(n: nat, numBits: nat, spb: nat, i: nat, j: nat)
    requires spb > 0 && i < j < WindowCount(n, numBits, spb)
    ensures WindowStart(i, spb) + spb <= WindowStart(j, spb)
    ensures WindowStart(j, spb) + spb <= n
  {
    MulLe(i + 1, j, spb);
    MulLe(j + 1, WindowCount(n, numBits, spb), spb);
  }

  /** Two windows that both contain sample `s` are the same window. */
  lemma SameWindow(i: nat, w: nat, spb: nat, s: nat)
    requires i * spb <= s < i * spb + spb
    requires w * spb <= s < w * spb + spb
    ensures i == w
  {
    if i < w {
      MulLe(i + 1, w, spb);
    } else if w < i {
      MulLe(w + 1, i, spb);
    }
  }

  /**
   * The classified windows tile the prefix `[0, count * spb)`: every sample there
   * belongs to window `s / spb`, and to no other.
   */
  lemma SampleInExactlyOneWindow(n: nat, numBits: nat, spb: nat, s: nat)
    requires spb > 0 && s < WindowCount(n, numBits, spb) * spb
    ensures s / spb < WindowCount(n, numBits, spb)
    ensures WindowStart(s / spb, spb) <= s < WindowStart(s / spb, spb) + spb
    ensures forall i: nat :: WindowStart(i, spb) <= s < WindowStart(i, spb) + spb ==> i == s / spb
  {
    var count := WindowCount(n, numBits, spb);
    var w := s / spb;
    assert w * spb <= s < w * spb + spb;
    if w >= count {
      MulLe(count, w, spb);
    }
    forall i: nat | WindowStart(i, spb) <= s < WindowStart(i, spb) + spb
      ensures i == w
    {
      SameWindow(i, w, spb, s);
    }
  }

  /** `signal[start:end]` for window `i`. */
  function Segment(signal: seq<real>, i: nat, spb: nat): (segment: seq<real>)
    requires WindowStart(i, spb) + spb <= |signal|
    ensures |segment| == spb
  {
    signal[WindowStart(i, spb)..WindowStart(i, spb) + spb]
  }

  // ---------------------------------------------------------------------------
  // Band selection and energies
  // ---------------------------------------------------------------------------

  /** `signal[start:end] * window`, element by element. */
  function Taper(segment: seq<real>, window: seq<real>): (tapered: seq<real>)
    requires |segment| == |window|
    ensures |tapered| == |segment|
  {
    seq(|segment|, i requires 0 <= i < |segment| => segment[i] * window[i])
  }

  /** Bin `k` of a length-`L` real FFT of samples taken `fps` times a second lies at `k * fps / L` Hz. */
  function BinFrequency(k: nat, L: nat, fps: real): (freq: real)
    requires L > 0
    ensures fps >= 0.0 ==> 0.0 <= freq
    ensures fps >= 0.0 && 2 * k <= L ==> freq <= fps / 2.0
    ensures freq * L as real == k as real * fps
  {
    k as real * fps / L as real
  }

  /** With a positive sampling rate, later bins lie at strictly higher frequencies. */
  lemma BinFrequencyAscending(L: nat, fps: real, a: nat, b: nat)
    requires L > 0 && fps > 0.0 && a < b
    ensures BinFrequency(a, L, fps) < BinFrequency(b, L, fps)
  {
    var lo, hi, len := a as real * fps, b as real * fps, L as real;
    assert lo < hi;
    assert (lo / len) * len == lo && (hi / len) * len == hi;
    if hi / len <= lo / len {
      assert (hi / len) * len <= (lo / len) * len;
    }
  }

  /** `rfftfreq(L, d=1.0/fps)`: the frequencies of bins `0 .. L / 2`. */
  function BinFrequencies(L: nat, fps: real): (freqs: seq<real>)
    requires L > 0
    ensures |freqs| == L / 2 + 1
    ensures forall k :: 0 <= k < |freqs| ==> freqs[k] == BinFrequency(k, L, fps)
    ensures fps > 0.0 ==> forall a, b :: 0 <= a < b < |freqs| ==> freqs[a] < freqs[b]
  {
    var freqs := seq(L / 2 + 1, k requires 0 <= k => BinFrequency(k, L, fps));
    assert fps > 0.0 ==> forall a, b :: 0 <= a < b < |freqs| ==> freqs[a] < freqs[b] by {
      if fps > 0.0 {
        forall a, b | 0 <= a < b < |freqs|
          ensures freqs[a] < freqs[b]
        {
          BinFrequencyAscending(L, fps, a, b);
        }
      }
    }
    freqs
  }

  /** What `np.abs(rfft(x))` always is: `|x| / 2 + 1` non-negative magnitudes. */
  ghost predicate IsMagnitudeSpectrum(spectrum: seq<real> -> seq<real>)
  {
    (forall x: seq<real> :: |spectrum(x)| == |x| / 2 + 1) &&
    (forall x: seq<real>, k :: 0 <= k < |spectrum(x)| ==> 0.0 <= spectrum(x)[k])
  }

  /** Both band edges are inclusive: the frequency is within `tol` of the centre. */
  predicate InBand(freq: real, center: real, tol: real)
    ensures InBand(freq, center, tol) <==> Abs(freq - center) <= tol
  {
    center - tol <= freq <= center + tol
  }

  /**
   * `np.where((freqs >= center - tol) & (freqs <= center + tol))[0]`: the bins
   * in the band, each once, in ascending order.
   */
  function BandIndices(freqs: seq<real>, center: real, tol: real): (idx: seq<nat>)
    ensures forall j :: 0 <= j < |idx| ==> idx[j] < |freqs|
    ensures forall k: nat {:trigger k in idx} :: k in idx <==> k < |freqs| && InBand(freqs[k], center, tol)
    ensures forall a, b :: 0 <= a < b < |idx| ==> idx[a] < idx[b]
  {
    if freqs == [] then []
    else
      var last := |freqs| - 1;
      var below := BandIndices(freqs[..last], center, tol);
      assert forall j :: 0 <= j < |below| ==> below[j] < last;
      below + if InBand(freqs[last], center, tol) then [last] else []
  }

  /** `spectrum[idx].sum()`. */
  function SumAt(mag: seq<real>, idx: seq<nat>): (energy: real)
    requires forall j :: 0 <= j < |idx| ==> idx[j] < |mag|
    ensures (forall k :: 0 <= k < |mag| ==> 0.0 <= mag[k]) ==> 0.0 <= energy
  {
    if idx == [] then 0.0 else SumAt(mag, idx[..|idx| - 1]) + mag[idx[|idx| - 1]]
  }

  /** Reference definition of a band's energy: the magnitudes of all bins in the band, added up. */
  function BandEnergy(mag: seq<real>, freqs: seq<real>, center: real, tol: real): real
    requires |mag| == |freqs|
  {
    if mag == [] then 0.0
    else
      var last := |mag| - 1;
      BandEnergy(mag[..last], freqs[..last], center, tol)
        + if InBand(freqs[last], center, tol) then mag[last] else 0.0
  }

  lemma {:induction false} SumAtPrefix(mag: seq<real>, m: nat, idx: seq<nat>)
    requires m <= |mag|
    requires forall j :: 0 <= j < |idx| ==> idx[j] < m
    ensures SumAt(mag, idx) == SumAt(mag[..m], idx)
  {
    if idx != [] {
      SumAtPrefix(mag, m, idx[..|idx| - 1]);
    }
  }

  lemma SumAtAppend(mag: seq<real>, idx: seq<nat>, k: nat)
    requires k < |mag| && forall j :: 0 <= j < |idx| ==> idx[j] < |mag|
    ensures SumAt(mag, idx + [k]) == SumAt(mag, idx) + mag[k]
  {
    assert (idx + [k])[..|idx|] == idx;
  }

  /** Summing the spectrum at the selected bins is the band energy of the reference definition. */
  lemma {:induction false} SelectedSumIsBandEnergy(mag: seq<real>, freqs: seq<real>, center: real, tol: real)
    requires |mag| == |freqs|
    ensures SumAt(mag, BandIndices(freqs, center, tol)) == BandEnergy(mag, freqs, center, tol)
  {
    if mag != [] {
      var last := |mag| - 1;
      var below := BandIndices(freqs[..last], center, tol);
      SumAtPrefix(mag, last, below);
      SelectedSumIsBandEnergy(mag[..last], freqs[..last], center, tol);
      if InBand(freqs[last], center, tol) {
        SumAtAppend(mag, below, last);
      } else {
        assert BandIndices(freqs, center, tol) == below;
      }
    }
  }

  /** Bin `k` of a length-`L` window is selected exactly when `k * fps / L` lies in the closed band. */
  lemma BinSelectedIffInBand(L: nat, fps: real, center: real, tol: real, k: nat)
    requires L > 0 && k <= L / 2
    ensures k in BandIndices(BinFrequencies(L, fps), center, tol)
            <==> center - tol <= k as real * fps / L as real <= center + tol
  {
    var freqs := BinFrequencies(L, fps);
    assert |freqs| == L / 2 + 1;
    assert freqs[k] == BinFrequency(k, L, fps);
  }

  /** With `tol` below half the carrier spacing, no bin is selected for both bands. */
  lemma BandsShareNoBin(freqs: seq<real>, f0: real, f1: real, tol: real, k: nat)
    requires tol < Abs(f1 - f0) / 2.0
    ensures !(k in BandIndices(freqs, f0, tol) && k in BandIndices(freqs, f1, tol))
  {
  }

  // ---------------------------------------------------------------------------
  // Decision
  // ---------------------------------------------------------------------------

  /** `'0' if energy0 >= energy1 else '1'`: ties go to '0'. */
  function Decide(energy0: real, energy1: real): (bit: char)
    ensures bit == '0' <==> energy0 >= energy1
    ensures bit == '1' <==> energy0 < energy1
  {
    if energy0 >= energy1 then '0' else '1'
  }

  /** Classification of one window (the body of the loop, after the bounds check). */
  function Classify(segment: seq<real>, window: seq<real>, fps: real, spectrum: seq<real> -> seq<real>)
    : (d: BitDecision)
    requires |segment| == |window| > 0
    requires IsMagnitudeSpectrum(spectrum)
    ensures 0.0 <= d.energy0 && 0.0 <= d.energy1
    ensures d.energy0 == BandEnergy(spectrum(Taper(segment, window)), BinFrequencies(|segment|, fps), FREQ_0, FREQ_TOL)
    ensures d.energy1 == BandEnergy(spectrum(Taper(segment, window)), BinFrequencies(|segment|, fps), FREQ_1, FREQ_TOL)
    ensures d.bit == '0' <==> d.energy0 >= d.energy1
    ensures d.bit == '1' <==> d.energy0 < d.energy1
  {
    var mag := spectrum(Taper(segment, window));
    var freqs := BinFrequencies(|segment|, fps);
    var idx0 := BandIndices(freqs, FREQ_0, FREQ_TOL);
    var idx1 := BandIndices(freqs, FREQ_1, FREQ_TOL);
    SelectedSumIsBandEnergy(mag, freqs, FREQ_0, FREQ_TOL);
    SelectedSumIsBandEnergy(mag, freqs, FREQ_1, FREQ_TOL);
    var energy0 := SumAt(mag, idx0);
    var energy1 := SumAt(mag, idx1);
    BitDecision(Decide(energy0, energy1), energy0, energy1)
  }

  // ---------------------------------------------------------------------------
  // The classification loop
  // ---------------------------------------------------------------------------

  /** Where the classification loop stops: after the last bit, or at the first window that does not fit. */
  lemma LoopExit(n: nat, numBits: nat, spb: nat, i: nat, trimmed: bool)
    requires spb > 0 && i <= numBits && i * spb <= n
    requires trimmed ==> i < numBits && n < i * spb + spb
    requires !trimmed ==> i == numBits
    ensures i == WindowCount(n, numBits, spb)
    ensures trimmed <==> n < numBits * spb
  {
    TruncatedIffShort(n, numBits, spb);
    if trimmed {
      TruncatedCountIsWholeWindows(n, numBits, spb, i);
    }
  }

  /** The bit decided for window `i`: '0' unless band 1 holds strictly more energy than band 0. */
  function WindowBit(signal: seq<real>, i: nat, spb: nat, window: seq<real>, fps: real,
                     spectrum: seq<real> -> seq<real>): (bit: char)
    requires spb > 0 && |window| == spb && WindowStart(i, spb) + spb <= |signal|
    requires IsMagnitudeSpectrum(spectrum)
    ensures bit == '0' <==>
              BandEnergy(spectrum(Taper(Segment(signal, i, spb), window)), BinFrequencies(spb, fps), FREQ_0, FREQ_TOL)
              >= BandEnergy(spectrum(Taper(Segment(signal, i, spb), window)), BinFrequencies(spb, fps), FREQ_1, FREQ_TOL)
    ensures bit == '0' || bit == '1'
  {
    Classify(Segment(signal, i, spb), window, fps, spectrum).bit
  }

  /** The decisions for windows `0 .. count - 1`, in window order. */
  function DecodedPrefix(signal: seq<real>, count: nat, spb: nat, window: seq<real>, fps: real,
                         spectrum: seq<real> -> seq<real>): (bits: seq<char>)
    requires spb > 0 && |window| == spb && count * spb <= |signal|
    requires IsMagnitudeSpectrum(spectrum)
    ensures |bits| == count
    ensures forall i :: 0 <= i < count ==>
              WindowStart(i, spb) + spb <= |signal| &&
              bits[i] == WindowBit(signal, i, spb, window, fps, spectrum)
  {
    if count == 0 then []
    else
      MulLe(count - 1, count, spb);
      DecodedPrefix(signal, count - 1, spb, window, fps, spectrum)
        + [WindowBit(signal, count - 1, spb, window, fps, spectrum)]
  }

  /**
   * Classify window after window, appending each decision, and stop at the
   * first window that would run past the signal (`trimmed` is the warning
   * printed there).
   */
  method DecodeBits(signal: seq<real>, numBits: nat, spb: nat, window: seq<real>, fps: real,
                    spectrum: seq<real> -> seq<real>)
    returns (receivedBits: seq<char>, trimmed: bool)
    requires spb > 0 && |window| == spb
    requires IsMagnitudeSpectrum(spectrum)
    ensures |receivedBits| == WindowCount(|signal|, numBits, spb)
    ensures receivedBits == DecodedPrefix(signal, |receivedBits|, spb, window, fps, spectrum)
    ensures trimmed <==> |signal| < numBits * spb
  {
    receivedBits := [];
    trimmed := false;
    var i := 0;
    while i < numBits
      invariant i <= numBits
      invariant i * spb <= |signal|
      invariant receivedBits == DecodedPrefix(signal, i, spb, window, fps, spectrum)
    {
      var start := i * spb;
      var end := start + spb;
      if end > |signal| {
        trimmed := true;
        break;
      }
      var segment := Segment(signal, i, spb);
      var decision := Classify(segment, window, fps, spectrum);
      receivedBits := receivedBits + [decision.bit];
      assert (i + 1) * spb == end;
      i := i + 1;
    }
    LoopExit(|signal|, numBits, spb, i, trimmed);
  }

  // ---------------------------------------------------------------------------
  // Scoring
  // ---------------------------------------------------------------------------

  /** Number of positions below `n` where the two bit strings agree. */
  function MatchCount(tx: string, rx: string, n: nat): (c: nat)
    requires n <= |tx| && n <= |rx|
    ensures c <= n
  {
    if n == 0 then 0 else MatchCount(tx, rx, n - 1) + if tx[n - 1] == rx[n - 1] then 1 else 0
  }

  /** Every compared position agrees exactly when the count of agreements is the whole prefix. */
  lemma {:induction false} AllMatchIff(tx: string, rx: string, n: nat)
    requires n <= |tx| && n <= |rx|
    ensures MatchCount(tx, rx, n) == n <==> forall i :: 0 <= i < n ==> tx[i] == rx[i]
  {
    if n > 0 {
      AllMatchIff(tx, rx, n - 1);
      if tx[n - 1] != rx[n - 1] {
        assert MatchCount(tx, rx, n - 1) <= n - 1;
      }
    }
  }

  /** `sum(1 for i in range(min_len) if tx[i] == rx[i])`. */
  method CountCorrect(tx: string, rx: string) returns (correct: nat)
    ensures correct == MatchCount(tx, rx, Min(|tx|, |rx|))
    ensures correct <= |tx| && correct <= |rx|
  {
    var minLen := Min(|tx|, |rx|);
    correct := 0;
    for i := 0 to minLen
      invariant correct == MatchCount(tx, rx, i)
    {
      if tx[i] == rx[i] {
        correct := correct + 1;
      }
    }
  }

  lemma NonNegFactor(x: real, t: real)
    requires t > 0.0 && x * t >= 0.0
    ensures x >= 0.0
  {
  }

  /** `1 - correct / total` is a rate in [0, 1] that is zero exactly when every bit is correct. */
  lemma BerBounds(correct: real, total: real)
    requires 0.0 <= correct <= total && total > 0.0
    ensures 0.0 <= 1.0 - correct / total <= 1.0
    ensures 1.0 - correct / total == 0.0 <==> correct == total
  {
    var ratio := correct / total;
    assert ratio * total == correct;
    assert (1.0 - ratio) * total == total - correct;
    NonNegFactor(ratio, total);
    NonNegFactor(1.0 - ratio, total);
    if correct == total {
      assert (ratio - 1.0) * total == 0.0;
      NonNegFactor(ratio - 1.0, total);
    }
  }

  /** `correct / (total * BIT_DURATION)` lies between 0 and one bit per bit duration. */
  lemma RateBounds(correct: real, total: real)
    requires 0.0 <= correct <= total && total > 0.0
    ensures correct / (total * BIT_DURATION) * (total * BIT_DURATION) == correct
    ensures 0.0 <= correct / (total * BIT_DURATION) <= 1.0 / BIT_DURATION
  {
    var rate := correct / (total * BIT_DURATION);
    assert rate * (total * BIT_DURATION) == correct;
    assert rate * total * BIT_DURATION <= total;
  }

  /**
   * Scores over the overlapping prefix: the count of agreeing bits, the bit
   * error rate and the rate of correctly received bits per second.
   */
  function Score(tx: string, rx: string): (r: Result<ScoreReport, ScoreError>)
    ensures r.Failure? <==> Min(|tx|, |rx|) == 0
    ensures r.Success? ==> r.value.compared == Min(|tx|, |rx|)
    ensures r.Success? ==> r.value.correct == MatchCount(tx, rx, r.value.compared)
    ensures r.Success? ==> r.value.ber == 1.0 - r.value.correct as real / r.value.compared as real
    ensures r.Success? ==> 0.0 <= r.value.ber <= 1.0
    ensures r.Success? ==>
              (r.value.ber == 0.0 <==> forall i :: 0 <= i < r.value.compared ==> tx[i] == rx[i])
    ensures r.Success? ==>
              r.value.dataRate * (r.value.compared as real * BIT_DURATION) == r.value.correct as real
    ensures r.Success? ==> 0.0 <= r.value.dataRate <= 1.0 / BIT_DURATION
  {
    var minLen := Min(|tx|, |rx|);
    if minLen == 0 then
      Failure(EmptyComparison)
    else
      var correct := MatchCount(tx, rx, minLen);
      AllMatchIff(tx, rx, minLen);
      BerBounds(correct as real, minLen as real);
      RateBounds(correct as real, minLen as real);
      var ber := 1.0 - correct as real / minLen as real;
      var dataRate := correct as real / (minLen as real * BIT_DURATION);
      Success(ScoreReport(minLen, correct, ber, dataRate))
  }

  /**
   * Count the agreeing bits over the overlapping prefix with a loop, then
   * derive the bit error rate and the data rate from that count.
   */
  method Evaluate(tx: string, rx: string) returns (r: Result<ScoreReport, ScoreError>)
    ensures r == Score(tx, rx)
  {
    var minLen := Min(|tx|, |rx|);
    var correct := CountCorrect(tx, rx);
    if minLen == 0 {
      return Failure(EmptyComparison);
    }
    var totalBits := minLen;
    var ber := 1.0 - correct as real / totalBits as real;
    var dataRate := correct as real / (totalBits as real * BIT_DURATION);
    r := Success(ScoreReport(totalBits, correct, ber, dataRate));
  }

  /** The configured bit string with its last bit flipped scores 15 of 16. */
  lemma LastBitFlippedScore()
    ensures Score(TRANSMITTED_BITS, "1011001110001110")
            == Success(ScoreReport(16, 15, 0.0625, 15.0 / 6.4))
  {
    var rx := "1011001110001110";
    assert MatchCount(TRANSMITTED_BITS, rx, 15) == 15 by {
      AllMatchIff(TRANSMITTED_BITS, rx, 15);
    }
  }

  // ---------------------------------------------------------------------------
  // The receive pipeline after normalisation
  // ---------------------------------------------------------------------------

  /** Decode `len(TRANSMITTED_BITS)` bits from the normalised signal, then score them. */
  method Receive(signal: seq<real>, spb: nat, window: seq<real>, fps: real,
                 spectrum: seq<real> -> seq<real>)
    returns (receivedBits: string, trimmed: bool, report: Result<ScoreReport, ScoreError>)
    requires spb > 0 && |window| == spb
    requires IsMagnitudeSpectrum(spectrum)
    ensures |receivedBits| == WindowCount(|signal|, |TRANSMITTED_BITS|, spb)
    ensures receivedBits == DecodedPrefix(signal, |receivedBits|, spb, window, fps, spectrum)
    ensures trimmed <==> |signal| < |TRANSMITTED_BITS| * spb
    ensures report == Score(TRANSMITTED_BITS, receivedBits)
    ensures report.Failure? <==> |signal| < spb
  {
    receivedBits, trimmed := DecodeBits(signal, |TRANSMITTED_BITS|, spb, window, fps, spectrum);
    report := Evaluate(TRANSMITTED_BITS, receivedBits);
    if |signal| < spb {
      TruncatedCountIsWholeWindows(|signal|, |TRANSMITTED_BITS|, spb, 0);
    }
  }
}
