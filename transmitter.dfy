/**
 * The decision logic of the BFSK alpha transmitter: which bit is on air at a
 * given elapsed time, which carrier that bit selects, the clamped overlay
 * opacity, and the 0..255 alpha byte handed to the renderer.
 *
 * The pygame window, the event loop and the wall clock are not modelled; the
 * sine function is a parameter, since it is a floating-point library call.
 */
module Transmitter {
  import opened Common

  // Configuration, as in the transmitter script.
  const BIT_STRING: string := "1011001110001111"
  const BIT_DURATION: real := 0.4
  const FREQ_0: real := 5.0
  const FREQ_1: real := 10.0
  const BASE_ALPHA: real := 0.5
  const DELTA_ALPHA: real := 0.1
  /** `math.pi`, to the digits Python prints for it. */
  const PI: real := 3.141592653589793

  /** The `(bit_index, bit_value)` pair returned for a bit still on air. */
  datatype BitSlot = BitSlot(index: nat, value: char)

  /** What one iteration of the render loop computes before drawing. */
  datatype Frame = Frame(index: nat, value: char, tLocal: real, alpha: real, alpha255: int)

  // ---------------------------------------------------------------------------
  // Arithmetic helpers
  // ---------------------------------------------------------------------------

  lemma MulMonotone(a: real, b: real, d: real)
    requires a <= b && d > 0.0
    ensures a * d <= b * d
  {
  }

  lemma MulStrictMonotone(a: real, b: real, d: real)
    requires a < b && d > 0.0
    ensures a * d < b * d
  {
  }

  /** Dividing by a positive duration preserves `<` in both directions. */
  lemma DivBelowIff(t: real, d: real, x: real)
    requires d > 0.0
    ensures t / d < x <==> t < x * d
  {
    var q := t / d;
    assert q * d == t;
    if q < x {
      MulStrictMonotone(q, x, d);
    } else {
      MulMonotone(x, q, d);
    }
  }

  /** `int(t // d)` for `t >= 0` and `d > 0` is the slot `k` with `k*d <= t < (k+1)*d`. */
  lemma FloorSlot(t: real, d: real)
    requires t >= 0.0 && d > 0.0
    ensures (t / d).Floor >= 0
    ensures (t / d).Floor as real * d <= t < ((t / d).Floor + 1) as real * d
  {
    var k := (t / d).Floor;
    DivBelowIff(t, d, 0.0);
    DivBelowIff(t, d, k as real);
    DivBelowIff(t, d, (k + 1) as real);
  }

  /** The slot index is below `n` exactly when `t` comes before `n` whole slots. */
  lemma FloorBelowIff(t: real, d: real, n: nat)
    requires t >= 0.0 && d > 0.0
    ensures (t / d).Floor < n <==> t < n as real * d
  {
    DivBelowIff(t, d, n as real);
  }

  // ---------------------------------------------------------------------------
  // get_current_bit
  // ---------------------------------------------------------------------------

  /**
   * The bit on air at elapsed time `t`: its index is `floor(t / bitDuration)`,
   * and `None` once that index has run past the end of the bit string.
   */
  function CurrentBit(t: real, bitDuration: real, bitString: string): (r: Option<BitSlot>)
    requires t >= 0.0 && bitDuration > 0.0
    ensures r.None? <==> t >= |bitString| as real * bitDuration
    ensures r.Some? ==> r.value.index < |bitString| && r.value.value == bitString[r.value.index]
    ensures r.Some? ==>
              r.value.index as real * bitDuration <= t < (r.value.index + 1) as real * bitDuration
  {
    FloorSlot(t, bitDuration);
    FloorBelowIff(t, bitDuration, |bitString|);
    var bitIndex := (t / bitDuration).Floor;
    if bitIndex < |bitString| then Some(BitSlot(bitIndex, bitString[bitIndex])) else None
  }

  /** The reported index is the one and only slot of width `bitDuration` that contains `t`. */
  lemma CurrentBitIsTheSlotOfT(t: real, bitDuration: real, bitString: string, k: nat)
    requires bitDuration > 0.0 && k < |bitString|
    requires k as real * bitDuration <= t < (k + 1) as real * bitDuration
    ensures t >= 0.0
    ensures CurrentBit(t, bitDuration, bitString) == Some(BitSlot(k, bitString[k]))
  {
    MulMonotone(0.0, k as real, bitDuration);
    DivBelowIff(t, bitDuration, k as real);
    DivBelowIff(t, bitDuration, (k + 1) as real);
    assert (t / bitDuration).Floor == k;
  }

  // ---------------------------------------------------------------------------
  // compute_alpha
  // ---------------------------------------------------------------------------

  /** The carrier frequency a bit value selects: `FREQ_0` for '0', `FREQ_1` for anything else. */
  function Carrier(bitValue: char): (freq: real)
    ensures freq == FREQ_0 <==> bitValue == '0'
    ensures freq == FREQ_1 <==> bitValue != '0'
  {
    if bitValue == '0' then FREQ_0 else FREQ_1
  }

  /** `max(0.0, min(1.0, x))`. */
  function Clamp(x: real): (r: real)
    ensures 0.0 <= r <= 1.0
    ensures 0.0 <= x <= 1.0 ==> r == x
    ensures x < 0.0 ==> r == 0.0
    ensures x > 1.0 ==> r == 1.0
  {
    var upper := if x < 1.0 then x else 1.0;
    if upper > 0.0 then upper else 0.0
  }

  /**
   * The unclamped level `BASE_ALPHA + DELTA_ALPHA * sin(2*pi*f*tLocal)`: the
   * carrier's sine, scaled into a band of half-width `DELTA_ALPHA` around `BASE_ALPHA`.
   */
  function RawAlpha(tLocal: real, bitValue: char, sin: real -> real): (level: real)
    ensures -1.0 <= sin(2.0 * PI * Carrier(bitValue) * tLocal) <= 1.0 ==>
              BASE_ALPHA - DELTA_ALPHA <= level <= BASE_ALPHA + DELTA_ALPHA
    ensures level == BASE_ALPHA <==> sin(2.0 * PI * Carrier(bitValue) * tLocal) == 0.0
  {
    BASE_ALPHA + DELTA_ALPHA * sin(2.0 * PI * Carrier(bitValue) * tLocal)
  }

  /** The normalised overlay opacity for a bit at local time `tLocal`, always within [0, 1]. */
  function ComputeAlpha(tLocal: real, bitValue: char, sin: real -> real): (alpha: real)
    ensures 0.0 <= alpha <= 1.0
    ensures 0.0 <= RawAlpha(tLocal, bitValue, sin) <= 1.0 ==> alpha == RawAlpha(tLocal, bitValue, sin)
    ensures RawAlpha(tLocal, bitValue, sin) < 0.0 ==> alpha == 0.0
    ensures RawAlpha(tLocal, bitValue, sin) > 1.0 ==> alpha == 1.0
  {
    Clamp(RawAlpha(tLocal, bitValue, sin))
  }

  /**
   * With the configured levels and a sine value in [-1, 1], the raw level stays
   * within [0.4, 0.6], so the clamp never changes it.
   */
  lemma ConfiguredAlphaIsNeverClamped(tLocal: real, bitValue: char, sin: real -> real)
    requires -1.0 <= sin(2.0 * PI * Carrier(bitValue) * tLocal) <= 1.0
    ensures 0.4 <= ComputeAlpha(tLocal, bitValue, sin) <= 0.6
    ensures ComputeAlpha(tLocal, bitValue, sin) == RawAlpha(tLocal, bitValue, sin)
  {
  }

  // ---------------------------------------------------------------------------
  // The per-frame arithmetic of main
  // ---------------------------------------------------------------------------

  /** Python's `int()` on a float: truncation toward zero. */
  function Truncate(x: real): (n: int)
    ensures x >= 0.0 ==> n >= 0 && n as real <= x < n as real + 1.0
    ensures x < 0.0 ==> n <= 0 && n as real - 1.0 < x <= n as real
  {
    if x >= 0.0 then x.Floor else -((-x).Floor)
  }

  /** `int(alpha_norm * 255)`: a byte for every normalised opacity. */
  function AlphaByte(alphaNorm: real): (b: int)
    ensures 0.0 <= alphaNorm <= 1.0 ==> 0 <= b <= 255
    ensures 0.0 <= alphaNorm ==> b as real <= alphaNorm * 255.0 < b as real + 1.0
    ensures b == 255 <==> 1.0 <= alphaNorm < 256.0 / 255.0
  {
    Truncate(alphaNorm * 255.0)
  }

  /**
   * One iteration of the render loop at elapsed time `t`: `None` when the
   * transmission is finished, otherwise the bit on air, the time since that
   * bit started, its opacity and the alpha byte.
   */
  function TransmitFrame(t: real, sin: real -> real): (f: Option<Frame>)
    requires t >= 0.0
    ensures f.None? <==> t >= |BIT_STRING| as real * BIT_DURATION
    ensures f.Some? ==> f.value.index < |BIT_STRING| && f.value.value == BIT_STRING[f.value.index]
    ensures f.Some? ==> 0.0 <= f.value.tLocal < BIT_DURATION
    ensures f.Some? ==> t == f.value.index as real * BIT_DURATION + f.value.tLocal
    ensures f.Some? ==> f.value.alpha == ComputeAlpha(f.value.tLocal, f.value.value, sin)
    ensures f.Some? ==> f.value.alpha255 == AlphaByte(f.value.alpha)
    ensures f.Some? ==> 0.0 <= f.value.alpha <= 1.0 && 0 <= f.value.alpha255 <= 255
  {
    match CurrentBit(t, BIT_DURATION, BIT_STRING)
    case None => None
    case Some(slot) =>
      var tLocal := t - slot.index as real * BIT_DURATION;
      var alpha := ComputeAlpha(tLocal, slot.value, sin);
      Some(Frame(slot.index, slot.value, tLocal, alpha, AlphaByte(alpha)))
  }
}
