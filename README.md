# BFSK screen-translucency link: the decision logic, modelled in Dafny

The repository sends a bit string over a screen. A transmitter shows a white
overlay and varies its opacity with a sine tone: 5 Hz for a `'0'` bit and
10 Hz for a `'1'` bit, for 0.4 s per bit. A receiver reads a camera recording
of the screen. It turns the recording into one intensity sample per frame,
removes the DC level, and cuts the signal into fixed-length per-bit windows.
For each window it sums the spectrum magnitudes in a ±1 Hz band around each
carrier and decides the bit by comparing the two energies. Finally it scores
the decoded bits against the transmitted ones: bit error rate and correct bits
per second.

This project models the discrete part of both scripts. The numerics around it
enter as inputs:

- `common.dfy`, module `Common`: `Option`, `Result`, `Min`, `Abs` and an exact
  `Sum` over reals.
- `transmitter.dfy`, module `Transmitter`: `get_current_bit`, `compute_alpha`
  and the per-frame arithmetic of `main`. These are pure functions with lemmas.
  The sine function is a parameter of type `real -> real`.
- `receiver.dfy`, module `Receiver`: the receiver script's lines 78 and
  85-137, lifted into functions and methods:
  - DC removal.
  - Segmentation into windows.
  - `np.where` band selection over the `rfftfreq` bin frequencies.
  - Band energies and the tie-to-`'0'` decision.
  - The classification loop, as the method `DecodeBits`. It appends to a
    sequence and breaks at the first window that would run past the signal.
  - The counting loop for correct bits, as the method `CountCorrect`.
  - The BER and data-rate report.

  The Hann window is a sequence of coefficients. `np.abs(rfft(.))` is a
  parameter `spectrum: seq<real> -> seq<real>`. The model assumes only what
  every magnitude spectrum satisfies (`IsMagnitudeSpectrum`): a length-`L`
  input gives `L / 2 + 1` values, all of them non-negative.

Floating-point values are modelled as exact `real`s. Python's `int()` on a
float is modelled as truncation toward zero (`Transmitter.Truncate`).

The model follows the scripts as written; in particular:

- Every bit value other than `'0'` selects `FREQ_1`, not only `'1'`.
- The receive loop keeps only the decided symbol. `Classify` still returns
  both band energies beside it.
- Scoring with no overlapping bits is a division by zero in the script. Here it
  is the error result `Failure(EmptyComparison)`.

## Model

| member | source | states |
|---|---|---|
| `Transmitter.CurrentBit` | transmitter_bfsk_alpha.py:41-52 | The result is `None` exactly when `t >= len(bit_string) * bit_duration`. Otherwise the index is below `len(bit_string)`, the value is `bit_string[index]`, and `index * d <= t < (index + 1) * d`. |
| `Transmitter.CurrentBitIsTheSlotOfT` | transmitter_bfsk_alpha.py:48-50 | If some `k < len` satisfies `k * d <= t < (k + 1) * d`, then `get_current_bit` returns `(k, bit_string[k])`. So the index is the unique slot containing `t`. |
| `Transmitter.FloorSlot` | transmitter_bfsk_alpha.py:48 | For `t >= 0` and `d > 0`, `int(t // d)` is a non-negative `k` with `k * d <= t < (k + 1) * d`. |
| `Transmitter.FloorBelowIff` | transmitter_bfsk_alpha.py:48-49 | `int(t // d) < n` holds exactly when `t < n * d`. |
| `Transmitter.Carrier` | transmitter_bfsk_alpha.py:61-64 | The carrier is `FREQ_0` exactly for `'0'` and `FREQ_1` exactly for every other value. |
| `Transmitter.Clamp` | transmitter_bfsk_alpha.py:70 | The result lies in [0, 1]. It equals the input when the input is in [0, 1], is 0 below that range and 1 above it. |
| `Transmitter.RawAlpha` | transmitter_bfsk_alpha.py:67 | For a sine value in [-1, 1], the unclamped level lies in `[BASE_ALPHA - DELTA_ALPHA, BASE_ALPHA + DELTA_ALPHA]`. It equals `BASE_ALPHA` exactly when the sine is zero. |
| `Transmitter.ComputeAlpha` | transmitter_bfsk_alpha.py:55-71 | The opacity is always in [0, 1]. It equals the raw sine level whenever that level is already in [0, 1]. A raw level below 0 gives 0, and one above 1 gives 1. |
| `Transmitter.ConfiguredAlphaIsNeverClamped` | transmitter_bfsk_alpha.py:67-70 | With the configured levels 0.5 ± 0.1 and a sine value in [-1, 1], the opacity stays in [0.4, 0.6]. The clamp never changes it. |
| `Transmitter.Truncate` | transmitter_bfsk_alpha.py:119 | `int(x)` rounds toward zero: `n <= x < n + 1` for `x >= 0`, and `n - 1 < x <= n` for `x < 0`. |
| `Transmitter.AlphaByte` | transmitter_bfsk_alpha.py:119 | For `alpha_norm` in [0, 1], `int(alpha_norm * 255)` is in [0, 255] and is the floor of `alpha_norm * 255`. It is 255 exactly when `alpha_norm` is at least 1 and below 256/255. |
| `Transmitter.TransmitFrame` | transmitter_bfsk_alpha.py:104-119 | One frame is `None` (finished) exactly when `t >= 16 * 0.4`. Otherwise it has the on-air bit and `t_local = t - index * BIT_DURATION` in `[0, BIT_DURATION)`. The opacity is `compute_alpha(t_local, bit_value)`, in [0, 1]. The alpha byte is `int(alpha_norm * 255)`, in [0, 255]. |
| `Receiver.Mean` | receiver_bfsk_decode.py:78 | `np.mean` times the length gives back the sum. |
| `Receiver.Shift` | receiver_bfsk_decode.py:78 | Subtracting a scalar keeps the length and lowers each sample by exactly that scalar. |
| `Receiver.SumShift` | receiver_bfsk_decode.py:78 | Subtracting a constant `c` from every sample lowers the sum by `len * c`. |
| `Receiver.RemoveDC` | receiver_bfsk_decode.py:78 | Mean subtraction shifts every sample by the same amount, keeps the length, and leaves a signal that sums to zero. |
| `Receiver.WindowStart` | receiver_bfsk_decode.py:96 | `start = i * samples_per_bit` is a multiple of `samples_per_bit`, and dividing it by `samples_per_bit` gives back `i`. |
| `Receiver.WindowCount` | receiver_bfsk_decode.py:95-100 | The loop classifies at most `num_bits` windows, and they fit in the signal. When it stops early, the next window would not fit. |
| `Receiver.TruncatedIffShort` | receiver_bfsk_decode.py:95-100 | Fewer than `num_bits` bits are decoded exactly when `N < num_bits * samples_per_bit`. |
| `Receiver.TruncatedCountIsWholeWindows` | receiver_bfsk_decode.py:95-100 | Suppose `k < num_bits` and `k * spb <= N < (k + 1) * spb`. Then exactly `k` bits are decoded. |
| `Receiver.WindowsInsideAndDisjoint` | receiver_bfsk_decode.py:96-98 | Take two classified windows `i < j`. Window `i` ends no later than window `j` starts, and window `j` ends within the signal. |
| `Receiver.SampleInExactlyOneWindow` | receiver_bfsk_decode.py:95-98 | Each sample before `count * spb` lies in window `s / spb`, which was classified. It lies in no other window. |
| `Receiver.Segment` | receiver_bfsk_decode.py:96-102 | `signal[start:end]` for window `i` has exactly `samples_per_bit` samples. |
| `Receiver.Taper` | receiver_bfsk_decode.py:102 | The element-wise product with the window keeps the segment's length. |
| `Receiver.BinFrequency` | receiver_bfsk_decode.py:106 | Bin `k` lies at the frequency `f` with `f * L = k * fps`. It is non-negative, and at most the Nyquist frequency `fps / 2` for `k <= L / 2`. |
| `Receiver.BinFrequencyAscending` | receiver_bfsk_decode.py:106 | With `fps > 0`, a later bin lies at a strictly higher frequency. |
| `Receiver.BinFrequencies` | receiver_bfsk_decode.py:106 | `rfftfreq(L, 1/fps)` has `L / 2 + 1` entries. Entry `k` is bin `k`'s frequency, and the entries are strictly ascending when `fps > 0`. |
| `Receiver.InBand` | receiver_bfsk_decode.py:109-110 | `(freqs >= c - tol) & (freqs <= c + tol)` holds exactly when `abs(freq - c) <= tol`. |
| `Receiver.BandIndices` | receiver_bfsk_decode.py:109-110 | A bin is selected exactly when its frequency lies in `[center - tol, center + tol]`. Both edges are inclusive. Every selected index is a valid bin, and the indices are strictly ascending. |
| `Receiver.SumAt` | receiver_bfsk_decode.py:112-113 | A sum of non-negative magnitudes at the selected bins is non-negative. |
| `Receiver.SelectedSumIsBandEnergy` | receiver_bfsk_decode.py:109-113 | `spectrum[idx].sum()` over the `np.where` indices equals the sum of the magnitudes of all bins in the band. |
| `Receiver.BinSelectedIffInBand` | receiver_bfsk_decode.py:106-110 | For `k <= L / 2`, bin `k` is selected exactly when `FREQ - tol <= k * fps / L <= FREQ + tol`. |
| `Receiver.BandsShareNoBin` | receiver_bfsk_decode.py:109-110 | When `tol < abs(f1 - f0) / 2`, no bin is selected for both bands. |
| `Receiver.Decide` | receiver_bfsk_decode.py:115 | The bit is `'0'` exactly when `energy0 >= energy1`, so ties give `'0'`. It is `'1'` exactly when `energy0 < energy1`. |
| `Receiver.Classify` | receiver_bfsk_decode.py:102-115 | Both energies are non-negative. Each equals the reference band energy of the tapered segment's spectrum around its carrier. The bit is `'0'` exactly when `energy0 >= energy1`. |
| `Receiver.WindowBit` | receiver_bfsk_decode.py:102-115 | Window `i`'s bit is `'0'` exactly when its reference band energy around `FREQ_0` is at least that around `FREQ_1`. Otherwise it is `'1'`. |
| `Receiver.LoopExit` | receiver_bfsk_decode.py:95-100 | The loop exits either after `num_bits` windows or at the first window that does not fit. Its index is then the window count, and the warning is printed exactly when `N < num_bits * spb`. |
| `Receiver.DecodedPrefix` | receiver_bfsk_decode.py:95-116 | The decisions for windows `0 .. count - 1` form a sequence of length `count`. Entry `i` is the decision for window `i`, and that window lies inside the signal. |
| `Receiver.DecodeBits` | receiver_bfsk_decode.py:95-116 | The loop returns `min(num_bits, N / spb)` bits, each the decision for its window, in window order. It reports trimming exactly when `N < num_bits * spb`. |
| `Receiver.MatchCount` | receiver_bfsk_decode.py:127-130 | The number of agreeing positions below `n` is at most `n`. |
| `Receiver.AllMatchIff` | receiver_bfsk_decode.py:127-133 | The count of agreeing positions equals `n` exactly when every compared position agrees. |
| `Receiver.CountCorrect` | receiver_bfsk_decode.py:126-130 | The counting loop returns the number of agreeing positions below `min_len`, which is at most both lengths. |
| `Receiver.BerBounds` | receiver_bfsk_decode.py:133 | `1 - correct / total` lies in [0, 1]. It is 0 exactly when `correct == total`. |
| `Receiver.RateBounds` | receiver_bfsk_decode.py:137 | `correct / (total * BIT_DURATION)` times the time used gives back `correct`. It lies in `[0, 1 / BIT_DURATION]`. |
| `Receiver.Score` | receiver_bfsk_decode.py:126-137 | The result is an error exactly when `min_len == 0`. Otherwise `compared = min_len` and `correct` counts agreements. BER is `1 - correct / compared`. It is in [0, 1] and is 0 exactly when all compared bits agree. The data rate is `correct / (min_len * BIT_DURATION)` and lies in `[0, 2.5]`. |
| `Receiver.Evaluate` | receiver_bfsk_decode.py:126-137 | The script's scoring steps, counting loop included, produce exactly `Score`. |
| `Receiver.LastBitFlippedScore` | receiver_bfsk_decode.py:126-137 | `"1011001110001111"` scored against `"1011001110001110"` gives 16 compared, 15 correct, BER 0.0625 and a data rate of 15 / 6.4 bits per second. |
| `Receiver.Receive` | receiver_bfsk_decode.py:85-137 | Decoding `len(TRANSMITTED_BITS)` bits and scoring them: the bit count is the window count, and the bits are the decisions for windows `0 .. count - 1`, in order. Trimming happens exactly when the signal is short. The report is `Score` of the decoded bits, and it is an error exactly when not even one window fits. |

## Left out

- The pygame window, event handling, fonts, drawing, `clock.tick`, `time.time` and the `print` calls: UI and wall-clock plumbing. The elapsed time `t` is a parameter of `TransmitFrame`.
- `math.sin` is a floating-point library call. It is the parameter `sin`. Only `ConfiguredAlphaIsNeverClamped` assumes its value is in [-1, 1].
- Video capture, grayscale conversion and ROI averaging with OpenCV (receiver lines 37-75): I/O over image data. The model starts from the sample sequence.
- Division by `np.std` (receiver line 79) needs a square root, and a zero deviation gives NaN/inf in NumPy rather than an error. Only the mean subtraction is modelled. The `float32` conversion is not modelled either.
- The Hann window coefficients and the FFT itself: floating-point numerics. The window is an input sequence, and the magnitude spectrum is an abstract function constrained only by `IsMagnitudeSpectrum`.
- `int(round(BIT_DURATION * fps))` uses Python's banker's rounding on floats. `samples_per_bit` is a given positive integer. A zero value would make `rfft` fail on an empty segment, and that case is not modelled.
- CurrentBit: requires `t >= 0` and `bit_duration > 0`. For a negative `t`, Python indexes from the end of the string, and a zero duration raises an error. Neither case is modelled.
- Float rounding throughout: all arithmetic is exact `real` arithmetic.
- The noiseless round trip and the single-tone energy claims depend on the behaviour of a real sine and FFT, not on the discrete logic. They are not stated.
