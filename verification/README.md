# Dendritic-cell anomaly detection of the RPi sink node

A model of the two analysis scripts that run a dendritic cell algorithm (DCA)
over sensor-node data of the RPi sink node:

- `centralized_dca_analysis.py` runs the deterministic DCA (dDCA) over every
  node's records from the sensor database. Per record it builds a danger
  signal from the eight fault indicators (plain sum). It builds a safe signal
  from sliding windows of the four use-case readings. Each term is a
  root-mean-square deviation divided by a window statistic, and the four terms
  are summed and clamped to [0,1]. As written, the T_air term is divided by its
  window's sum. The H_air term is measured from, and divided by, the T_air
  mean. Only the T_soil and H_soil terms are each window's own standard
  deviation over its own mean (see "## Findings"). Every live cell accumulates `csm = safe + danger` and
  `k = danger - 2·safe`, and a new cell joins the population. Once more than
  four cells are alive, the oldest one retires. The record's context is 1 if
  the retired cell's `k` is positive, otherwise 0. The script also holds the
  sign-magnitude fixed16 converters and the relative-difference helper
  `get_delta`.
- `centralized_dca_analysis-etb_exp.py` runs the experiment variant over one
  CSV file. Rows whose transmission failed are skipped. Danger is the
  indicator sum capped at 1. Safe is `exp(-max(σ₁..σ₄)·SAFE_SENS)` over the
  standard deviations of four windows of `STDDEV_N = 10` readings; the
  soil-temperature reading is always pushed as 0. Every live cell accumulates
  `danger - safe`. A new cell joins, and the oldest is dropped when more than
  `DC_N = 5` are alive. The context is the share of live cells whose
  accumulated value is non-negative.

Modules:

| module | file | contents |
|---|---|---|
| `FixedPoint` | fixed_point.dfy | `fixed16_to_float` / `float_to_fixed16` on unbounded integers |
| `RelativeDelta` | delta.dfy | `get_delta` |
| `Fifo` | fifo.dfy | append-then-`pop(0)` bounded queues |
| `Reals`, `Stats` | reals.dfy, stats.dfy | sums, means, variances, constant windows |
| `SlidingWindow` | sliding_window.dfy | the four reading windows and their relation to the reading stream |
| `Signals` | signals.dfy | indicators, both danger signals, `sqrt`/`exp` as parameters |
| `DDcaSafe` | ddca_safe.dfy | the dDCA safe signal, as written and corrected |
| `DDca` | ddca.dfy | the dDCA fold over one node's records |
| `EtbDca` | etb.dfy | the experiment script's gated fold over the CSV rows |

Each script is a loop that keeps state across iterations. Each loop is modelled
as a left fold (`DDca.Run`, `EtbDca.Run`) of a pure step function over the
record sequence. The lemmas relate every output of the fold to a closed form:
- the windows are the last N readings of the stream;
- cell `j` holds the sum of the signals since it was created;
- the context is decided by the cells alive at that step.

`DDca.Config` carries the window size, the retirement capacity and the
safe-signal formula, so the theorems about the fold hold for both the script
as written (`Scripted`) and the corrected configuration (`Intended`).

## Model

| member | source | states |
|---|---|---|
| FixedPoint.ToReal | source/centralized_dca_analysis.py:87-94 | the decoded value is non-positive when bit 15 is set and non-negative otherwise; its magnitude times 2^fBits is the low 15 bits |
| FixedPoint.FromReal | source/centralized_dca_analysis.py:96-105 | the encoded word fits in 16 bits; its sign bit is set exactly for negative inputs; its low 15 bits are the truncated scaled magnitude, wrapped to 15 bits |
| FixedPoint.DecodeEncode | source/centralized_dca_analysis.py:87-105 | every 16-bit word except the negative zero 0x8000 survives decode followed by encode |
| FixedPoint.NegativeZero | source/centralized_dca_analysis.py:87-105 | 0x8000 decodes to 0, which encodes back as 0x0000, so that word is the one round-trip exception |
| FixedPoint.EncodeDecodeTruncates | source/centralized_dca_analysis.py:87-105 | encode then decode keeps the sign and truncates the magnitude toward zero to within 2^-fBits, for magnitudes that fit in 15 bits |
| RelativeDelta.GetDelta | source/centralized_dca_analysis.py:113-123 | the delta is never negative; it is zero exactly when the values agree or the reference is zero; otherwise delta·abs(v1) is the absolute difference |
| Fifo.Offer | source/centralized_dca_analysis-etb_exp.py:326-332 | append then pop(0) past the capacity: the evicted element followed by the new queue is the old queue plus the new element; the length stays within the capacity; the newest element is last |
| SlidingWindow.TrackIsLast | source/centralized_dca_analysis.py:323-367 | the four windows, maintained push by push with `append` and one `pop(0)` past SAFE_N (STDDEV_N in the experiment script, lines 195-206), hold exactly the last n readings of each quantity, oldest first |
| SlidingWindow.PushReadingOf | source/centralized_dca_analysis-etb_exp.py:195-206 | pushing a record's readings onto the windows of a stream gives the windows of the extended stream |
| Signals.UncappedDanger | source/centralized_dca_analysis.py:299-319 | the dDCA danger of normalised indicators lies in [0,8], is zero exactly when no indicator fires, and is at least each indicator |
| Signals.CappedDanger | source/centralized_dca_analysis-etb_exp.py:264 | `min(1, sum)` never exceeds 1; it equals 1 exactly when the sum reaches 1, and equals the sum below that |
| DDcaSafe.Safe | source/centralized_dca_analysis.py:379-384 | the dDCA safe signal lies in [0,1] and is the term sum whenever that sum is already in [0,1] |
| DDcaSafe.SafeIsCappedTermSum | source/centralized_dca_analysis.py:379-384 | with sound sqrt the term sum is non-negative, so the clamp only ever caps at 1 |
| DDcaSafe.CorrectedTermIsCoefficientOfVariation | source/centralized_dca_analysis.py:323-334 | the corrected term is the window's standard deviation over its mean (0 when the mean is not positive), and depends on that window alone |
| DDcaSafe.CorrectedSafeZeroIff | source/centralized_dca_analysis.py:321-384 | the corrected safe signal is 0 exactly when every window is constant or has a non-positive mean |
| DDcaSafe.AsWrittenTAirTermScaledByLength | source/centralized_dca_analysis.py:354-357 | as written, the air-temperature term is the corrected term divided by the window length |
| DDcaSafe.AsWrittenTAirTermCounterexample | source/centralized_dca_analysis.py:379 | for the air-temperature window [1, 3], the term as written is smaller than the coefficient of variation |
| DDcaSafe.AsWrittenHAirCounterexample | source/centralized_dca_analysis.py:350-362 | steady readings (T_air 20, H_air 50) give a positive safe signal as written, and 0 when corrected |
| DDcaSafe.ZeroWindowsSafe | source/centralized_dca_analysis.py:379-384 | all-zero windows give a safe signal of 0 in both modes, the `if mu > 0 else 0` branch |
| DDca.RunAccumulates | source/centralized_dca_analysis.py:396-418 | after any record stream, live cell `j` holds the antigen of the record that created it and the sums of `csm` and `k` over every record since then |
| DDca.SignalRule | source/centralized_dca_analysis.py:285-387 | output `t` carries record `t`'s node as antigen, the uncapped danger of its indicators, and the safe formula applied to the last SAFE_N readings up to `t` |
| DDca.ContextRule | source/centralized_dca_analysis.py:415-425 | the context of record `t` is 1 exactly when a cell retires at `t` (t ≥ capacity) and the `k` summed over records t-capacity..t is positive; otherwise it is 0 |
| DDca.OutputRule | source/centralized_dca_analysis.py:285-425 | the whole output of record `t` in closed form: antigen, danger, safe and context together |
| DDca.SafeSignalRange | source/centralized_dca_analysis.py:379-387 | under any configuration using the script's safe formula, as written or corrected, every emitted safe signal lies in [0,1] |
| DDca.QuietContext | source/centralized_dca_analysis.py:394-425 | on a stream of records with all-zero readings and only the no-transmission indicator firing, every `k` is 1, so the context is 1 from the first retirement on and 0 before |
| DDca.ScriptedRetiresEarly | source/centralized_dca_analysis.py:416 | on five such quiet records, the fifth context is already 1 as written, but 0 with the declared DC_N = 10 |
| DDca.IntendedContext | source/centralized_dca_analysis.py:394-425 | with DC_N = 10 the first ten contexts are 0, and afterwards the context is 1 exactly when `k` summed over the retiring cell's lifetime is positive |
| EtbDca.ExpSafeRange | source/centralized_dca_analysis-etb_exp.py:269-313 | with sound sqrt/exp the safe signal lies in (0,1], and is 1 exactly when all four windows are constant |
| EtbDca.StdDevZeroIff | source/centralized_dca_analysis-etb_exp.py:269-278 | a window's standard deviation is non-negative, and zero exactly when the window is constant |
| EtbDca.ZeroWindowIgnored | source/centralized_dca_analysis-etb_exp.py:188 | a window of zeros never raises the maximum deviation, so only the other three windows decide it |
| EtbDca.NonNegative | source/centralized_dca_analysis-etb_exp.py:339-341 | the count is the number of positions holding a non-negative value (the cardinality of that index set); hence it is at most the population, the whole population exactly when all are non-negative, and 0 exactly when all are negative |
| EtbDca.Share | source/centralized_dca_analysis-etb_exp.py:339-342 | the context times the population is the number of positions holding a non-negative value (`state/len(dcs)`); it lies in [0,1], is 1 exactly when every live cell is non-negative, and 0 exactly when every live cell is negative |
| EtbDca.Gating | source/centralized_dca_analysis-etb_exp.py:156-162 | the loop over all rows, skipping those with `success == 0`, computes the same state and outputs as processing only the admitted rows, in order |
| EtbDca.RejectedRows | source/centralized_dca_analysis-etb_exp.py:159-162 | rows whose transmission failed change no state and emit nothing |
| EtbDca.OutputCount | source/centralized_dca_analysis-etb_exp.py:156-162 | the script emits one output per admitted row |
| EtbDca.FeedAccumulates | source/centralized_dca_analysis-etb_exp.py:321-329 | after any stream of admitted rows, live cell `j` holds the antigen of the row that created it and the sum of `danger - safe` since then |
| EtbDca.Population | source/centralized_dca_analysis-etb_exp.py:323-332 | the population holds min(number of admitted rows, DC_N) cells, so it is never empty once a row was admitted |
| EtbDca.SafeOfRow | source/centralized_dca_analysis-etb_exp.py:195-206 | the safe signal of row `t` is computed from the last STDDEV_N readings up to and including `t` |
| EtbDca.ContextRule | source/centralized_dca_analysis-etb_exp.py:321-342 | the context of row `t` is the share of non-negative values among the sums of `danger - safe` over the lifetimes of the DC_N youngest cells |
| EtbDca.OutputRule | source/centralized_dca_analysis-etb_exp.py:156-342 | per admitted row: the output count equals the admitted rows, and antigen, capped danger, safe over the last STDDEV_N readings, and the live-majority context are given in closed form |
| EtbDca.StreamSafe | source/centralized_dca_analysis-etb_exp.py:185-206 | on the windows of any admitted stream, the safe signal lies in (0,1], is 1 exactly when T_air, H_air and H_soil are constant, and ignores T_soil |
| EtbDca.ScriptSafe | source/centralized_dca_analysis-etb_exp.py:269-314 | the safe signal emitted for admitted row `t` is `exp(-max(σ₁..σ₄)·SAFE_SENS)` over the windows that row completes |
| EtbDca.ScriptSafeSoilless | source/centralized_dca_analysis-etb_exp.py:188-313 | the emitted safe signal equals the same formula over the T_air, H_air and H_soil deviations alone |
| EtbDca.ScriptSafeRange | source/centralized_dca_analysis-etb_exp.py:269-314 | every emitted safe signal lies in (0,1], and is 1 exactly when the T_air, H_air and H_soil windows are constant |

## Left out

- Floating point. Readings, indicators and signals are `real`. NaN and infinities, IEEE rounding, and the `OverflowError`/`ValueError` that `int()` raises in `float_to_fixed16` on an infinite or NaN input are not modelled.
- The fraction width is a parameter `fBits` of the fixed16 converters. The script's `_10to6` wrappers (centralized_dca_analysis.py:107-111) fix it to 6; every fixed16 lemma holds for any width, 6 included.
- `round(…, 2)` on every reading and indicator (centralized_dca_analysis.py:252-277, centralized_dca_analysis-etb_exp.py:185-224) is not modelled; the model starts from the rounded values.
- `math.sqrt` and `math.exp` are the parameters `Signals.Elementary`. The proofs use only the facts `Sound()` lists: sqrt(0) = 0, sqrt is positive on positives, exp(0) = 1, and exp lies in (0,1) on negatives.
- The CSV header skip (`line_count`) and the `int()`/`float()` parse failures of the experiment script (centralized_dca_analysis-etb_exp.py:155-167) are not modelled. Rows arrive already parsed, and `success` is an integer.
- The commented-out hex antigen built from the fixed16 readings is not modelled; the antigen is the node id in both scripts. The fixed16 converters are modelled on their own.
- The per-node loop, the MySQL query, the time-period selection, the `hour_rounder` time handling and the timestamps are not modelled. `DDca.Run` is the fold over one node's records, starting from empty windows and no cells, as the script does for each node.
- The result output (CSV writing, plots, statistics after the loop) and the argument checks are left out as I/O.
- `DDca.SafeSignal` and `EtbDca.SafeSignal` return 0 on windows that are not ready. This `else` branch has no counterpart in the source, where an empty window would raise `ZeroDivisionError` (centralized_dca_analysis.py:329, centralized_dca_analysis-etb_exp.py:272). The branch is unreachable: a step pushes a reading before it computes the safe signal, so the windows are always ready (`PushReading` ensures `Ready()`).
- EtbDca.ScriptSafe: the script's safe formula is stated over the windows of each admitted row through three lemmas: `ScriptSafe` (four deviations), `ScriptSafeSoilless` (three) and `ScriptSafeRange` (range and constancy). No single lemma states all three facts at once.

## Findings

| source | as written | input that shows it | evidently intended | confidence | as-written member | corrected member |
|---|---|---|---|---|---|---|
| source/centralized_dca_analysis.py:416 | a cell retires once more than 4 cells are alive, ignoring `DC_N = 10` | five records with all-zero readings and `x_nt = 1`: the fifth context is already 1 | cells live for `DC_N` records, so the first ten contexts are 0 | not executed; read from the code, medium | DDca.ScriptedRetiresEarly | DDca.IntendedContext |
| source/centralized_dca_analysis.py:354-357 | the H_air deviation is measured from, and divided by, the mean of the T_air window | a single record with T_air 20 and H_air 50 (all windows constant): safe is positive | each window is centred on and normalised by its own mean, so steady readings give safe 0 | not executed; read from the code, high | DDcaSafe.AsWrittenHAirCounterexample | DDcaSafe.CorrectedSafeZeroIff |
| source/centralized_dca_analysis.py:379 | `safe1_mu` was overwritten at lines 354-356 by the window's sum, so the T_air term is divided by the sum, not the mean | T_air window [1, 3]: the term is σ/4 instead of σ/2 | the T_air term is the coefficient of variation σ/μ | not executed; read from the code, high | DDcaSafe.AsWrittenTAirTermCounterexample | DDcaSafe.CorrectedTermIsCoefficientOfVariation |
