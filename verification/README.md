# Exchange-rate favorability scoring and history, in Dafny

This project models the two components of the WhatsApp exchange-rate bot
that hold its logic and proves properties of them:

- **Favorability scoring** (`src/math/scoring.ts`, module `Scoring` in
  `scoring.dfy`). `scoreFavorability` turns a series of rates into a score
  record. It takes the newest `lookback` samples as the window. It ranks
  the newest sample among the others with a mid-point percentile rank that
  gives ties half credit. It splits 100 points between buyer and seller.
  When momentum is enabled, it compares a 7-period EMA with a 28-period EMA
  inside a ±0.1% band and boosts the side the trend favours. It computes a
  z-score that is clamped and guarded by a relative epsilon. Each score
  gets a label from a five-step ladder.
- **Bounded, gap-deduplicated history** (`src/math/history.ts`, module
  `History` in `history.dfy`). `loadFx` reads a pair's document from the
  key-value store under `"fx:" + pair`, or makes up an empty one.
  `appendFx` keeps a new sample only if it is more than `MIN_GAP_MS` from
  the last stored sample. It trims the list to the newest `HISTORY_MAX`
  samples and always stamps `updatedAt`. Then it writes the document back.

`wrappers.dfy` holds the `Option` type both modules use.

Modelling choices:

- Numbers are `real`.
- `Math.round(x)` is `floor(x + 0.5)`.
- `Math.sqrt` is a function parameter `sqrt`. The facts that depend on its
  meaning assume `IsSqrt(sqrt)`: for x ≥ 0, `sqrt(x)` is non-negative and
  its square is x. The clauses of `ZScore`'s own contract (its range and
  its zero cases) need no such assumption.
- The environment settings become explicit values. `FX_LOOKBACK_SAMPLES`,
  `FX_MOMENTUM_WEIGHT` and `FX_Z_MAX` form a `Config` with `lookback >= 1`
  and `zMax >= 0`. `FX_HISTORY_MAX_SAMPLES` and `MIN_GAP_MS` are
  constructor parameters of `FxStore`, with `historyMax >= 1` and
  `minGapMs >= 0`.
- Timestamps are integer milliseconds. The empty `updatedAt` of a new
  document is `None`.
- The key-value store is a `map<string, Entry>`. An entry is either a
  parsed document or `Unreadable`. A missing key and an unreadable payload
  both load as absent, as `getJSON` treats them
  (`src/utils/storage.ts:37-41`).
- The band names `Best`, `Good`, `Neutral`, `Poor` and `Worst` stand for
  the five emoji that `label` returns. `Glyph` gives each band's emoji.

The percentile rank never reaches 0 or 1 (`MidRankInside`). A value above
all n earlier samples ranks (n + 0.5)/(n + 1). For example, the series
[100, 102, 104, 103] followed by 105 gets 0.9, which scores buyer 10 and
seller 90 (`ScoreOfNewHigh`).

## Model

| member | source | states |
|---|---|---|
| `Scoring.Round` | src/math/scoring.ts:58 | `Math.round` gives an integer within half a unit of its argument: x − 0.5 < r ≤ x + 0.5 |
| `Scoring.Clamp01` | src/math/scoring.ts:29 | the result is in [0, 1], equals its argument inside [0, 1], and is 0 below and 1 above |
| `Scoring.ClampZ` | src/math/scoring.ts:30 | the result is in [−zMax, zMax], equals its argument inside that range, saturates at zMax above it and at −zMax below it, and keeps the argument's sign when non-zero |
| `Scoring.Mean` | src/math/scoring.ts:15 | an empty list has mean 0 (the divisor is `Math.max(len, 1)`); otherwise mean × length is the sum |
| `Scoring.MeanBetween` | src/math/scoring.ts:15 | the mean of a non-empty list lies between any lower and upper bounds of its elements |
| `Scoring.VarianceNonNegative` | src/math/scoring.ts:16-21 | the sample variance that `std` takes the root of is never negative |
| `Scoring.Std` | src/math/scoring.ts:16-21 | fewer than two elements give 0; otherwise, with a true square root, the result is non-negative and its square is the sample variance (denominator n − 1) |
| `Scoring.Epsilon` | src/math/scoring.ts:82 | the dispersion floor is at least 1e-9 and at least \|mean\|·1e-6, and equals one of them |
| `Scoring.ZScore` | src/math/scoring.ts:77-84 | \|z\| ≤ zMax always; z = 0 when the base has fewer than 2 elements or its std is below the epsilon |
| `Scoring.StdGuardIsVarianceGuard` | src/math/scoring.ts:16-21 | with a true square root, the guard `s >= EPS` holds exactly when variance ≥ EPS² |
| `Scoring.ZScoreOfConstantBase` | src/math/scoring.ts:78-84 | a base whose elements are all equal gives z = 0, whatever the current value |
| `Scoring.ZScoreStandardises` | src/math/scoring.ts:83 | past the guard and within the cap, z is the deviation from the mean in standard deviations: z·s = current − mean |
| `Scoring.ZScoreResponds` | src/math/scoring.ts:79-83 | with a true square root, zMax > 0 and a base whose variance passes the guard, a current value above the mean gives z > 0 and one below gives z < 0 |
| `Scoring.ZScoreSign` | src/math/scoring.ts:83 | a positive z means the current value is above the base mean; a negative z means it is below |
| `Scoring.Percentile` | src/math/scoring.ts:31-41 | an empty base gives 0.5; the percentile rank always lies strictly between 0 and 1 |
| `Scoring.PercentileIsMidRank` | src/math/scoring.ts:39-40 | for a non-empty base the percentile equals (lt + 0.5·eq + 0.5)/(n + 1), so `clamp01` has no effect |
| `Scoring.PercentileMonotone` | src/math/scoring.ts:34-40 | a larger current value never gets a smaller percentile against the same base |
| `Scoring.PercentileAboveAll` | src/math/scoring.ts:34-40 | a value above every base element gets the top rank (n + 0.5)/(n + 1) |
| `Scoring.PercentileRank` | src/math/scoring.ts:31-41 | the counting loop returns the percentile of the value among the base, strictly inside (0, 1) |
| `Scoring.Smoothing` | src/math/scoring.ts:24 | the smoothing factor 2/(period + 1) is positive, and at most 1 for a period of 1 or more |
| `Scoring.EmaOf` | src/math/scoring.ts:24-27 | the EMA seeded at the first element and folded left; with 0 ≤ k ≤ 1 a series of non-negative rates has a non-negative EMA (`EmaBetween` gives the general bounds) |
| `Scoring.EmaBetween` | src/math/scoring.ts:22-28 | the EMA of a non-empty series stays between any bounds of its elements |
| `Scoring.EmaOfConstant` | src/math/scoring.ts:22-28 | the EMA of a constant series is that constant |
| `Scoring.Ema` | src/math/scoring.ts:22-28 | the loop gives no value (the source's NaN) exactly for an empty series; otherwise the left fold e ← x·k + e·(1 − k) seeded at the first element |
| `Scoring.TrendOf` | src/math/scoring.ts:65-66 | the first-match test of the two EMAs against the ±0.1% band; `TrendBands` states its three bands |
| `Scoring.MomentumTrend` | src/math/scoring.ts:61-67 | the trend is flat unless the weight is positive and the window holds at least ten samples |
| `Scoring.TrendBands` | src/math/scoring.ts:65-66 | for a positive slow EMA: up iff e7 > e28·1.001, down iff e7 < e28·0.999, flat in between |
| `Scoring.ConstantWindowIsFlat` | src/math/scoring.ts:61-67 | a window that holds one non-negative value throughout shows no trend |
| `Scoring.Baseline` | src/math/scoring.ts:58-59 | buyer is the rounded (1 − p)·100 and seller is 100 − buyer; they sum to 100, and both are in [0, 100] when p is in [0, 1] |
| `Scoring.Boost` | src/math/scoring.ts:69 | min(100, round(score·(1 + w))): below the cap the result is within half a unit of score·(1 + w); it is 100 exactly when score·(1 + w) ≥ 99.5; it never lowers the score |
| `Scoring.Adjust` | src/math/scoring.ts:68-74 | up sets the seller to the boosted seller score and down sets the buyer to the boosted buyer score, the other side taking the rest; the scores still sum to 100 and lie in [0, 100]; flat changes nothing |
| `Scoring.Label` | src/math/scoring.ts:43-49 | the first-match ladder gives five disjoint bands: ≥ 70, [55, 70), (45, 55), (30, 45] and ≤ 30 |
| `Scoring.GlyphDistinct` | src/math/scoring.ts:44-48 | the five bands are shown as five different emoji |
| `Scoring.LabelMirror` | src/math/scoring.ts:43-49 | the mixed `>=`/`>` boundaries make the ladder symmetric: the label of 100 − x is the mirror of the label of x |
| `Scoring.LabelMonotone` | src/math/scoring.ts:43-49 | a higher score never gets a lower label |
| `Scoring.Window` | src/math/scoring.ts:52 | the window is the last min(\|series\|, lookback) elements of the series |
| `Scoring.Score` | src/math/scoring.ts:51-95 | the scores sum to 100 and lie in [0, 100]; the percentile is in (0, 1); \|z\| ≤ zMax; each label is the label of its own final score, so the buyer label mirrors the seller label; the trend is flat unless momentum is on and the window (not the whole series) holds at least ten samples |
| `Scoring.ScoreFavorability` | src/math/scoring.ts:51-95 | the step-by-step computation returns exactly the score record, so the scores sum to 100 and \|z\| ≤ zMax |
| `Scoring.ScoreWithoutHistory` | src/math/scoring.ts:52-59 | an empty or one-element series scores 50/50 with percentile 0.5, z = 0, a flat trend and neutral labels |
| `Scoring.ScoreMomentum` | src/math/scoring.ts:61-75 | a flat trend leaves the split from the percentile as it is; up never lowers the seller score and down never lowers the buyer score |
| `Scoring.ScorePercentile` | src/math/scoring.ts:52-57 | the reported percentile is the mid-point rank of the newest window element among the rest of the window |
| `Scoring.ScoreIgnoresOldSamples` | src/math/scoring.ts:52 | samples older than the newest `lookback` do not affect the score |
| `Scoring.ScoreOfNewHigh` | src/math/scoring.ts:51-95 | [100, 102, 104, 103, 105] scores percentile 0.9, buyer 10 (worst label) and seller 90 (best label) |
| `History.Key` | src/math/history.ts:14 | the storage key `"fx:" + pair`; `KeyInjective` shows that different pairs get different keys |
| `History.KeyInjective` | src/math/history.ts:14 | two pairs share the storage key `"fx:" + pair` only if they are the same pair |
| `History.LoadDoc` | src/math/history.ts:13-17 | loading gives the document stored under the pair's key, or `{pair, updatedAt: '', samples: []}` when there is none |
| `History.EmptyDoc` | src/math/history.ts:16 | the document made up for a pair with nothing stored: that pair, no `updatedAt`, no samples |
| `History.FxStore.LoadFx` | src/math/history.ts:13-17 | `loadFx` on the store's current content is `LoadDoc` of it: the stored document, or the empty one for the pair |
| `History.FxStore.constructor` | src/math/history.ts:10-11 | the store starts with the given content, history bound and minimum gap |
| `History.FxStore.AppendFx` | src/math/history.ts:19-33 | writes exactly one key, `"fx:" + pair`; `pair` is unchanged and `updatedAt` is the sample's time; the samples follow the gap-and-trim rule; the returned document is the one loaded afterwards; other pairs load as before; a bounded store stays bounded |
| `History.Accepts` | src/math/history.ts:23-24 | the gap rule: an empty history, or an absolute time distance from the last sample greater than the minimum gap |
| `History.Appended` | src/math/history.ts:23-28 | push an accepted sample, then keep the newest HISTORY_MAX; `AppendedDecision`, `AppendedKeepsNewest` and `AppendedBounded` state its properties |
| `History.AppendedDecision` | src/math/history.ts:23-25 | a sample the gap rule rejects leaves the list unchanged; an accepted one becomes the last element, and the list changes |
| `History.AppendedKeepsNewest` | src/math/history.ts:25-28 | an accepted sample yields exactly the newest min(n + 1, HISTORY_MAX) entries of old ++ [sample]: only the oldest are dropped and the order is kept |
| `History.AppendedBounded` | src/math/history.ts:26-28 | a list of at most HISTORY_MAX samples stays within HISTORY_MAX |
| `History.AppendKeepsSpacing` | src/math/history.ts:24-28 | samples spaced more than the gap apart in time order stay so, provided the new sample is not more than the gap older than the last one |
| `History.AppendAcceptsOlderSample` | src/math/history.ts:7 | a sample more than the gap older than the last one passes the absolute-distance rule; with room for two samples the list is then out of time order, so "ascending by time" depends on the caller |
| `History.AppendAllKeepsNewest` | src/math/history.ts:19-33 | appending spaced samples one at a time to an empty history keeps exactly the newest min(count, HISTORY_MAX) of them, in order |
| `History.StoreKeepsOtherPairs` | src/math/history.ts:31 | writing one pair's document leaves what every other pair loads unchanged |
| `History.StoreKeepsBound` | src/math/history.ts:26-31 | writing a document within HISTORY_MAX keeps every readable document in the store within the bound |

## Left out

- NaN is not modelled. `ema` of an empty series returns NaN in the source;
  `Scoring.Ema` returns `None` there instead. The `current` of an empty
  window (`window.at(-1) ?? NaN`) becomes a placeholder the model never
  reads, because the base is then empty too. The model does not follow
  NaN or non-numeric rates through the arithmetic.
- IEEE-754 rounding is not modelled. All arithmetic is exact real
  arithmetic.
- `Math.sqrt` is the parameter `sqrt`. Only the lemmas that need its
  meaning assume `IsSqrt`.
- Parsing the environment strings (`parseInt` and `parseFloat`, with NaN
  on bad input) is not modelled. The settings are the values of `Config`
  and the `FxStore` constructor.
- Scoring.Config.Valid: a lookback below 1 or a negative z-cap, which the
  source would accept from the environment, is excluded.
- Scoring.Ema: the period is a natural number. The source accepts any
  number, but it only ever passes 7 and 28.
- Parsing ISO-8601 timestamps (`new Date(...).getTime()`) is not
  modelled; timestamps are integer milliseconds. An unparsable timestamp
  would give NaN and make the gap test false. The model cannot express
  that.
- History.GetJSON: a payload that parses as JSON but is not a document
  (for example `null`) counts as unreadable. The source treats `null` as
  absent and casts other shapes to a document without checking them.
- JSON serialisation, the DynamoDB calls, and the `async`/`await` around
  `getJSON` and `saveAsJSON` are not modelled. Saving is a map update.
  Write failures are not modelled: the source returns the document
  whatever the write's outcome.
- Concurrent `appendFx` calls for the same pair, and their lost-update
  race, are not modelled. Each call is atomic in the model.
- The optional `trend?` field of `Favorability` is always present, as
  `scoreFavorability` always sets it.
