# OHLC timeframe conversion — a Dafny model

This project models the chart-data core of the exchange's lightweight
candlestick chart. The core is the module `ConverterOHLC.js`, and it does four things:

- **Gap filling** (`convertTimeframeData`, first half). A series of quarter-hour
  candles is completed. For every missing 900-second slot between two
  consecutive records, a zero-volume synthetic record priced from the
  previous record is created.
  Originals and synthetics are then sorted by time.
- **Bucket aggregation** (`sliceDataToChunks`). With `k = timeFrame / 900`,
  the first `n mod k` records are dropped. The rest is cut into runs of `k`
  records, and each run is folded into one bar:
  - the time is the earliest time;
  - the open comes from the record at that time;
  - the high and low are the maximum and minimum;
  - the two volumes are summed;
  - the close comes from the record at the time
    `max(current.time, running minimum)`.
- **Volume derivation** (`getVolumeData`). There is one volume bar per
  candle. It measures the native XLM leg of the pair when there is one,
  and otherwise the base leg. The value is rounded to seven decimals. The
  bar is coloured by whether the candle closed at or above its open.
- **Price formatting** (`fillWithZeros`). For a number that `String`
  writes without an exponent: if its decimal text has at most seven
  fraction digits it is shown with exactly seven, and otherwise it is
  handed back unchanged.

Modules, in dependency order:

- `Frames`: the frame constants and chunk sizes.
- `Candles`: the record type and sequence predicates.
- `Sorting`: the time sort.
- `GapFiller`
- `Chunks`: `toChunks`.
- `Fold`: the per-chunk `reduce`.
- `Aggregator`: `sliceDataToChunks`.
- `VolumeDeriver`
- `Formatter`
- `Converter`: `convertTimeframeData`.

The model uses these representations:

- Times are integers (seconds). Prices and volumes are exact reals.
- JavaScript's `Array.prototype.sort` with the comparator `a.time - b.time`
  is modelled as a stable insertion sort on time. For strictly ascending
  inputs the result does not depend on the algorithm:
  `Sorting.AscendingArrangementUnique` proves that a time-ascending
  permutation of a strictly ascending sequence is that sequence itself.
- `reduce` without an initial value is a left fold whose accumulator
  starts at the chunk's first record. `find` returns the first record with
  the time sought.
- The formatter's argument is a decimal numeral (sign, whole digits and
  fraction digits) in the form `String(value)` writes it: no superfluous
  zeros, no negative zero, and no exponent (`Formatter.Printed`). Its text
  is rendered, and the source's `split('.')[1] || '0'` is applied to that
  text. Such a numeral is determined by the number it denotes
  (`Formatter.PrintedUnique`).

Three behaviours of the code are easy to misread; the model follows the
code in each:

- **Synthetic records are not flat candles.** Lines 76-79 set
  `open = close = previous.close` and `high = low = previous.open`, and
  `GapFiller.Synthetic` does the same. `GapFiller.SyntheticShape` shows
  that such a record is a well-formed candle only when the previous record
  opened and closed at the same price.
- **The per-chunk fold is not order-independent.** The close chosen on
  line 51 compares each record's time with the running minimum of line 56,
  not with the running maximum. `Fold.ReduceDependsOnOrder` exhibits the
  same three records in two orders giving two different closes. When the
  chunk is strictly ascending, the close is the last record's
  (`Fold.ReduceAscending`). Inside `convertTimeframeData` the chunks are
  strictly ascending when the input series is
  (`GapFiller.FillGapsStrictlyAscending`). The code does not check this,
  and an unsorted input can put a synthetic record at the time of an
  original (`GapFiller.UnsortedInputRepeatsTime`).
- **Long fractions pass through.** With more than seven fraction digits
  `fillWithZeros` returns the number itself, not text
  (`Formatter.Shown.Raw`).

## Model

All source paths are in `src/components/Exchange/LightweightChart/`.

| member | source | states |
|---|---|---|
| Frames.ChunkSize | src/components/Exchange/LightweightChart/ConverterOHLC.js:36 | For a time frame that is a positive multiple of the quarter hour, the chunk size is a whole number of at least one. That many quarter hours make up the frame exactly. |
| Frames.EnumeratedFramesAreValid | src/components/Exchange/LightweightChart/ConverterOHLC.js:1-7 | The five frames (900, 3600, 14400, 86400 and 604800 seconds) are all valid. Their chunk sizes are 1, 4, 16, 96 and 672. |
| Candles.MinTime | src/components/Exchange/LightweightChart/ConverterOHLC.js:46 | The minimum time of a non-empty sequence is the time of one of its records and no record is earlier. |
| Candles.MaxHigh | src/components/Exchange/LightweightChart/ConverterOHLC.js:49 | The greatest high is the high of one of the records and no record's high exceeds it. |
| Candles.MinLow | src/components/Exchange/LightweightChart/ConverterOHLC.js:48 | The least low is the low of one of the records and no record's low is below it. |
| Sorting.SortByTime | src/components/Exchange/LightweightChart/ConverterOHLC.js:87 | The sorted sequence is ascending in time and is a permutation of its input (same multiset, same length). |
| Sorting.AscendingArrangementUnique | src/components/Exchange/LightweightChart/ConverterOHLC.js:87 | A time-ascending permutation of a strictly ascending sequence equals that sequence. So the sort's result does not depend on the sorting algorithm when there are no ties. |
| Sorting.SortByTimeKeepsSorted | src/components/Exchange/LightweightChart/ConverterOHLC.js:87 | Sorting a strictly ascending sequence leaves it unchanged. |
| GapFiller.GapCount | src/components/Exchange/LightweightChart/ConverterOHLC.js:72-73 | The number of synthetic slots after an interval is positive exactly when the interval is at least two quarter hours. When it is c > 0, the interval lies between 900·(c+1) and 900·(c+2), which makes c equal to floor(interval/900) − 1. |
| GapFiller.GapCountIsLoopBound | src/components/Exchange/LightweightChart/ConverterOHLC.js:72-73 | The loop index i ≥ 1 passes the real-valued bound `interval/900 − 1` exactly when i ≤ GapCount(interval). The integer count therefore is the number of iterations. |
| GapFiller.Slots | src/components/Exchange/LightweightChart/ConverterOHLC.js:73-83 | The records pushed for one gap are `count` many, and the j-th (from 0) is the synthetic record for slot j + 1: slot order, as the loop pushes them. |
| GapFiller.SyntheticShape | src/components/Exchange/LightweightChart/ConverterOHLC.js:74-82 | A synthetic record has high = low = the previous open, open = close = the previous close, and zero volumes. It is well formed exactly when the previous record opened and closed at the same price. |
| GapFiller.FillGaps | src/components/Exchange/LightweightChart/ConverterOHLC.js:69-87 | The filled series is ascending in time. It holds exactly the originals plus the synthetic records, as a multiset. An empty input gives an empty output. |
| GapFiller.GapBetween | src/components/Exchange/LightweightChart/ConverterOHLC.js:73-75 | The synthetic records of one gap are strictly ascending. Each lies strictly after the previous record and strictly before the current one. |
| GapFiller.NullTradesCons | src/components/Exchange/LightweightChart/ConverterOHLC.js:70-85 | The records pushed for a series are the gap after its first record followed by those pushed for the rest. The first record itself contributes none, because its interval counts as one quarter hour. |
| GapFiller.InterleaveMultiset | src/components/Exchange/LightweightChart/ConverterOHLC.js:69-87 | The reference shape, each original followed by its gap, holds the same records as originals plus synthetics. |
| GapFiller.InterleaveStrictlyAscending | src/components/Exchange/LightweightChart/ConverterOHLC.js:69-87 | For a strictly ascending input the reference shape is strictly ascending and starts with the first original. |
| GapFiller.FillGapsIsInterleave | src/components/Exchange/LightweightChart/ConverterOHLC.js:87 | For a strictly ascending input the sorted concatenation equals the reference shape: each original followed by the synthetics of the gap after it. |
| GapFiller.FillGapsBetween | src/components/Exchange/LightweightChart/ConverterOHLC.js:70-87 | For strictly ascending originals, t[k−1] sits at some position p of the filled series, and the next GapCount(t[k].time − t[k−1].time) records are the synthetics for slots 1, 2, … in order, immediately followed by t[k]. |
| GapFiller.FillGapsStrictlyAscending | src/components/Exchange/LightweightChart/ConverterOHLC.js:87 | A strictly ascending input gives a strictly ascending filled series. In it, every original occurs exactly once, and every synthetic record occurs and is not an original. |
| GapFiller.UnsortedInputRepeatsTime | src/components/Exchange/LightweightChart/ConverterOHLC.js:70-87 | The input order is not checked: for any records at 0, 1800 and 900 seconds, a synthetic record is pushed at 900 beside the original at 900, so the filled series is not strictly ascending. |
| GapFiller.GapCountOnGrid | src/components/Exchange/LightweightChart/ConverterOHLC.js:72 | An interval that is a positive multiple of the quarter hour is exactly GapCount + 1 quarter hours. |
| GapFiller.OnGridStrictlyAscending | src/components/Exchange/LightweightChart/ConverterOHLC.js:71 | Records spaced by positive multiples of the quarter hour are strictly ascending. |
| GapFiller.FillGapsEvenlySpaced | src/components/Exchange/LightweightChart/ConverterOHLC.js:70-87 | When consecutive records are positive multiples of the quarter hour apart, record j of the filled series lies at the first time plus 900·j. The gaps are closed completely. |
| Chunks.ToChunks | src/components/Exchange/LightweightChart/ConverterOHLC.js:38-39 | Every chunk holds between one and `size` records. |
| Chunks.ToChunksCount | src/components/Exchange/LightweightChart/ConverterOHLC.js:39 | The number of chunks is ceil(length / size). |
| Chunks.ToChunksAreSlices | src/components/Exchange/LightweightChart/ConverterOHLC.js:39 | Chunk i is the slice from i·size to min(i·size + size, length). |
| Chunks.FlattenToChunks | src/components/Exchange/LightweightChart/ConverterOHLC.js:38-39 | Concatenating the chunks gives back the input, so no record is lost or repeated. |
| Chunks.ChunkAt | src/components/Exchange/LightweightChart/ConverterOHLC.js:39 | Chunk i starts inside the input and is the slice from i·size to min(i·size + size, length). |
| Fold.FirstWithTime | src/components/Exchange/LightweightChart/ConverterOHLC.js:50-51 | The found index holds a record with the time sought, and no earlier record has that time. |
| Fold.Reduce | src/components/Exchange/LightweightChart/ConverterOHLC.js:44-64 | The bar's time is the time of one of the chunk's records. A one-record chunk folds to that record unchanged. |
| Fold.PrefixTime | src/components/Exchange/LightweightChart/ConverterOHLC.js:46 | After n records the accumulated time is the least time among them and is attained by one of them. |
| Fold.PrefixMinTime | src/components/Exchange/LightweightChart/ConverterOHLC.js:46 | After n records the accumulated time equals the minimum time of the first n records, computed independently of the fold. |
| Fold.PrefixOpen | src/components/Exchange/LightweightChart/ConverterOHLC.js:50 | After n records the accumulated open is the open of the first chunk record whose time is the accumulated time. |
| Fold.PrefixHigh | src/components/Exchange/LightweightChart/ConverterOHLC.js:49 | After n records the accumulated high equals the greatest high of the first n records, computed independently of the fold. |
| Fold.PrefixLow | src/components/Exchange/LightweightChart/ConverterOHLC.js:48 | After n records the accumulated low equals the least low of the first n records, computed independently of the fold. |
| Fold.PrefixVolumes | src/components/Exchange/LightweightChart/ConverterOHLC.js:52-53 | After n records the accumulated volumes are the sums over those records. |
| Fold.ReduceAggregates | src/components/Exchange/LightweightChart/ConverterOHLC.js:44-64 | The bar's time is the least time in the chunk, and its open is the open of the first record at that time. The high is the greatest high and the low the least low, both attained by some record. The volumes are the chunk's sums. |
| Fold.ReduceClose | src/components/Exchange/LightweightChart/ConverterOHLC.js:47-51 | For two or more records, the close is that of the first record whose time is max(last record's time, least time of the earlier records). |
| Fold.ReduceAscending | src/components/Exchange/LightweightChart/ConverterOHLC.js:44-64 | For a strictly ascending chunk, the bar takes its time and open from the first record and its close from the last. |
| Fold.ReduceWellFormed | src/components/Exchange/LightweightChart/ConverterOHLC.js:48-51 | If every record has low ≤ open, close ≤ high, then so does the bar. |
| Fold.ReduceDependsOnOrder | src/components/Exchange/LightweightChart/ConverterOHLC.js:47-51 | The same three records in two orders fold to bars with different closes (3 and 1). |
| Aggregator.SliceDataToChunks | src/components/Exchange/LightweightChart/ConverterOHLC.js:34-44 | There are floor(n / k) bars for n records and chunk size k. Fewer than k records give no bar at all. |
| Aggregator.SliceDataToChunksBars | src/components/Exchange/LightweightChart/ConverterOHLC.js:42-64 | Bar q is the fold of records m + q·k up to m + q·k + k, where m = n mod k. The first m records are in no bar. |
| Aggregator.SliceDataToChunksAscending | src/components/Exchange/LightweightChart/ConverterOHLC.js:34-66 | A strictly ascending input gives strictly ascending bars. |
| Aggregator.BarTime | src/components/Exchange/LightweightChart/ConverterOHLC.js:42-56 | For a strictly ascending input, bar q carries the time of record m + q·k, the first record of its bucket. |
| VolumeDeriver.RoundHalfAway | src/components/Exchange/LightweightChart/ConverterOHLC.js:28 | The result is an integer within one half of its argument, with the argument's sign. A tie goes to the integer of larger magnitude: strictly above y − 0.5 for y ≥ 0 and strictly below y + 0.5 for y < 0. |
| VolumeDeriver.Round7 | src/components/Exchange/LightweightChart/ConverterOHLC.js:28 | The result is a whole number of ten-millionths, within half a ten-millionth of the input, and a tie goes to the larger magnitude as `toFixed` rounds it. It is non-negative for non-negative input. |
| VolumeDeriver.Round7Idempotent | src/components/Exchange/LightweightChart/ConverterOHLC.js:28 | Rounding an already rounded value changes nothing. |
| VolumeDeriver.VolumeLegSelection | src/components/Exchange/LightweightChart/ConverterOHLC.js:19-24 | The base volume is used when the base asset is native XLM. The counter volume is used when only the counter asset is. The base volume is used when neither is. |
| VolumeDeriver.GetVolumeData | src/components/Exchange/LightweightChart/ConverterOHLC.js:16-32 | There is one volume bar per candle, in order, with the candle's time. The value is the rounded counter volume exactly when only the counter asset is native, and the rounded base volume otherwise. The colour is up exactly when open ≤ close. Non-negative volumes give non-negative values. |
| VolumeDeriver.VolumeExamples | src/components/Exchange/LightweightChart/ConverterOHLC.js:19-29 | XLM/USD reports the base volume, USD/XLM the counter volume, and USD/EUR the base volume. A candle with open = close is coloured up. |
| Formatter.Split | src/components/Exchange/LightweightChart/ConverterOHLC.js:11 | Splitting gives at least one part, and no part contains the separator. |
| Formatter.JoinSplit | src/components/Exchange/LightweightChart/ConverterOHLC.js:11 | Joining the parts of a split with the separator gives back the text. |
| Formatter.SplitOnce | src/components/Exchange/LightweightChart/ConverterOHLC.js:11 | Text with a single separator splits into the two sides. |
| Formatter.FractionOfText | src/components/Exchange/LightweightChart/ConverterOHLC.js:11 | The fraction read from a number's text is its fraction digits, or "0" when it has none. |
| Formatter.ToFixed | src/components/Exchange/LightweightChart/ConverterOHLC.js:13 | Fixing a printed number with at most seven fraction digits keeps its sign and whole digits, keeps its fraction digits as a prefix, and fills the remaining places up to exactly seven with zeros. |
| Formatter.FillWithZeros | src/components/Exchange/LightweightChart/ConverterOHLC.js:9-14 | For a numeral as `String` writes it, the result is fixed-point text exactly when the fraction has at most seven digits (a whole number counts as one digit, "0"). Otherwise it is the number itself. |
| Formatter.PrintedSign | src/components/Exchange/LightweightChart/ConverterOHLC.js:11 | A numeral as `String` writes it carries a minus sign exactly when the number is negative; there is no negative zero. |
| Formatter.PrintedUnique | src/components/Exchange/LightweightChart/ConverterOHLC.js:11 | Two numerals as `String` writes them that denote the same number are the same numeral, so the text split on line 11 is determined by the number. |
| Formatter.FillWithZerosText | src/components/Exchange/LightweightChart/ConverterOHLC.js:13 | The fixed text is the number's own text, a point if it had none, and then the zeros that bring the fraction to seven digits. Read back, its fraction has exactly seven digits. |
| Formatter.PadKeepsFraction | src/components/Exchange/LightweightChart/ConverterOHLC.js:13 | Trailing zeros do not change the value of a fraction. |
| Formatter.ToFixedKeepsValue | src/components/Exchange/LightweightChart/ConverterOHLC.js:13 | The fixed numeral denotes the same number as the original. |
| Formatter.FillWithZerosIdempotent | src/components/Exchange/LightweightChart/ConverterOHLC.js:11-13 | The fixed numeral denotes the original number, and any numeral `String` writes for that number is formatted to the same text again. |
| Formatter.FillWithZerosExampleFraction | src/components/Exchange/LightweightChart/ConverterOHLC.js:10 | 1.4 is shown as "1.4000000". |
| Formatter.FillWithZerosExampleWhole | src/components/Exchange/LightweightChart/ConverterOHLC.js:11-13 | 3 is shown as "3.0000000". |
| Formatter.FillWithZerosExampleLong | src/components/Exchange/LightweightChart/ConverterOHLC.js:11-13 | 0.12345678, which `String` writes with eight fraction digits, is handed back as the number. |
| Formatter.TinyNotPrinted | src/components/Exchange/LightweightChart/ConverterOHLC.js:11 | 10^-7, written "0.0000001" in plain decimal, is not a numeral `String` produces: it writes "1e-7", which this model does not cover. |
| Converter.ConvertTimeframeData | src/components/Exchange/LightweightChart/ConverterOHLC.js:68-89 | An empty series gives no bars. |
| Converter.ConvertCount | src/components/Exchange/LightweightChart/ConverterOHLC.js:87-88 | The bars account for all but fewer than k of the originals and synthetics together. |
| Converter.ConvertAscending | src/components/Exchange/LightweightChart/ConverterOHLC.js:68-89 | A strictly ascending series gives strictly ascending bars. |
| Converter.GridBarTime | src/components/Exchange/LightweightChart/ConverterOHLC.js:42-56 | For a series whose record j is at slot j of the grid, bar q is at the first time plus 900·(n mod k) plus timeFrame·q. |
| Converter.ConvertOnGridTime | src/components/Exchange/LightweightChart/ConverterOHLC.js:68-89 | For a series on the quarter-hour grid, bar q opens at the first time plus 900 times the number of dropped records plus timeFrame·q. |
| Converter.ConvertOnGridSpacing | src/components/Exchange/LightweightChart/ConverterOHLC.js:68-89 | For a series on the quarter-hour grid, consecutive bars are exactly one frame apart. |
| Converter.ConvertExample | src/components/Exchange/LightweightChart/ConverterOHLC.js:68-89 | Records at 0 and 3600 with the hour frame give one bar: time 900, open 1, high 1.2, low 1, close 1.1, volumes 5 and 6. |
| Converter.ExampleFill | src/components/Exchange/LightweightChart/ConverterOHLC.js:70-87 | For that input, the filled series is the first record, three zero-volume records at 900, 1800 and 2700 with every price 1 (the first record opened and closed at 1), and the second record. |
| Converter.ExampleFold | src/components/Exchange/LightweightChart/ConverterOHLC.js:44-64 | The one bucket of that input folds to time 900, open 1, high 1.2, low 1, close 1.1, volumes 5 and 6. |

## Left out

- Floating point: prices and volumes are exact reals. The rounding of JavaScript's binary doubles in sums, in `toFixed` and in `parseFloat` is not modelled.
- VolumeDeriver.Round7: rounds the exact decimal value, halves away from zero. `toFixed` works on the binary double nearest the decimal, so at a decimal tie it may round the other way.
- Formatter.FillWithZeros: requires a numeral as `String` writes it in plain decimal (`Formatter.Printed`): canonical digits, no negative zero, and a magnitude from 10^-6 up to but excluding 10^21. For magnitudes outside that range `String` writes an exponent form (`1e-7`, `1e+21`), whose split on the point and `toFixed` result are not modelled; nor are `NaN`, `Infinity` or the 17-digit precision limit of doubles.
- Aggregator.SliceDataToChunks: requires a time frame that is a positive multiple of 900, as the five enumerated frames are. Other frames are not modelled: a fractional chunk size leaves the `Math.ceil` length whole but makes the `slice` bounds and the `splice` count fractional, so they are truncated, and a chunk can come out empty, on which `reduce` without an initial value throws; a negative chunk size gives a length of at most zero and so no bars; a zero chunk size gives no bars for an empty series (0/0 is `NaN`, read as length 0) and otherwise an infinite length, which throws.
- `trades.splice` mutates the caller's array. The model returns the kept records as a new sequence, so the aliasing side effect on the caller's array is not modelled. Inside `convertTimeframeData` the array is a fresh copy anyway.
- Sorting.SortByTime: stability for records with equal times is not stated. The insertion sort keeps equal-time records in input order, but only strictly ascending inputs are characterised exactly (`Sorting.AscendingArrangementUnique`).
- Records are assumed to carry all seven numeric fields. Missing or `undefined` fields, `NaN` comparisons and string-valued prices are not modelled.
- An issuer equal to `undefined` is modelled as `None`. Other falsy issuers (`null`, an empty string) are not distinguished.
- The chart component, its React state, subscriptions to the trade feed, the point-detail readout and the other chart files are not part of this model. They only call these functions or draw their results.
