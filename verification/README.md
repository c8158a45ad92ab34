# histoterm histogram engine in Dafny

histoterm reads whitespace-separated numbers and prints an ASCII histogram.
Its engine sits inline in `main` (src/main.rs). This project pulls the engine
out into pure functions and a few short methods, and proves properties of them:

- `Parser` (parser.dfy): the token filter. It keeps the tokens that parse to a
  finite f64, in input order. The f64 parser is a parameter
  `parse: string -> Option<F64>`, where `F64` is a finite value, NaN or an
  infinity.
- `Stats` (stats.dfy): the one-pass scan. It computes the minimum, maximum, sum
  and sum of squares. The +inf/-inf starting values of the minimum and
  maximum are modelled by `Bound`.
- `Binning` (binning.dfy): the degenerate-range guard (`|max - min| <
  f64::EPSILON`, where f64::EPSILON is 2^-52), the bin width, and the bin
  index. The index is the floor, then a saturating `as usize`, then a clamp to
  the last bin. This module also holds the counting loop and `max_count`.
- `Layout` (layout.dfy): the `[lo, hi)` edges of each bin, with the last `hi`
  forced to `max`, and the integer bar length `c * width / max_count`.
- `Histogram` (histogram.dfy): the whole engine, from tokens to a `Report`. An
  empty sample set gives `Err(NoNumericData)`. A degenerate range gives one
  full-width bin. Otherwise the report has the counted and laid-out bins.

Samples are exact `real`s, not IEEE doubles, and the floor is `.Floor`. With
exact arithmetic, the clamp to the last bin fires for exactly one value, the
maximum (`ClampOnlyAtMax`). In the source it also catches values that rounding
pushes past the last nominal edge.

The code does not return an error value for empty input. It prints
"No numeric data found on stdin." and returns. The model represents this as
`Err(NoNumericData)`. The degenerate report models the bar line the code
prints on that path: every sample in one bar of exactly `width` characters,
with the bin spanning `[min, max]`.

## Model

| member | source | states |
|---|---|---|
| Parser.Samples | src/main.rs:44-51 | the filter yields at most one sample per token |
| Parser.KeptInOrder | src/main.rs:44-51 | the k-th sample is the value of the k-th accepted token; accepted positions strictly increase; every token that parses to a finite value is kept, so order is preserved and nothing finite is lost |
| Parser.SamplesMembers | src/main.rs:46-48 | a value is a sample if and only if some token parses to it as a finite f64; NaN, infinities and unparsable tokens never appear |
| Parser.NoSamples | src/main.rs:44-55 | the sample sequence is empty exactly when no token parses to a finite value, which is when the engine stops |
| Parser.SamplesAppend | src/main.rs:45-51 | filtering a concatenation of token lists is the concatenation of their filtered results |
| Parser.FilterTokens | src/main.rs:44-51 | the push loop over the tokens yields exactly the filtered sample sequence |
| Stats.Scan | src/main.rs:58-70 | on non-empty data the scan's min and max are elements of the data and bound every sample; the +inf/-inf starting values never survive; sum and sum of squares are the exact sums |
| Stats.SumBounds | src/main.rs:68 | a sum of n samples all at least (at most) m is at least (at most) n*m |
| Stats.MeanInRange | src/main.rs:71 | the mean sum/n lies between the scanned min and max |
| Binning.BinWidth | src/main.rs:76-91 | past the degenerate guard the bin width is strictly positive, so the index division is defined, and the bins' widths add up to the range exactly |
| Binning.BinIndex | src/main.rs:95-98 | the clamped index is always a valid bin, 0 <= idx < bins |
| Binning.ClampOnlyAtMax | src/main.rs:95-98 | for a sample in [min, max] the floored index is between 0 and bins, it reaches bins if and only if the sample is max, max is placed in the last bin, and every other sample keeps its unclamped index |
| Binning.CountOf | src/main.rs:94-100 | a bin's count never exceeds the number of samples |
| Binning.TotalZeros | src/main.rs:92 | the freshly zeroed count vector sums to zero |
| Binning.TotalBump | src/main.rs:99 | `counts[idx] += 1` raises the sum of counts by exactly one |
| Binning.Tally | src/main.rs:92-100 | the counting loop yields bins counts, count i is the number of samples whose bin index is i, and the counts sum to the number of samples |
| Binning.Largest | src/main.rs:101 | `iter().max()` of non-empty counts is one of the counts and bounds all of them |
| Binning.MaxCount | src/main.rs:101 | max_count is at least 1 and at least every count, and it is either a count or 1 over all-zero counts |
| Binning.MaxCountIsLargest | src/main.rs:101 | once any sample was counted, max_count is the largest count itself and the floor at 1 has no effect |
| Layout.BinIndexIsInterval | src/main.rs:95-120 | a sample in [min, max] is counted in bin i if and only if it lies in bin i's printed interval [lo_i, hi_i); the last bin is closed at max |
| Layout.MaxOnlyInLastBin | src/main.rs:115-120 | the maximum lies in the last bin's interval, closed at max, and in no other bin's interval |
| Layout.InteriorSampleBin | src/main.rs:95-120 | for a sample below max, the clamped index equals i if and only if the sample lies in bin i's printed interval, [lo_i, hi_i) or, on the last bin, [lo_i, max] |
| Layout.EdgeOrder | src/main.rs:115-120 | the first lower edge is min, every bin's lower edge is strictly below its upper edge, and each nominal upper edge is the next bin's lower edge |
| Layout.CountIsIntervalCount | src/main.rs:94-120 | for samples in [min, max], the number counted in bin i by index equals the number lying in bin i's printed interval, closed at max on the last bin |
| Layout.DivBounds | src/main.rs:121 | usize division rounds down: (p/m)*m <= p < (p/m + 1)*m |
| Layout.DivExact | src/main.rs:121 | (m*a)/m is a, so a bin holding max_count gets a bar of exactly width |
| Layout.BarLen | src/main.rs:121 | bar_len is the floor of c*width/max_count: bar_len*max_count <= c*width < (bar_len+1)*max_count; it never exceeds width when c <= max_count and is exactly width when c == max_count |
| Layout.BarMonotone | src/main.rs:121 | a bin with more samples never gets a shorter bar |
| Layout.BarLenAsWritten | src/main.rs:121 | with the usize product wrapping modulo 2^64, the bar agrees with the exact bar whenever c*width fits in a usize |
| Layout.BarLenAsWrittenLosesFullestBar | src/main.rs:121 | with width 2^63 and a fullest bin of 2 samples, the wrapped product gives that bin a bar of 0 instead of width |
| Layout.BuildBins | src/main.rs:114-121 | the per-bin records: one per count; bin i's lo is min + i*w and its hi is min + (i+1)*w, except that the last hi is exactly max; it carries count i and the bar count_i*width/max_count; so the edges join up from min to max, each interval is non-empty, no bar exceeds width and every bin holding max_count has a bar of exactly width |
| Histogram.LaidOut | src/main.rs:90-121 | the counting loop's counts, laid out by the per-bin loop, give exactly bins bins with edges min + i*w (last hi max), each count equal to the samples both by index and by printed interval, bars count*width/max_count, none above width, and a full bar on every bin holding max_count |
| Histogram.Analyze | src/main.rs:44-121 | the engine fails exactly when no token is a finite number. Otherwise the statistics are those of the samples, and the report is degenerate iff the range is below f64::EPSILON. A degenerate report is one full-width bin [min, max] with every sample. Otherwise there are exactly bins bins with lo_i = min + i*w and hi_i = min + (i+1)*w, the last hi being max; bin i counts the samples whose index is i, which are exactly the samples inside its printed interval; its bar is count_i*width/max_count. The counts always sum to the number of samples, no bar exceeds width and every bin holding max_count has a bar of exactly width |

## Left out

- Command-line parsing, the help text and the zero `--bins` / `--width` rejections (src/main.rs:5-39): these are the caller's job. `ValidConfig` requires both settings to be positive usize values.
- Reading stdin and `split_whitespace` (src/main.rs:42-45): these are I/O and a library routine. The engine takes the token list.
- The text-to-f64 parser (src/main.rs:46): this is a library routine. It is the function parameter `parse`.
- Variance, `sqrt` and the `var > 0` clamp (src/main.rs:72-73), and the percentage column (src/main.rs:122): these are floating-point numerics that exact reals do not capture faithfully.
- All `println!` formatting (src/main.rs:77-85, 104-131): this is output. The `Report` is what gets printed.
- IEEE rounding in general. Samples are exact reals, so drift past the last nominal edge cannot happen and the clamp fires only at max.
- Stats.Scan: the sums are exact reals. In f64 they overflow to infinity once they pass about 1.8e308 (two samples of 1e308 already do), and the mean printed from them becomes infinite or NaN.
- Binning.ClampOnlyAtMax: assumes `max - min` is finite. For input `-1e308 1e308` the f64 range overflows to infinity, so `bin_w` is infinite. The index of `max` is `inf / inf`, which is NaN, and `NaN as usize` is 0. So every sample lands in bin 0, not only the ones below the first edge, and the printed lo of bin 0 is `0 * inf`, which is NaN.
- Layout.BinIndexIsInterval: holds only for a finite range, for the same reason as the line above. With an infinite `bin_w`, `max` is counted in bin 0 rather than the last bin.
- Histogram.Analyze: the bars use the exact product `c * width`. The usize wrap-around of that product is modelled only in `Layout.BarLenAsWritten`. See Findings.
- Layout.BuildBins: same as the line above. Its bars are `Layout.BarLen`, the non-wrapping product.

## Findings

| source | as written | input that shows it | evidently intended | confidence | as-written member | corrected member |
|---|---|---|---|---|---|---|
| src/main.rs:121 | `c * width` is a usize product. It panics in a debug build and wraps modulo 2^64 in a release build | `--width 9223372036854775808`, `--bins 1`, input `0 1`: count 2, max_count 2, 2 * 2^63 wraps to 0, so the fullest bar is empty | the fullest bin's bar is exactly `width`, and bars are proportional to counts | low, not executed; needs a width or count beyond 2^32 | Layout.BarLenAsWritten | Layout.BarLen |
