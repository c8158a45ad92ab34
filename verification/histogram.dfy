/**
 The histogram engine of histoterm from the token list to the report the
 printing code formats: filter the tokens, refuse an empty sample set, scan
 the statistics, take the degenerate path when the range is narrower than
 f64::EPSILON, and otherwise count the samples per bin and lay the bins out.
 */
module Histogram {
  import opened Parser
  import opened Stats
  import opened Binning
  import opened Layout

  /** The two settings the engine runs with, `--bins` and `--width`, both usize. */
  datatype Config = Config(bins: nat, width: nat)

  /** Both settings are positive usize values: the command line refuses zero before the engine runs. */
  predicate ValidConfig(cfg: Config) {
    0 < cfg.bins <= UsizeMax && 0 < cfg.width <= UsizeMax
  }

  /**
   What the engine hands to the printing code. On the degenerate path the
   single bin is the line `[###...] n`: all samples and a full-width bar.
   */
  datatype Report = Report(stats: Summary, degenerate: bool, bins: seq<Bin>)

  /** The one failure: no token parsed to a finite number. */
  datatype Error = NoNumericData

  datatype Result = Ok(report: Report) | Err(error: Error)

  /** The number of samples the bins of a report account for. */
  function Counted(bins: seq<Bin>): nat {
    Total(BinCounts(bins))
  }

  /** The statistics are those of the samples: the count, the extremes and the two exact sums. */
  predicate StatsOf(s: Summary, data: seq<real>) {
    && s.count == |data|
    && IsMin(s.min, data) && IsMax(s.max, data)
    && s.sum == Sum(data) && s.sumSq == SumSq(data)
  }

  /**
   The binned layout: `cfg.bins` bins with the edges `min + i * w`, the last
   closed at `max`, so that they run contiguously from `min` to exactly `max`;
   bin i holds the samples whose bin index is i, which are the samples inside
   its printed interval; and its bar is `count * width / max_count`.
   */
  predicate BinnedOver(bins: seq<Bin>, data: seq<real>, min: real, max: real, cfg: Config)
    requires ValidConfig(cfg)
  {
    && min <= max && !IsDegenerate(min, max)
    && |bins| == cfg.bins
    && (var w := BinWidth(min, max, cfg.bins);
        && (forall i :: 0 <= i < |bins| ==> bins[i].lo == Lo(min, w, i) && bins[i].hi == Hi(min, max, w, cfg.bins, i))
        && (forall i :: 0 <= i < |bins| ==> bins[i].count == CountOf(data, min, w, cfg.bins, i)))
    && bins[0].lo == min && bins[|bins| - 1].hi == max
    && (forall i :: 0 <= i < |bins| - 1 ==> bins[i].hi == bins[i + 1].lo)
    && (forall i :: 0 <= i < |bins| ==> bins[i].lo < bins[i].hi)
    && (forall i :: 0 <= i < |bins| ==> bins[i].count == CountIn(data, bins[i].lo, bins[i].hi, i + 1 == |bins|))
    && (forall i :: 0 <= i < |bins| ==> bins[i].barLen == BarLen(bins[i].count, cfg.width, MaxCount(BinCounts(bins))))
  }

  /** The bars fit the display, and every bin holding the largest count has a full bar. */
  predicate BarsFit(bins: seq<Bin>, width: nat) {
    && |bins| > 0
    && (forall i :: 0 <= i < |bins| ==> bins[i].barLen <= width)
    && (forall i :: 0 <= i < |bins| && bins[i].count == MaxCount(BinCounts(bins)) ==> bins[i].barLen == width)
  }

  /** The whole engine, for already split tokens and a validated configuration. */
  method Analyze(parse: string -> Option<F64>, tokens: seq<string>, cfg: Config) returns (r: Result)
    requires ValidConfig(cfg)
    ensures r.Err? <==> Samples(parse, tokens) == []
    ensures r.Ok? ==> StatsOf(r.report.stats, Samples(parse, tokens))
    ensures r.Ok? ==> (r.report.degenerate <==> IsDegenerate(r.report.stats.min, r.report.stats.max))
    ensures r.Ok? && r.report.degenerate ==>
              r.report.bins == [Bin(r.report.stats.min, r.report.stats.max, r.report.stats.count, cfg.width)]
    ensures r.Ok? && !r.report.degenerate ==>
              BinnedOver(r.report.bins, Samples(parse, tokens), r.report.stats.min, r.report.stats.max, cfg)
    ensures r.Ok? ==> Counted(r.report.bins) == |Samples(parse, tokens)|
    ensures r.Ok? ==> BarsFit(r.report.bins, cfg.width)
  {
    var data := FilterTokens(parse, tokens);
    if |data| == 0 {
      return Err(NoNumericData);
    }
    var s := Scan(data);
    assert s.min <= s.max by {
      assert s.max in data;
    }
    if IsDegenerate(s.min, s.max) {
      var bins := [Bin(s.min, s.max, s.count, cfg.width)];
      assert BinCounts(bins) == [s.count];
      assert Total([s.count]) == s.count by {
        assert [s.count][..0] == [];
      }
      return Ok(Report(s, true, bins));
    }
    var w := BinWidth(s.min, s.max, cfg.bins);
    var counts := Tally(data, s.min, w, cfg.bins);
    var bins := BuildBins(counts, s.min, s.max, cfg.width);
    assert forall k :: 0 <= k < |data| ==> s.min <= data[k] <= s.max by {
      assert forall k :: 0 <= k < |data| ==> data[k] in data;
    }
    LaidOut(data, s.min, s.max, cfg, counts);
    return Ok(Report(s, false, bins));
  }

  /**
   The counts the counting loop produces, laid out by the per-bin loop, form
   the binned layout of the samples, with bars that fit.
   */
  lemma LaidOut(data: seq<real>, min: real, max: real, cfg: Config, counts: seq<nat>)
    requires ValidConfig(cfg) && min <= max && !IsDegenerate(min, max)
    requires forall k :: 0 <= k < |data| ==> min <= data[k] <= max
    requires |counts| == cfg.bins
    requires forall i :: 0 <= i < cfg.bins ==> counts[i] == CountOf(data, min, BinWidth(min, max, cfg.bins), cfg.bins, i)
    ensures BinnedOver(BuildBins(counts, min, max, cfg.width), data, min, max, cfg)
    ensures BarsFit(BuildBins(counts, min, max, cfg.width), cfg.width)
    ensures Total(BinCounts(BuildBins(counts, min, max, cfg.width))) == Total(counts)
  {
    var bins := BuildBins(counts, min, max, cfg.width);
    assert BinCounts(bins) == counts;
    forall i | 0 <= i < |bins|
      ensures bins[i].count == CountIn(data, bins[i].lo, bins[i].hi, i + 1 == |bins|)
    {
      CountIsIntervalCount(data, min, max, cfg.bins, i);
    }
  }
}
