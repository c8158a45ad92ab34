/**
 The per-bin records histoterm prints: the `[lo, hi)` edges of each bin, the
 last one closed at the sample maximum, and the integer bar length that
 scales a bin's count to the display width.
 */
module Layout {
  import opened Binning

  /** The lower edge of bin `i`, `min + i * w`. */
  function Lo(min: real, w: real, i: nat): real {
    min + i as real * w
  }

  /** The upper edge of bin `i`: nominally `min + (i + 1) * w`, forced to `max` on the last bin. */
  function Hi(min: real, max: real, w: real, bins: nat, i: nat): real {
    if i + 1 == bins then max else min + (i + 1) as real * w
  }

  /** `x` lies in the printed interval `[lo, hi)`, or `[lo, hi]` when `closed`. */
  predicate InInterval(x: real, lo: real, hi: real, closed: bool) {
    lo <= x && (if closed then x <= hi else x < hi)
  }

  /** `x` lies in bin `i` as printed: `[lo, hi)`, except that the last bin also holds `hi`. */
  predicate InBin(x: real, min: real, max: real, w: real, bins: nat, i: nat) {
    InInterval(x, Lo(min, w, i), Hi(min, max, w, bins, i), i + 1 == bins)
  }

  /** How many samples of `data` lie in the interval from `lo` to `hi`. */
  function CountIn(data: seq<real>, lo: real, hi: real, closed: bool): nat {
    if |data| == 0 then 0
    else CountIn(data[..|data| - 1], lo, hi, closed) + (if InInterval(data[|data| - 1], lo, hi, closed) then 1 else 0)
  }

  /** Multiplying by, and dividing by, a positive `w` are inverse comparisons. */
  lemma Scale(a: real, b: real, w: real)
    requires w > 0.0
    ensures a * w <= b <==> a <= b / w
    ensures a * w < b <==> a < b / w
  {
  }

  /**
   A sample in `[min, max]` is counted in bin `i` exactly when it lies in bin
   `i`'s printed interval: the floored, clamped index and the edges agree.
   */
  lemma BinIndexIsInterval(x: real, min: real, max: real, bins: nat, i: nat)
    requires min <= x <= max && !IsDegenerate(min, max) && 0 < bins <= UsizeMax && i < bins
    ensures BinIndex(x, min, BinWidth(min, max, bins), bins) == i
        <==> InBin(x, min, max, BinWidth(min, max, bins), bins, i)
  {
    ClampOnlyAtMax(x, min, max, bins);
    if x == max {
      MaxOnlyInLastBin(min, max, bins, i);
    } else {
      InteriorSampleBin(x, min, max, bins, i);
    }
  }

  /** The maximum lies in the last bin's closed interval and in no other. */
  lemma MaxOnlyInLastBin(min: real, max: real, bins: nat, i: nat)
    requires min <= max && !IsDegenerate(min, max) && 0 < bins <= UsizeMax && i < bins
    ensures InBin(max, min, max, BinWidth(min, max, bins), bins, i) <==> i == bins - 1
  {
    var w := BinWidth(min, max, bins);
    EdgeOrder(min, max, bins, bins - 1);
    if i + 1 < bins {
      // the nominal upper edge of bin i is at most the lower edge of the last bin, which is below max
      RealMulMonotone((i + 1) as real, (bins - 1) as real, w);
      assert Hi(min, max, w, bins, i) <= Lo(min, w, bins - 1);
    }
  }

  /** Scaling by a positive real keeps order. */
  lemma RealMulMonotone(a: real, b: real, w: real)
    requires a <= b && w > 0.0
    ensures a * w <= b * w
  {
  }

  /** Below the maximum, the floored index names the one bin whose interval holds the sample. */
  lemma InteriorSampleBin(x: real, min: real, max: real, bins: nat, i: nat)
    requires min <= x < max && !IsDegenerate(min, max) && 0 < bins <= UsizeMax && i < bins
    ensures BinIndex(x, min, BinWidth(min, max, bins), bins) == i <==> InBin(x, min, max, BinWidth(min, max, bins), bins, i)
  {
    var w := BinWidth(min, max, bins);
    ClampOnlyAtMax(x, min, max, bins);
    var q := (x - min) / w;
    assert BinIndex(x, min, w, bins) == q.Floor;
    FloorIs(q, i);
    Scale(i as real, x - min, w);
    assert Lo(min, w, i) <= x <==> i as real <= q;
    if i + 1 < bins {
      Scale((i + 1) as real, x - min, w);
      assert x < Hi(min, max, w, bins, i) <==> q < (i + 1) as real;
    } else {
      assert q < (i + 1) as real;
    }
  }

  /** `q.Floor` is `i` exactly when `q` lies in `[i, i + 1)`. */
  lemma FloorIs(q: real, i: int)
    ensures q.Floor == i <==> i as real <= q < (i + 1) as real
  {
  }

  /** The bar length of a bin with `c` samples, `c * width / max_count` in exact integers. */
  function BarLen(c: nat, width: nat, maxCount: nat): (r: nat)
    requires maxCount >= 1
    ensures r * maxCount <= c * width < (r + 1) * maxCount
    ensures c <= maxCount ==> r <= width
    ensures c == maxCount ==> r == width
  {
    var p := c * width;
    var r := p / maxCount;
    DivBounds(p, maxCount);
    assert c <= maxCount ==> r <= width by {
      if c <= maxCount {
        MulMonotone(c, maxCount, width);
        FloorBelow(r, width, maxCount, p);
      }
    }
    assert c == maxCount ==> r == width by {
      if c == maxCount {
        DivExact(width, maxCount);
      }
    }
    r
  }

  /** Integer division rounds down: `p / m` is the largest `r` with `r * m <= p`. */
  lemma DivBounds(p: nat, m: nat)
    requires m >= 1
    ensures (p / m) * m <= p < (p / m + 1) * m
  {
    var r := p / m;
    assert p == r * m + p % m;
    assert (r + 1) * m == r * m + m;
  }

  /** A multiple of `m` divided by `m` gives the factor back. */
  lemma DivExact(a: nat, m: nat)
    requires m >= 1
    ensures (m * a) / m == a
  {
    var r := (m * a) / m;
    DivBounds(m * a, m);
    assert r * m <= a * m < (r + 1) * m;
    if r < a {
      MulMonotone(r + 1, a, m);
    } else if r > a {
      MulMonotone(a + 1, r, m);
    }
  }

  /** Scaling by a natural number keeps order. */
  lemma MulMonotone(a: nat, b: nat, k: nat)
    requires a <= b
    ensures a * k <= b * k
  {
  }

  /** If `r * m <= p <= width * m` then `r <= width`. */
  lemma FloorBelow(r: nat, width: nat, m: nat, p: nat)
    requires m >= 1 && r * m <= p <= width * m
    ensures r <= width
  {
    if r > width {
      MulMonotone(width + 1, r, m);
    }
  }

  /**
   The bar length as the source computes it: `c * width` is a usize product,
   which wraps modulo 2^64 in a release build. Below the wrap it is BarLen.
   */
  function BarLenAsWritten(c: nat, width: nat, maxCount: nat): (r: nat)
    requires maxCount >= 1
    ensures c * width <= UsizeMax ==> r == BarLen(c, width, maxCount)
  {
    ((c * width) % (UsizeMax + 1)) / maxCount
  }

  /** Two samples in the fullest bin and a display width of 2^63: the wrapped product gives that bin no bar at all. */
  lemma BarLenAsWrittenLosesFullestBar()
    ensures BarLenAsWritten(2, 0x8000_0000_0000_0000, 2) == 0
    ensures BarLen(2, 0x8000_0000_0000_0000, 2) == 0x8000_0000_0000_0000
  {
    assert 2 * 0x8000_0000_0000_0000 == UsizeMax + 1;
  }

  /** A fuller bin never gets a shorter bar. */
  lemma BarMonotone(c1: nat, c2: nat, width: nat, maxCount: nat)
    requires maxCount >= 1 && c1 <= c2
    ensures BarLen(c1, width, maxCount) <= BarLen(c2, width, maxCount)
  {
    var r1, r2 := BarLen(c1, width, maxCount), BarLen(c2, width, maxCount);
    MulMonotone(c1, c2, width);
    if r1 > r2 {
      MulMonotone(r2 + 1, r1, maxCount);
    }
  }

  /**
   The edges of neighbouring bins: the first bin starts at `min`, each bin is
   a non-empty interval, and each nominal upper edge is the next lower edge.
   */
  lemma EdgeOrder(min: real, max: real, bins: nat, i: nat)
    requires 0 < bins && min <= max && !IsDegenerate(min, max) && i < bins
    ensures Lo(min, BinWidth(min, max, bins), 0) == min
    ensures Lo(min, BinWidth(min, max, bins), i) < Hi(min, max, BinWidth(min, max, bins), bins, i)
    ensures i + 1 < bins ==> Hi(min, max, BinWidth(min, max, bins), bins, i) == Lo(min, BinWidth(min, max, bins), i + 1)
  {
    var w := BinWidth(min, max, bins);
    assert (i + 1) as real * w == i as real * w + w;
    if i + 1 == bins {
      assert max == min + bins as real * w;
    }
  }

  /**
   Counting by bin index is counting by printed interval: for samples in
   `[min, max]`, bin `i` counts exactly the samples inside its interval.
   */
  lemma {:induction false} CountIsIntervalCount(data: seq<real>, min: real, max: real, bins: nat, i: nat)
    requires forall k :: 0 <= k < |data| ==> min <= data[k] <= max
    requires min <= max && !IsDegenerate(min, max) && 0 < bins <= UsizeMax && i < bins
    ensures CountOf(data, min, BinWidth(min, max, bins), bins, i)
         == CountIn(data, Lo(min, BinWidth(min, max, bins), i), Hi(min, max, BinWidth(min, max, bins), bins, i), i + 1 == bins)
  {
    if |data| > 0 {
      var p := data[..|data| - 1];
      assert forall k :: 0 <= k < |p| ==> p[k] == data[k];
      CountIsIntervalCount(p, min, max, bins, i);
      BinIndexIsInterval(data[|data| - 1], min, max, bins, i);
    }
  }

  /** One printed line of the histogram, without its percentage. */
  datatype Bin = Bin(lo: real, hi: real, count: nat, barLen: nat)

  /** The counts of a sequence of bins. */
  function BinCounts(bins: seq<Bin>): (counts: seq<nat>)
    ensures |counts| == |bins|
    ensures forall i :: 0 <= i < |bins| ==> counts[i] == bins[i].count
  {
    seq(|bins|, i requires 0 <= i < |bins| => bins[i].count)
  }

  /** Bin `i` as the per-bin loop prints it. */
  function MakeBin(counts: seq<nat>, min: real, max: real, w: real, width: nat, i: nat): Bin
    requires i < |counts|
  {
    Bin(Lo(min, w, i), Hi(min, max, w, |counts|, i), counts[i], BarLen(counts[i], width, MaxCount(counts)))
  }

  /**
   The per-bin loop: bin `i` spans `min + i * w` to `min + (i + 1) * w`, the
   last one up to exactly `max`, and carries its count and a bar of
   `count * width / max_count`. So the edges join up from `min` to `max`, no
   bar exceeds `width`, and every bin holding `max_count` has a full bar.
   */
  function BuildBins(counts: seq<nat>, min: real, max: real, width: nat): (bins: seq<Bin>)
    requires 0 < |counts| <= UsizeMax && min <= max && !IsDegenerate(min, max)
    ensures |bins| == |counts|
    ensures forall i :: 0 <= i < |bins| ==>
              && bins[i].lo == Lo(min, BinWidth(min, max, |counts|), i)
              && bins[i].hi == Hi(min, max, BinWidth(min, max, |counts|), |counts|, i)
              && bins[i].count == counts[i]
              && bins[i].barLen == BarLen(counts[i], width, MaxCount(counts))
    ensures bins[0].lo == min && bins[|bins| - 1].hi == max
    ensures forall i :: 0 <= i < |bins| - 1 ==> bins[i].hi == bins[i + 1].lo
    ensures forall i :: 0 <= i < |bins| ==> bins[i].lo < bins[i].hi
    ensures forall i :: 0 <= i < |bins| ==> bins[i].barLen <= width
    ensures forall i :: 0 <= i < |bins| && counts[i] == MaxCount(counts) ==> bins[i].barLen == width
  {
    var w := BinWidth(min, max, |counts|);
    var bins := seq(|counts|, i requires 0 <= i < |counts| => MakeBin(counts, min, max, w, width, i));
    forall i | 0 <= i < |bins|
      ensures bins[i].lo < bins[i].hi
      ensures i + 1 < |bins| ==> bins[i].hi == bins[i + 1].lo
      ensures bins[i].barLen <= width
      ensures counts[i] == MaxCount(counts) ==> bins[i].barLen == width
    {
      EdgeOrder(min, max, |counts|, i);
      assert bins[i] == MakeBin(counts, min, max, w, width, i);
    }
    EdgeOrder(min, max, |counts|, 0);
    bins
  }
}
