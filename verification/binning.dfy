/**
 Bin assignment in histoterm: the degenerate-range guard, the bin width, the
 floored and clamped bin index of a sample, the per-bin counts and the
 largest count the bars are scaled against.
 */
module Binning {

  /** f64::EPSILON, that is 2^-52. */
  const Epsilon: real := 1.0 / 4503599627370496.0

  /** usize::MAX on a 64-bit target. */
  const UsizeMax: int := 0xFFFF_FFFF_FFFF_FFFF

  function Abs(x: real): real {
    if x < 0.0 then -x else x
  }

  /** The guard in front of binning: the range is narrower than f64::EPSILON. */
  predicate IsDegenerate(min: real, max: real) {
    Abs(max - min) < Epsilon
  }

  /** The width of each of `bins` equal bins over `[min, max]`. */
  function BinWidth(min: real, max: real, bins: nat): (w: real)
    requires 0 < bins
    requires min <= max && !IsDegenerate(min, max)
    ensures w > 0.0
    ensures min + bins as real * w == max
  {
    (max - min) / bins as real
  }

  /** Rust's `as usize` on a float that has already been floored: it saturates at both ends. */
  function AsUsize(f: int): nat {
    if f < 0 then 0 else if f > UsizeMax then UsizeMax else f
  }

  /** The floored index before the clamp, `((x - min) / w).floor()`. */
  function RawIndex(x: real, min: real, w: real): int
    requires w > 0.0
  {
    ((x - min) / w).Floor
  }

  /** The bin a sample is counted in: the floored index, cast, and clamped to the last bin. */
  function BinIndex(x: real, min: real, w: real, bins: nat): (idx: nat)
    requires w > 0.0 && 0 < bins <= UsizeMax
    ensures idx < bins
  {
    var raw := AsUsize(RawIndex(x, min, w));
    if raw >= bins then bins - 1 else raw
  }

  /**
   With exact arithmetic the clamp is needed for one sample value only: the
   floored index of a sample in `[min, max]` reaches `bins` exactly when the
   sample is `max`, and `max` lands in the last bin.
   */
  lemma ClampOnlyAtMax(x: real, min: real, max: real, bins: nat)
    requires min <= x <= max && !IsDegenerate(min, max) && 0 < bins <= UsizeMax
    ensures 0 <= RawIndex(x, min, BinWidth(min, max, bins)) <= bins
    ensures RawIndex(x, min, BinWidth(min, max, bins)) == bins <==> x == max
    ensures x == max ==> BinIndex(x, min, BinWidth(min, max, bins), bins) == bins - 1
    ensures x < max ==> BinIndex(x, min, BinWidth(min, max, bins), bins) == RawIndex(x, min, BinWidth(min, max, bins))
  {
    var w := BinWidth(min, max, bins);
    var q := (x - min) / w;
    assert (max - min) / w == bins as real;
    QuotientMonotone(x - min, max - min, w);
    assert 0.0 <= q;
    if x < max {
      assert q < bins as real;
    }
  }

  /** Division by a positive `w` keeps order, strict and non-strict. */
  lemma QuotientMonotone(a: real, b: real, w: real)
    requires w > 0.0 && 0.0 <= a <= b
    ensures 0.0 <= a / w <= b / w
    ensures a < b ==> a / w < b / w
  {
  }

  /** How many samples of `data` go into bin `i`. */
  function CountOf(data: seq<real>, min: real, w: real, bins: nat, i: nat): (c: nat)
    requires w > 0.0 && 0 < bins <= UsizeMax
    ensures c <= |data|
  {
    if |data| == 0 then 0
    else
      CountOf(data[..|data| - 1], min, w, bins, i)
      + (if BinIndex(data[|data| - 1], min, w, bins) == i then 1 else 0)
  }

  /** The sum of a sequence of counts. */
  function Total(s: seq<nat>): nat {
    if |s| == 0 then 0 else Total(s[..|s| - 1]) + s[|s| - 1]
  }

  /** Counts that are all zero sum to zero. */
  lemma {:induction false} TotalZeros(s: seq<nat>)
    requires forall i :: 0 <= i < |s| ==> s[i] == 0
    ensures Total(s) == 0
  {
    if |s| > 0 {
      TotalZeros(s[..|s| - 1]);
    }
  }

  /** Bumping one count bumps the total by one. */
  lemma {:induction false} TotalBump(s: seq<nat>, j: nat)
    requires j < |s|
    ensures Total(s[j := s[j] + 1]) == Total(s) + 1
  {
    var t := s[j := s[j] + 1];
    if j < |s| - 1 {
      assert t[..|t| - 1] == s[..|s| - 1][j := s[j] + 1];
      TotalBump(s[..|s| - 1], j);
    } else {
      assert t[..|t| - 1] == s[..|s| - 1];
    }
  }

  /** The counting loop: `counts[idx] += 1` for the bin index of every sample. */
  method Tally(data: seq<real>, min: real, w: real, bins: nat) returns (counts: seq<nat>)
    requires w > 0.0 && 0 < bins <= UsizeMax
    ensures |counts| == bins
    ensures forall i :: 0 <= i < bins ==> counts[i] == CountOf(data, min, w, bins, i)
    ensures Total(counts) == |data|
  {
    counts := seq(bins, _ => 0);
    TotalZeros(counts);
    for k := 0 to |data|
      invariant |counts| == bins
      invariant forall i :: 0 <= i < bins ==> counts[i] == CountOf(data[..k], min, w, bins, i)
      invariant Total(counts) == k
    {
      var idx := BinIndex(data[k], min, w, bins);
      assert data[..k + 1][..k] == data[..k];
      TotalBump(counts, idx);
      counts := counts[idx := counts[idx] + 1];
    }
    assert data[..|data|] == data;
  }

  /** The largest element of a non-empty sequence, `iter().max().unwrap()`. */
  function Largest(s: seq<nat>): (m: nat)
    requires |s| > 0
    ensures m in s
    ensures forall i :: 0 <= i < |s| ==> s[i] <= m
  {
    if |s| == 1 then s[0]
    else
      var p := Largest(s[..|s| - 1]);
      assert forall i :: 0 <= i < |s| - 1 ==> s[..|s| - 1][i] == s[i];
      if s[|s| - 1] > p then s[|s| - 1] else p
  }

  /** The count the bars are scaled against: the largest count, but at least 1. */
  function MaxCount(counts: seq<nat>): (m: nat)
    requires |counts| > 0
    ensures m >= 1
    ensures forall i :: 0 <= i < |counts| ==> counts[i] <= m
    ensures m in counts || (m == 1 && forall i :: 0 <= i < |counts| ==> counts[i] == 0)
  {
    var l := Largest(counts);
    if l >= 1 then l else 1
  }

  /** Once any sample was counted, the floor at 1 is inactive: the scale is the largest count itself. */
  lemma {:induction false} MaxCountIsLargest(counts: seq<nat>)
    requires |counts| > 0 && Total(counts) > 0
    ensures MaxCount(counts) in counts
  {
    if forall i :: 0 <= i < |counts| ==> counts[i] == 0 {
      TotalZeros(counts);
    }
  }
}
