/**
 The one-pass statistics scan of histoterm: a single loop over the samples
 that keeps the running minimum, maximum, sum and sum of squares. The
 minimum and maximum start at +infinity and -infinity, which `Bound` models.
 */
module Stats {

  /** An f64 bound as the scan holds it: -infinity, a finite value or +infinity. */
  datatype Bound = NegInf | Fin(v: real) | PosInf

  /** `x < b` for a finite `x`, as the f64 comparison decides it. */
  predicate Below(x: real, b: Bound) {
    match b
    case NegInf => false
    case Fin(v) => x < v
    case PosInf => true
  }

  /** `x > b` for a finite `x`. */
  predicate Above(x: real, b: Bound) {
    match b
    case NegInf => true
    case Fin(v) => x > v
    case PosInf => false
  }

  /** What the scan leaves behind: the sample count and the four accumulators. */
  datatype Summary = Summary(count: nat, min: real, max: real, sum: real, sumSq: real)

  /** The sum of `s`, accumulated left to right as the scan does. */
  function Sum(s: seq<real>): real {
    if |s| == 0 then 0.0 else Sum(s[..|s| - 1]) + s[|s| - 1]
  }

  /** The sum of squares of `s`, accumulated left to right. */
  function SumSq(s: seq<real>): real {
    if |s| == 0 then 0.0 else SumSq(s[..|s| - 1]) + s[|s| - 1] * s[|s| - 1]
  }

  /** `m` is the least element of `s`. */
  predicate IsMin(m: real, s: seq<real>) {
    m in s && forall x :: x in s ==> m <= x
  }

  /** `m` is the greatest element of `s`. */
  predicate IsMax(m: real, s: seq<real>) {
    m in s && forall x :: x in s ==> x <= m
  }

  /** The statistics loop over a non-empty sample sequence. */
  method Scan(data: seq<real>) returns (s: Summary)
    requires |data| > 0
    ensures s.count == |data|
    ensures IsMin(s.min, data) && IsMax(s.max, data)
    ensures s.sum == Sum(data) && s.sumSq == SumSq(data)
  {
    var lo, hi := PosInf, NegInf;
    var sum, sumSq := 0.0, 0.0;
    ghost var at, bt := 0, 0;
    for i := 0 to |data|
      invariant i == 0 ==> lo == PosInf && hi == NegInf
      invariant i > 0 ==> lo.Fin? && at < i && lo.v == data[at] && forall k :: 0 <= k < i ==> lo.v <= data[k]
      invariant i > 0 ==> hi.Fin? && bt < i && hi.v == data[bt] && forall k :: 0 <= k < i ==> data[k] <= hi.v
      invariant sum == Sum(data[..i]) && sumSq == SumSq(data[..i])
    {
      var x := data[i];
      assert data[..i + 1][..i] == data[..i];
      if Below(x, lo) {
        lo, at := Fin(x), i;
      }
      if Above(x, hi) {
        hi, bt := Fin(x), i;
      }
      sum := sum + x;
      sumSq := sumSq + x * x;
    }
    assert data[..|data|] == data;
    s := Summary(|data|, lo.v, hi.v, sum, sumSq);
  }

  /** The mean the source prints, `sum / n`, exact here. */
  function Mean(s: Summary): real
    requires s.count > 0
  {
    s.sum / s.count as real
  }

  /** Every element at least `m` makes the sum at least `|s| * m`; at most `m`, at most `|s| * m`. */
  lemma {:induction false} SumBounds(s: seq<real>, m: real)
    ensures (forall x :: x in s ==> m <= x) ==> |s| as real * m <= Sum(s)
    ensures (forall x :: x in s ==> x <= m) ==> Sum(s) <= |s| as real * m
  {
    if |s| > 0 {
      var p := s[..|s| - 1];
      assert forall x :: x in p ==> x in s;
      SumBounds(p, m);
      assert s[|s| - 1] in s;
      assert Sum(s) == Sum(p) + s[|s| - 1];
      assert |s| as real * m == |p| as real * m + m;
    }
  }

  /** The mean lies between the minimum and the maximum. */
  lemma MeanInRange(data: seq<real>, s: Summary)
    requires |data| > 0 && s.count == |data|
    requires IsMin(s.min, data) && IsMax(s.max, data) && s.sum == Sum(data)
    ensures s.min <= Mean(s) <= s.max
  {
    SumBounds(data, s.min);
    SumBounds(data, s.max);
    var n := |data| as real;
    QuotientBounds(s.min, s.sum, s.max, n);
  }

  /** Dividing `n * lo <= x <= n * hi` by a positive `n`. */
  lemma QuotientBounds(lo: real, x: real, hi: real, n: real)
    requires n > 0.0 && n * lo <= x <= n * hi
    ensures lo <= x / n <= hi
  {
  }
}
