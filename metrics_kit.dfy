/**
 * The window aggregations of src/utils/_metrics_kit.py. Each maps a list of
 * numbers to a list that is empty or holds one statistic. The floating-point
 * statistics come from numpy; they are the fields of `Numerics`, a parameter,
 * so only the shape of each result and the exact cases (maximum, minimum, the
 * zero-mean guard of `rel_var`, the short-list case of `slope`) are modelled.
 */
module MetricsKit {

  /** The numpy routines the aggregations call, and `round(_, 2)`. */
  datatype Numerics = Numerics(
    mean: seq<real> -> real,
    rms: seq<real> -> real,
    ptp: seq<real> -> real,
    std: seq<real> -> real,
    variance: seq<real> -> real,
    polyfitSlope: seq<real> -> real,
    round2: real -> real)

  /** The nine aggregations of `MetricsKit`. */
  datatype Statistic =
    Average | Maximum | Minimum | RootMeanSquare | PeakToPeak | RelativeVariation | StdDev | Variance | SlopeFit

  /** Python's `max` over a non-empty list. */
  function MaxOf(s: seq<real>): (m: real)
    requires |s| > 0
    ensures m in s
    ensures forall i :: 0 <= i < |s| ==> s[i] <= m
  {
    if |s| == 1 then s[0]
    else
      var rest := MaxOf(s[1..]);
      if s[0] >= rest then s[0] else rest
  }

  /** Python's `min` over a non-empty list. */
  function MinOf(s: seq<real>): (m: real)
    requires |s| > 0
    ensures m in s
    ensures forall i :: 0 <= i < |s| ==> m <= s[i]
  {
    if |s| == 1 then s[0]
    else
      var rest := MinOf(s[1..]);
      if s[0] <= rest then s[0] else rest
  }

  /** The shape every aggregation but `slope` has: nothing for no input, one value otherwise. */
  predicate EmptyOrOne(vals: seq<real>, r: seq<real>)
  {
    if vals == [] then r == [] else |r| == 1
  }

  function Mean(vals: seq<real>, np: Numerics): (r: seq<real>)
    ensures EmptyOrOne(vals, r)
    ensures vals != [] ==> r[0] == np.round2(np.mean(vals))
  {
    if vals != [] then [np.round2(np.mean(vals))] else []
  }

  function VMax(vals: seq<real>): (r: seq<real>)
    ensures EmptyOrOne(vals, r)
    ensures vals != [] ==> r[0] in vals && forall i :: 0 <= i < |vals| ==> vals[i] <= r[0]
  {
    if vals != [] then [MaxOf(vals)] else []
  }

  function VMin(vals: seq<real>): (r: seq<real>)
    ensures EmptyOrOne(vals, r)
    ensures vals != [] ==> r[0] in vals && forall i :: 0 <= i < |vals| ==> r[0] <= vals[i]
  {
    if vals != [] then [MinOf(vals)] else []
  }

  function Rms(vals: seq<real>, np: Numerics): (r: seq<real>)
    ensures EmptyOrOne(vals, r)
    ensures vals != [] ==> r[0] == np.round2(np.rms(vals))
  {
    if vals != [] then [np.round2(np.rms(vals))] else []
  }

  function Ptp(vals: seq<real>, np: Numerics): (r: seq<real>)
    ensures EmptyOrOne(vals, r)
    ensures vals != [] ==> r[0] == np.round2(np.ptp(vals))
  {
    if vals != [] then [np.round2(np.ptp(vals))] else []
  }

  /** Peak-to-peak over mean, except exactly 0.0 when the (unrounded) mean is 0. */
  function RelVar(vals: seq<real>, np: Numerics): (r: seq<real>)
    ensures EmptyOrOne(vals, r)
    ensures vals != [] && np.mean(vals) == 0.0 ==> r == [0.0]
    ensures vals != [] && np.mean(vals) != 0.0 ==> r == [np.round2(np.ptp(vals) / np.mean(vals))]
  {
    if vals == [] then []
    else
      var m := np.mean(vals);
      if m == 0.0 then [0.0] else [np.round2(np.ptp(vals) / m)]
  }

  function Std(vals: seq<real>, np: Numerics): (r: seq<real>)
    ensures EmptyOrOne(vals, r)
    ensures vals != [] ==> r[0] == np.round2(np.std(vals))
  {
    if vals != [] then [np.round2(np.std(vals))] else []
  }

  function Var(vals: seq<real>, np: Numerics): (r: seq<real>)
    ensures EmptyOrOne(vals, r)
    ensures vals != [] ==> r[0] == np.round2(np.variance(vals))
  {
    if vals != [] then [np.round2(np.variance(vals))] else []
  }

  /** Least-squares slope against the index; exactly 0.0 for fewer than two points. */
  function Slope(vals: seq<real>, np: Numerics): (r: seq<real>)
    ensures |r| == 1
    ensures |vals| < 2 ==> r == [0.0]
    ensures |vals| >= 2 ==> r[0] == np.round2(np.polyfitSlope(vals))
  {
    if |vals| < 2 then [0.0] else [np.round2(np.polyfitSlope(vals))]
  }

  /** Dispatch on a resolved aggregation. */
  function Aggregate(kind: Statistic, vals: seq<real>, np: Numerics): (r: seq<real>)
  {
    match kind
    case Average => Mean(vals, np)
    case Maximum => VMax(vals)
    case Minimum => VMin(vals)
    case RootMeanSquare => Rms(vals, np)
    case PeakToPeak => Ptp(vals, np)
    case RelativeVariation => RelVar(vals, np)
    case StdDev => Std(vals, np)
    case Variance => Var(vals, np)
    case SlopeFit => Slope(vals, np)
  }

  /** Every aggregation yields exactly one value on non-empty input; on empty
      input every one but `slope` yields nothing, and `slope` yields [0.0]. */
  lemma AggregateShape(kind: Statistic, vals: seq<real>, np: Numerics)
    ensures vals != [] ==> |Aggregate(kind, vals, np)| == 1
    ensures vals == [] && kind != SlopeFit ==> Aggregate(kind, vals, np) == []
    ensures vals == [] && kind == SlopeFit ==> Aggregate(kind, vals, np) == [0.0]
  {
  }
}
