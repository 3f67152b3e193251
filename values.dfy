/**
 * Values that flow through the rule engine: the entries of a window, the
 * tri-state verdict of a condition, and the sample a caller pushes.
 */
module Values {

  /** A window entry: a finite number, or the not-a-number sentinel that a
      missing metric turns into (src/rules/_node.py:82). */
  datatype Value = Num(x: real) | NaN

  /** The result of `Unit.is_valid`: `None`, `True` or `False` in the source. */
  datatype Verdict = Undecided | Satisfied | Violated

  datatype Option<T> = None | Some(value: T)

  /** One sample: metric name to value. The sample's timestamp is never read
      by the evaluation, so it is not part of the model. */
  type Sample = map<string, Value>

  /** `sample.get(metric, math.nan)` */
  function Lookup(sample: Sample, metric: string): (v: Value)
  {
    if metric in sample then sample[metric] else NaN
  }

  /** `any(math.isnan(v) for v in vs)`, scanning left to right. */
  predicate HasNaN(vs: seq<Value>)
    ensures HasNaN(vs) <==> exists i :: 0 <= i < |vs| && vs[i] == NaN
  {
    if vs == [] then false else vs[0] == NaN || HasNaN(vs[1..])
  }

  /** The numbers of a window that holds no NaN, in the same order. */
  function Reals(vs: seq<Value>): (r: seq<real>)
    requires !HasNaN(vs)
    ensures |r| == |vs|
    ensures forall i :: 0 <= i < |vs| ==> vs[i] == Num(r[i])
  {
    if vs == [] then [] else [vs[0].x] + Reals(vs[1..])
  }
}
