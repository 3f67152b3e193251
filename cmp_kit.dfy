/**
 * The interval comparators of src/utils/_cmp_kit.py: a constant table from
 * an interval token to a predicate `(x, a, b) -> bool`, and a lookup that
 * falls back to an always-false predicate for a token it does not know.
 */
module CmpKit {

  /** The four interval shapes, named after their tokens "[]", "[)", "(]", "()". */
  datatype Interval = ClosedBoth | ClosedOpen | OpenClosed | OpenBoth

  /** A resolved comparator: one of the table's predicates, or the fallback. */
  datatype Comparator = Known(kind: Interval) | AlwaysFalse

  /** `CmpKit._cmp_map`, keyed by token. */
  const CmpMap: map<string, Interval> :=
    map["[]" := ClosedBoth, "[)" := ClosedOpen, "(]" := OpenClosed, "()" := OpenBoth]

  /** The lambda stored under each token. */
  predicate Holds(kind: Interval, x: real, a: real, b: real)
  {
    match kind
    case ClosedBoth => a <= x <= b
    case ClosedOpen => a <= x < b
    case OpenClosed => a < x <= b
    case OpenBoth => a < x < b
  }

  /** Calling a resolved comparator. */
  predicate Apply(c: Comparator, x: real, a: real, b: real)
  {
    match c
    case Known(kind) => Holds(kind, x, a, b)
    case AlwaysFalse => false
  }

  /** `CmpKit.get`: the table's predicate, or an always-false one, for a token. */
  function Get(token: string): (c: Comparator)
    ensures token in CmpMap <==> c.Known?
    ensures c.Known? ==> c.kind == CmpMap[token]
  {
    if token in CmpMap then Known(CmpMap[token]) else AlwaysFalse
  }

  /** An unsupported token resolves to a predicate false on every input. */
  lemma UnknownTokenRejectsAll(token: string)
    requires token !in CmpMap
    ensures forall x: real, a: real, b: real :: !Apply(Get(token), x, a, b)
  {
  }

  /** A supported token resolves to exactly the predicate stored under it. */
  lemma KnownTokenIsMapped(token: string)
    requires token in CmpMap
    ensures forall x: real, a: real, b: real :: Apply(Get(token), x, a, b) == Holds(CmpMap[token], x, a, b)
  {
  }

  /** What each token means once looked up. */
  lemma TokenSemantics(x: real, a: real, b: real)
    ensures Apply(Get("[]"), x, a, b) <==> a <= x <= b
    ensures Apply(Get("[)"), x, a, b) <==> a <= x < b
    ensures Apply(Get("(]"), x, a, b) <==> a < x <= b
    ensures Apply(Get("()"), x, a, b) <==> a < x < b
  {
  }

  /** The open interval lies inside both half-open ones, and each half-open
      one inside the closed one. */
  lemma IntervalsNest(x: real, a: real, b: real)
    ensures Holds(OpenBoth, x, a, b) ==> Holds(ClosedOpen, x, a, b) && Holds(OpenClosed, x, a, b)
    ensures Holds(ClosedOpen, x, a, b) ==> Holds(ClosedBoth, x, a, b)
    ensures Holds(OpenClosed, x, a, b) ==> Holds(ClosedBoth, x, a, b)
  {
  }

  /** Behaviour at the endpoints of [5, 10]. */
  lemma Endpoints()
    ensures Holds(ClosedBoth, 5.0, 5.0, 10.0) && Holds(ClosedBoth, 10.0, 5.0, 10.0)
    ensures !Holds(OpenBoth, 5.0, 5.0, 10.0) && !Holds(OpenBoth, 10.0, 5.0, 10.0)
    ensures Holds(ClosedOpen, 5.0, 5.0, 10.0) && !Holds(ClosedOpen, 10.0, 5.0, 10.0)
    ensures !Holds(OpenClosed, 5.0, 5.0, 10.0) && Holds(OpenClosed, 10.0, 5.0, 10.0)
  {
  }
}
