/**
 * The rule node of src/rules/_node.py. A node ANDs its units' verdicts,
 * caches them after every push, and always forwards a sample to every
 * child. A node whose definition says "else" or "root" is unconditional:
 * it holds no units, is always active, and never touches its caches.
 *
 * `NodeState` is the node hierarchy as a value, and `NodePush` and
 * `NodeReset` say what `push` and `reset` do to it. The methods `Push` and
 * `Reset` follow the source's loops over units and children step by step
 * and are proved to compute exactly those functions.
 *
 * The source files call each other inconsistently; the model assumes this
 * wiring: `_refresh_cache` calls `u.check()` (src/rules/_node.py:92), which
 * `Unit` does not define, so the per-unit verdict is `Unit.is_valid`
 * (src/rules/_unit.py:35); `push` passes `u.push` a bare value
 * (src/rules/_node.py:83), so the unit pushes that value; and
 * `u.get_info().metric` (src/rules/_node.py:66), from a method `Unit` does
 * not define, is the unit's metric.
 *
 * The caches start out empty here; `RawNode`, with `RawReset`,
 * `RawActive` and `RawUnitsResults`, below models what the source does
 * instead: the caches do not exist until a conditional node's first push.
 */
module Nodes {
  import opened Values
  import opened Dto
  import opened MetricsKit
  import opened SlidingWindow
  import opened Units
  import opened Ordering

  /** A node as a value: id, kind, units, children (in their current
      order) and the verdict cache, one entry per unit after a push. */
  datatype NodeState = NodeState(
    id: string, unconditional: bool, units: seq<UnitState>, subs: seq<NodeState>, cache: seq<Verdict>)

  /** `cfg.units in ("else", "root")` */
  predicate IsAlways(u: UnitsCfg)
  {
    u.Else? || u.Root?
  }

  /** The units of a conditional definition, each with an empty window. */
  function BuildUnits(u: UnitsCfg, pps: int): (us: seq<UnitState>)
    ensures IsAlways(u) ==> us == []
    ensures u.Conditions? ==> |us| == |u.conds|
    ensures u.Conditions? ==> forall k :: 0 <= k < |us| ==> us[k].shape == ShapeOf(u.conds[k], pps) && us[k].buf == []
  {
    match u
    case Conditions(cs) => seq(|cs|, k requires 0 <= k < |cs| => UnitState(ShapeOf(cs[k], pps), []))
    case _ => []
  }

  /** `Node.from_cfg(cfg, pps=pps)`, with both caches starting empty. */
  function Build(cfg: RuleCfg, pps: int): (n: NodeState)
    decreases cfg
  {
    NodeState(cfg.id, IsAlways(cfg.units), BuildUnits(cfg.units, pps),
              seq(|cfg.sub|, i requires 0 <= i < |cfg.sub| => Build(cfg.sub[i], pps)), [])
  }

  /** The ids of a list of nodes, in order; `sub_ids` is this over `subs`. */
  function Ids(ns: seq<NodeState>): (r: seq<string>)
    ensures |r| == |ns| && forall j :: 0 <= j < |ns| ==> r[j] == ns[j].id
  {
    seq(|ns|, j requires 0 <= j < |ns| => ns[j].id)
  }

  /** The metric of every unit, in unit order (`units_metrics`). */
  function MetricNames(us: seq<UnitState>): (ms: seq<string>)
    ensures |ms| == |us| && forall k :: 0 <= k < |us| ==> ms[k] == us[k].shape.metric
  {
    seq(|us|, k requires 0 <= k < |us| => us[k].shape.metric)
  }

  /** Python's `zip`: pairs up to the shorter of the two lists. */
  function Zip(ms: seq<string>, vs: seq<Verdict>): (r: seq<(string, Verdict)>)
    ensures |r| == if |ms| <= |vs| then |ms| else |vs|
    ensures forall k :: 0 <= k < |r| ==> r[k] == (ms[k], vs[k])
  {
    if ms == [] || vs == [] then [] else [(ms[0], vs[0])] + Zip(ms[1..], vs[1..])
  }

  /** `units_results`: one (metric, verdict) pair per cached verdict. */
  function UnitsResultsOf(n: NodeState): seq<(string, Verdict)>
  {
    Zip(MetricNames(n.units), n.cache)
  }

  /** Each unit fed the sample's value for its metric, NaN when absent. */
  function PushUnits(us: seq<UnitState>, sample: Sample): (r: seq<UnitState>)
    ensures |r| == |us|
  {
    seq(|us|, k requires 0 <= k < |us| => UnitPush(us[k], Lookup(sample, us[k].shape.metric)))
  }

  /** `_refresh_cache`: one verdict per unit, in unit order. */
  function Verdicts(us: seq<UnitState>, np: Numerics): (r: seq<Verdict>)
    ensures |r| == |us|
  {
    seq(|us|, k requires 0 <= k < |us| => Evaluate(us[k].shape, us[k].buf, np))
  }

  /** `Node.push(sample)` */
  function NodePush(n: NodeState, sample: Sample, np: Numerics): NodeState
    decreases n
  {
    var units := if n.unconditional then n.units else PushUnits(n.units, sample);
    NodeState(n.id, n.unconditional, units,
              seq(|n.subs|, i requires 0 <= i < |n.subs| => NodePush(n.subs[i], sample, np)),
              if n.unconditional then n.cache else Verdicts(units, np))
  }

  /** `Node.reset()`: every window emptied, every cache cleared, all the way down. */
  function NodeReset(n: NodeState): NodeState
    decreases n
  {
    NodeState(n.id, n.unconditional,
              seq(|n.units|, k requires 0 <= k < |n.units| => UnitReset(n.units[k])),
              seq(|n.subs|, i requires 0 <= i < |n.subs| => NodeReset(n.subs[i])), [])
  }

  /** `all(cache)` over `Optional[bool]`: `None` and `False` are both falsy. */
  predicate AllSatisfied(cache: seq<Verdict>)
    ensures AllSatisfied(cache) <==> forall k :: 0 <= k < |cache| ==> cache[k] == Satisfied
  {
    cache == [] || (cache[0] == Satisfied && AllSatisfied(cache[1..]))
  }

  /** `is_active` */
  predicate Active(n: NodeState)
  {
    n.unconditional || AllSatisfied(n.cache)
  }

  /** The invariants every reachable node keeps: an unconditional node
      holds no units and no cache, a cache is empty or has one verdict per
      unit, and no window is over capacity. */
  predicate Consistent(n: NodeState)
    decreases n
  {
    && (n.unconditional ==> n.units == [] && n.cache == [])
    && (n.cache == [] || |n.cache| == |n.units|)
    && (forall k :: 0 <= k < |n.units| ==> |n.units[k].buf| <= n.units[k].shape.capacity)
    && (forall i :: 0 <= i < |n.subs| ==> Consistent(n.subs[i]))
  }

  /** Same ids, kinds, unit shapes and child structure; windows and caches may differ. */
  predicate SameShape(a: NodeState, b: NodeState)
    decreases a
  {
    && a.id == b.id && a.unconditional == b.unconditional
    && |a.units| == |b.units|
    && (forall k :: 0 <= k < |a.units| ==> a.units[k].shape == b.units[k].shape)
    && |a.subs| == |b.subs|
    && (forall i :: 0 <= i < |a.subs| ==> SameShape(a.subs[i], b.subs[i]))
  }

  /** Nothing buffered and nothing cached anywhere in the hierarchy. */
  predicate Clean(n: NodeState)
  {
    NodeReset(n) == n
  }

  // ------------------------------------------------------------- lemmas

  /** A node is unconditional iff its definition is "else" or "root"; such a
      node holds no units. It is a leaf (`is_leaf`) iff its definition has
      no children, and its `sub_ids` are the children's ids in the
      definition's order. */
  lemma BuildStructure(cfg: RuleCfg, pps: int)
    ensures Build(cfg, pps).unconditional <==> IsAlways(cfg.units)
    ensures Build(cfg, pps).unconditional ==> Build(cfg, pps).units == []
    ensures Build(cfg, pps).subs == [] <==> cfg.sub == []
    ensures |Build(cfg, pps).subs| == |cfg.sub|
    ensures Ids(Build(cfg, pps).subs) == seq(|cfg.sub|, i requires 0 <= i < |cfg.sub| => cfg.sub[i].id)
    ensures cfg.units.Conditions? ==> MetricNames(Build(cfg, pps).units) == seq(|cfg.units.conds|, k requires 0 <= k < |cfg.units.conds| => cfg.units.conds[k].metric)
  {
  }

  /** A freshly built hierarchy keeps the invariants. */
  lemma {:induction false} BuildIsConsistent(cfg: RuleCfg, pps: int)
    ensures Consistent(Build(cfg, pps))
    decreases cfg
  {
    var n := Build(cfg, pps);
    forall i | 0 <= i < |n.subs| ensures Consistent(n.subs[i]) {
      BuildIsConsistent(cfg.sub[i], pps);
    }
  }

  /** A freshly built hierarchy is already in its reset state. */
  lemma {:induction false} BuildIsClean(cfg: RuleCfg, pps: int)
    ensures Clean(Build(cfg, pps))
    decreases cfg
  {
    var n := Build(cfg, pps);
    forall i | 0 <= i < |n.subs| ensures NodeReset(n.subs[i]) == n.subs[i] {
      BuildIsClean(cfg.sub[i], pps);
    }
    assert NodeReset(n).units == n.units;
    assert NodeReset(n).subs == n.subs;
  }

  /** Two hierarchies have the same shape either way round. */
  lemma {:induction false} SameShapeSymmetric(a: NodeState, b: NodeState)
    requires SameShape(a, b)
    ensures SameShape(b, a)
    decreases a
  {
    forall i | 0 <= i < |b.subs| ensures SameShape(b.subs[i], a.subs[i]) {
      SameShapeSymmetric(a.subs[i], b.subs[i]);
    }
  }

  /** A push changes windows and caches only. */
  lemma {:induction false} PushKeepsShape(n: NodeState, sample: Sample, np: Numerics)
    ensures SameShape(NodePush(n, sample, np), n)
    decreases n
  {
    var r := NodePush(n, sample, np);
    forall i | 0 <= i < |n.subs| ensures SameShape(r.subs[i], n.subs[i]) {
      PushKeepsShape(n.subs[i], sample, np);
    }
  }

  /** A reset changes windows and caches only. */
  lemma {:induction false} ResetKeepsShape(n: NodeState)
    ensures SameShape(NodeReset(n), n)
    decreases n
  {
    var r := NodeReset(n);
    forall i | 0 <= i < |n.subs| ensures SameShape(r.subs[i], n.subs[i]) {
      ResetKeepsShape(n.subs[i]);
    }
  }

  /** A push keeps the invariants. */
  lemma {:induction false} PushIsConsistent(n: NodeState, sample: Sample, np: Numerics)
    requires Consistent(n)
    ensures Consistent(NodePush(n, sample, np))
    decreases n
  {
    var r := NodePush(n, sample, np);
    forall i | 0 <= i < |n.subs| ensures Consistent(r.subs[i]) {
      PushIsConsistent(n.subs[i], sample, np);
    }
  }

  /** A reset keeps the invariants. */
  lemma {:induction false} ResetIsConsistent(n: NodeState)
    requires Consistent(n)
    ensures Consistent(NodeReset(n))
    decreases n
  {
    var r := NodeReset(n);
    forall i | 0 <= i < |n.subs| ensures Consistent(r.subs[i]) {
      ResetIsConsistent(n.subs[i]);
    }
  }

  /** On a conditional node, a push slides each unit's window by the sample's
      value for that unit's metric (NaN when absent) and then caches one
      verdict per unit, in unit order. */
  lemma ConditionalPush(n: NodeState, sample: Sample, np: Numerics)
    requires Consistent(n) && !n.unconditional
    ensures var r := NodePush(n, sample, np);
      && |r.units| == |n.units| == |r.cache|
      && (forall k :: 0 <= k < |n.units| ==>
            r.units[k].shape == n.units[k].shape &&
            r.units[k].buf == Slide(n.units[k].buf, n.units[k].shape.capacity, Lookup(sample, n.units[k].shape.metric)) &&
            r.cache[k] == Evaluate(r.units[k].shape, r.units[k].buf, np))
      && UnitsResultsOf(r) == seq(|n.units|, k requires 0 <= k < |n.units| => (n.units[k].shape.metric, r.cache[k]))
  {
  }

  /** On an unconditional node, a push leaves units and cache as they were. */
  lemma UnconditionalPush(n: NodeState, sample: Sample, np: Numerics)
    requires n.unconditional
    ensures NodePush(n, sample, np).units == n.units
    ensures NodePush(n, sample, np).cache == n.cache
  {
  }

  /** Every child receives the sample, whatever this node's own outcome. */
  lemma PushReachesEveryChild(n: NodeState, sample: Sample, np: Numerics)
    ensures |NodePush(n, sample, np).subs| == |n.subs|
    ensures forall i :: 0 <= i < |n.subs| ==> NodePush(n, sample, np).subs[i] == NodePush(n.subs[i], sample, np)
  {
  }

  /** `is_active`: always for an unconditional node, otherwise iff every
      cached verdict is Satisfied; an empty cache is vacuously active. */
  lemma ActiveMeans(n: NodeState)
    ensures Active(n) <==> n.unconditional || forall k :: 0 <= k < |n.cache| ==> n.cache[k] == Satisfied
    ensures !n.unconditional && (exists k :: 0 <= k < |n.cache| && n.cache[k] != Satisfied) ==> !Active(n)
  {
  }

  /** After a push, a conditional node is active iff each of its units, fed
      this sample, is Satisfied. */
  lemma ActiveAfterPush(n: NodeState, sample: Sample, np: Numerics)
    requires !n.unconditional
    ensures Active(NodePush(n, sample, np)) <==>
      forall k :: 0 <= k < |n.units| ==>
        var u := UnitPush(n.units[k], Lookup(sample, n.units[k].shape.metric));
        Evaluate(u.shape, u.buf, np) == Satisfied
  {
    var r := NodePush(n, sample, np);
    assert forall k :: 0 <= k < |n.units| ==> r.cache[k] == Evaluate(r.units[k].shape, r.units[k].buf, np);
  }

  /** A sample that lacks a unit's metric makes that unit Undecided, so the
      node cannot report active. */
  lemma MissingMetricBlocks(n: NodeState, sample: Sample, np: Numerics, k: nat)
    requires !n.unconditional && k < |n.units| && n.units[k].shape.metric !in sample
    ensures NodePush(n, sample, np).cache[k] == Undecided
    ensures !Active(NodePush(n, sample, np))
  {
    var r := NodePush(n, sample, np);
    assert r.units[k] == UnitPush(n.units[k], NaN);
    NaNPushedIsUndecided(n.units[k], np);
  }

  /** After a reset the node, conditional or not, reports active until its
      next push, and each of its own windows is empty. */
  lemma ResetIsActive(n: NodeState)
    ensures Active(NodeReset(n))
    ensures forall k :: 0 <= k < |n.units| ==> NodeReset(n).units[k].buf == []
    ensures UnitsResultsOf(NodeReset(n)) == []
  {
  }

  /** A reset forgets the sample pushed before it. */
  lemma {:induction false} ResetForgetsPush(n: NodeState, sample: Sample, np: Numerics)
    ensures NodeReset(NodePush(n, sample, np)) == NodeReset(n)
    decreases n
  {
    var a, b := NodeReset(NodePush(n, sample, np)), NodeReset(n);
    forall i | 0 <= i < |n.subs| ensures a.subs[i] == b.subs[i] {
      ResetForgetsPush(n.subs[i], sample, np);
    }
  }

  /** Resetting twice is resetting once. */
  lemma {:induction false} ResetIsIdempotent(n: NodeState)
    ensures Clean(NodeReset(n))
    decreases n
  {
    var r := NodeReset(n);
    forall i | 0 <= i < |n.subs| ensures NodeReset(r.subs[i]) == r.subs[i] {
      ResetIsIdempotent(n.subs[i]);
    }
    assert NodeReset(r).units == r.units;
    assert NodeReset(r).subs == r.subs;
  }

  // ------------------------------------------------------ the node's loops

  /** `Node.push(sample)` step by step: a conditional node feeds its units
      and refreshes its cache, an unconditional one skips both; then every
      child receives the sample. */
  method Push(n: NodeState, sample: Sample, np: Numerics) returns (r: NodeState)
    ensures r == NodePush(n, sample, np)
    decreases n, 1
  {
    var units, cache := n.units, n.cache;
    if !n.unconditional {
      units := FeedUnits(n.units, sample);
      cache := Verdicts(units, np);
    }
    var subs := PushAll(n.subs, sample, np);
    r := NodeState(n.id, n.unconditional, units, subs, cache);
  }

  /** The loop over `zip(units, units_metrics)`: each unit, in order, gets
      the sample's value for its metric, NaN when absent. */
  method FeedUnits(us: seq<UnitState>, sample: Sample) returns (r: seq<UnitState>)
    ensures r == PushUnits(us, sample)
  {
    r := us;
    for k := 0 to |r|
      invariant |r| == |us|
      invariant forall j :: 0 <= j < k ==> r[j] == UnitPush(us[j], Lookup(sample, us[j].shape.metric))
      invariant forall j :: k <= j < |r| ==> r[j] == us[j]
    {
      r := r[k := UnitPush(r[k], Lookup(sample, r[k].shape.metric))];
    }
  }

  /** The loop over `subs`: every child, in order, receives the sample. */
  method PushAll(ss: seq<NodeState>, sample: Sample, np: Numerics) returns (rs: seq<NodeState>)
    ensures |rs| == |ss| && forall j :: 0 <= j < |ss| ==> rs[j] == NodePush(ss[j], sample, np)
    decreases ss, 0
  {
    rs := [];
    for i := 0 to |ss|
      invariant |rs| == i
      invariant forall j :: 0 <= j < i ==> rs[j] == NodePush(ss[j], sample, np)
    {
      var s := Push(ss[i], sample, np);
      MapSnoc(ss, rs, s, x => NodePush(x, sample, np));
      rs := rs + [s];
    }
  }

  /** A loop that maps `f` over `ss`, one element more. */
  lemma MapSnoc<T>(ss: seq<T>, rs: seq<T>, s: T, f: T -> T)
    requires |rs| < |ss| && s == f(ss[|rs|])
    requires forall j :: 0 <= j < |rs| ==> rs[j] == f(ss[j])
    ensures forall j :: 0 <= j < |rs| + 1 ==> (rs + [s])[j] == f(ss[j])
  {
  }

  /** `Node.reset()` step by step: every unit is reset, then every child,
      then both caches are cleared. */
  method Reset(n: NodeState) returns (r: NodeState)
    ensures r == NodeReset(n)
    decreases n, 1
  {
    var units := ResetUnits(n.units);
    var subs := ResetAll(n.subs);
    r := NodeState(n.id, n.unconditional, units, subs, []);
  }

  /** `for u in self.units: u.reset()` */
  method ResetUnits(us: seq<UnitState>) returns (r: seq<UnitState>)
    ensures |r| == |us| && forall k :: 0 <= k < |us| ==> r[k] == UnitReset(us[k])
  {
    r := us;
    for k := 0 to |r|
      invariant |r| == |us|
      invariant forall j :: 0 <= j < k ==> r[j] == UnitReset(us[j])
      invariant forall j :: k <= j < |r| ==> r[j] == us[j]
    {
      r := r[k := UnitReset(r[k])];
    }
  }

  /** `for s in self.subs: s.reset()` */
  method ResetAll(ss: seq<NodeState>) returns (rs: seq<NodeState>)
    ensures |rs| == |ss| && forall j :: 0 <= j < |ss| ==> rs[j] == NodeReset(ss[j])
    decreases ss, 0
  {
    rs := [];
    for i := 0 to |ss|
      invariant |rs| == i
      invariant forall j :: 0 <= j < i ==> rs[j] == NodeReset(ss[j])
    {
      var s := Reset(ss[i]);
      rs := rs + [s];
    }
  }

  // ------------------------------------------------- the caches as written

  /** What a call in the source returns, or the AttributeError it raises. */
  datatype Raised<T> = Returned(value: T) | AttributeError

  /** A node as the source builds it: `_eval_cache` and `_match_cache` are
      declared `field(init=False)`, `from_cfg` never assigns them, and only
      `_refresh_cache` does. `cache` is `None` while the attribute does not
      exist. */
  datatype RawNode = RawNode(
    id: string, unconditional: bool, units: seq<UnitState>, subs: seq<RawNode>, cache: Option<seq<Verdict>>)

  /** `Node.from_cfg` as written: no cache attribute anywhere. */
  function RawBuild(cfg: RuleCfg, pps: int): (n: RawNode)
    decreases cfg
  {
    RawNode(cfg.id, IsAlways(cfg.units), BuildUnits(cfg.units, pps),
            seq(|cfg.sub|, i requires 0 <= i < |cfg.sub| => RawBuild(cfg.sub[i], pps)), None)
  }

  /** `Node.push` as written: only a conditional node assigns its cache. */
  function RawPush(n: RawNode, sample: Sample, np: Numerics): (r: RawNode)
    decreases n
  {
    var units := if n.unconditional then n.units else PushUnits(n.units, sample);
    RawNode(n.id, n.unconditional, units,
            seq(|n.subs|, i requires 0 <= i < |n.subs| => RawPush(n.subs[i], sample, np)),
            if n.unconditional then n.cache else Some(Verdicts(units, np)))
  }

  /** The children reset in order; the first one that raises ends the loop. */
  function RawResetAll(ss: seq<RawNode>): (r: Raised<seq<RawNode>>)
    ensures r.Returned? ==> |r.value| == |ss|
    decreases ss, 0
  {
    if ss == [] then Returned([])
    else
      match RawResetAll(ss[..|ss| - 1])
      case AttributeError => AttributeError
      case Returned(init) =>
        match RawReset(ss[|ss| - 1])
        case AttributeError => AttributeError
        case Returned(last) => Returned(init + [last])
  }

  /** `Node.reset` as written: units, then children, then
      `self._eval_cache.clear()`, which raises when the attribute was never
      assigned. */
  function RawReset(n: RawNode): (r: Raised<RawNode>)
    decreases n, 1
  {
    match RawResetAll(n.subs)
    case AttributeError => AttributeError
    case Returned(subs) =>
      if n.cache.None? then AttributeError
      else Returned(RawNode(n.id, n.unconditional,
                            seq(|n.units|, k requires 0 <= k < |n.units| => UnitReset(n.units[k])), subs, Some([])))
  }

  /** The node with a missing cache read as an empty one. */
  function Forget(n: RawNode): (m: NodeState)
    decreases n
  {
    NodeState(n.id, n.unconditional, n.units,
              seq(|n.subs|, i requires 0 <= i < |n.subs| => Forget(n.subs[i])),
              if n.cache.Some? then n.cache.value else [])
  }

  /** Building and pushing as written agree with the model in everything
      but the existence of the caches. */
  lemma {:induction false} RawBuildAgrees(cfg: RuleCfg, pps: int)
    ensures Forget(RawBuild(cfg, pps)) == Build(cfg, pps)
    decreases cfg
  {
    forall i | 0 <= i < |cfg.sub| ensures Forget(RawBuild(cfg, pps)).subs[i] == Build(cfg, pps).subs[i] {
      RawBuildAgrees(cfg.sub[i], pps);
    }
  }

  lemma {:induction false} RawPushAgrees(n: RawNode, sample: Sample, np: Numerics)
    ensures Forget(RawPush(n, sample, np)) == NodePush(Forget(n), sample, np)
    decreases n
  {
    forall i | 0 <= i < |n.subs|
      ensures Forget(RawPush(n, sample, np)).subs[i] == NodePush(Forget(n), sample, np).subs[i]
    {
      RawPushAgrees(n.subs[i], sample, np);
    }
  }

  /** An unconditional node never assigns its cache, however many samples
      it receives. */
  lemma UnconditionalStaysUncached(n: RawNode, sample: Sample, np: Numerics)
    requires n.unconditional && n.cache.None?
    ensures RawPush(n, sample, np).unconditional && RawPush(n, sample, np).cache.None?
  {
  }

  /** As written, resetting a hierarchy whose top node is "else" or "root"
      raises, whether or not samples were pushed first. For a whole tree see
      `ResetRaisesWhere`: the reset raises before any push, and after a push
      only when the tree holds an unconditional node. */
  lemma {:induction false} ResetRaisesAsWritten(n: RawNode)
    requires n.unconditional && n.cache.None?
    ensures RawReset(n).AttributeError?
  {
  }

  lemma ResetOfRootRaises(pps: int, sample: Sample, np: Numerics)
    ensures RawReset(RawBuild(RuleCfg("root", Root, []), pps)).AttributeError?
    ensures RawReset(RawPush(RawBuild(RuleCfg("root", Root, []), pps), sample, np)).AttributeError?
  {
    var n := RawBuild(RuleCfg("root", Root, []), pps);
    assert n.unconditional && n.cache.None?;
    ResetRaisesAsWritten(n);
    UnconditionalStaysUncached(n, sample, np);
    ResetRaisesAsWritten(RawPush(n, sample, np));
  }

  /** Wherever the source's reset does return, it does what `NodeReset`
      does; `NodeReset`, over caches that start out empty, always returns. */
  lemma {:induction false} RawResetAgrees(n: RawNode)
    requires RawReset(n).Returned?
    ensures Forget(RawReset(n).value) == NodeReset(Forget(n))
    decreases n, 1
  {
    RawResetAllAgrees(n.subs);
  }

  lemma {:induction false} RawResetAllAgrees(ss: seq<RawNode>)
    requires RawResetAll(ss).Returned?
    ensures forall i :: 0 <= i < |ss| ==> Forget(RawResetAll(ss).value[i]) == NodeReset(Forget(ss[i]))
    decreases ss, 0
  {
    if ss != [] {
      var init := ss[..|ss| - 1];
      RawResetAllAgrees(init);
      RawResetAgrees(ss[|ss| - 1]);
    }
  }

  /** Some node of the hierarchy has no cache attribute. */
  predicate SomeUncached(n: RawNode)
    decreases n
  {
    n.cache.None? || exists i :: 0 <= i < |n.subs| && SomeUncached(n.subs[i])
  }

  /** Some node of the hierarchy is unconditional. */
  predicate SomeUnconditional(n: RawNode)
    decreases n
  {
    n.unconditional || exists i :: 0 <= i < |n.subs| && SomeUnconditional(n.subs[i])
  }

  /** The children's loop raises once one child's reset raises. */
  lemma {:induction false} ResetAllRaises(ss: seq<RawNode>, i: nat)
    requires i < |ss| && RawReset(ss[i]).AttributeError?
    ensures RawResetAll(ss).AttributeError?
    decreases ss
  {
    if i < |ss| - 1 {
      ResetAllRaises(ss[..|ss| - 1], i);
    }
  }

  /** As written, a reset raises as soon as any node of the hierarchy lacks
      its cache attribute. */
  lemma {:induction false} UncachedResetRaises(n: RawNode)
    requires SomeUncached(n)
    ensures RawReset(n).AttributeError?
    decreases n
  {
    if n.cache.Some? {
      var i :| 0 <= i < |n.subs| && SomeUncached(n.subs[i]);
      UncachedResetRaises(n.subs[i]);
      ResetAllRaises(n.subs, i);
    }
  }

  lemma {:induction false} PushKeepsSomeUnconditional(n: RawNode, sample: Sample, np: Numerics)
    requires SomeUnconditional(n)
    ensures SomeUnconditional(RawPush(n, sample, np))
    decreases n
  {
    if !n.unconditional {
      var i :| 0 <= i < |n.subs| && SomeUnconditional(n.subs[i]);
      PushKeepsSomeUnconditional(n.subs[i], sample, np);
      assert RawPush(n, sample, np).subs[i] == RawPush(n.subs[i], sample, np);
    }
  }

  lemma {:induction false} UnconditionalIsUncached(n: RawNode)
    requires UncondUncached(n) && SomeUnconditional(n)
    ensures SomeUncached(n)
    decreases n
  {
    if !n.unconditional {
      var i :| 0 <= i < |n.subs| && SomeUnconditional(n.subs[i]);
      UnconditionalIsUncached(n.subs[i]);
    }
  }

  /** As written, resetting a built hierarchy raises before any push, and
      after a push whenever the hierarchy has an unconditional node. */
  lemma ResetRaisesWhere(cfg: RuleCfg, pps: int, sample: Sample, np: Numerics)
    ensures RawReset(RawBuild(cfg, pps)).AttributeError?
    ensures SomeUnconditional(RawBuild(cfg, pps)) ==> RawReset(RawPush(RawBuild(cfg, pps), sample, np)).AttributeError?
  {
    var n := RawBuild(cfg, pps);
    UncachedResetRaises(n);
    if SomeUnconditional(n) {
      BuildIsUncondUncached(cfg, pps);
      PushKeepsUncondUncached(n, sample, np);
      PushKeepsSomeUnconditional(n, sample, np);
      UnconditionalIsUncached(RawPush(n, sample, np));
      UncachedResetRaises(RawPush(n, sample, np));
    }
  }

  // ------------------------------------------- the queries as written

  /** `units_results` as written: it returns `_match_cache`, which raises
      while the attribute was never assigned; the pairs it returns are the
      model's. */
  function RawUnitsResults(n: RawNode): (r: Raised<seq<(string, Verdict)>>)
    ensures r.AttributeError? <==> n.cache.None?
    ensures r.Returned? ==> r.value == UnitsResultsOf(Forget(n))
  {
    if n.cache.None? then AttributeError else Returned(Zip(MetricNames(n.units), n.cache.value))
  }

  /** `is_active` as written: an unconditional node answers without reading
      `_eval_cache`; a conditional one raises while the attribute was never
      assigned, and otherwise answers as the model does. */
  function RawActive(n: RawNode): (r: Raised<bool>)
    ensures r.AttributeError? <==> !n.unconditional && n.cache.None?
    ensures r.Returned? ==> (r.value <==> Active(Forget(n)))
  {
    if n.unconditional then Returned(true)
    else if n.cache.None? then AttributeError
    else Returned(AllSatisfied(n.cache.value))
  }

  /** No unconditional node, anywhere in the hierarchy, has a cache attribute. */
  predicate UncondUncached(n: RawNode)
    decreases n
  {
    && (n.unconditional ==> n.cache.None?)
    && forall i :: 0 <= i < |n.subs| ==> UncondUncached(n.subs[i])
  }

  /** Every conditional node, anywhere in the hierarchy, has its cache attribute. */
  predicate CondCached(n: RawNode)
    decreases n
  {
    && (!n.unconditional ==> n.cache.Some?)
    && forall i :: 0 <= i < |n.subs| ==> CondCached(n.subs[i])
  }

  /** At every unconditional node of the hierarchy `units_results` raises. */
  predicate ResultsRaiseWhereUnconditional(n: RawNode)
    decreases n
  {
    && (n.unconditional ==> RawUnitsResults(n).AttributeError?)
    && forall i :: 0 <= i < |n.subs| ==> ResultsRaiseWhereUnconditional(n.subs[i])
  }

  lemma {:induction false} BuildIsUncondUncached(cfg: RuleCfg, pps: int)
    ensures UncondUncached(RawBuild(cfg, pps))
    decreases cfg
  {
    var n := RawBuild(cfg, pps);
    forall i | 0 <= i < |n.subs| ensures UncondUncached(n.subs[i]) {
      BuildIsUncondUncached(cfg.sub[i], pps);
    }
  }

  /** A push never gives an unconditional node a cache attribute. */
  lemma {:induction false} PushKeepsUncondUncached(n: RawNode, sample: Sample, np: Numerics)
    requires UncondUncached(n)
    ensures UncondUncached(RawPush(n, sample, np))
    decreases n
  {
    var r := RawPush(n, sample, np);
    forall i | 0 <= i < |n.subs| ensures UncondUncached(r.subs[i]) {
      PushKeepsUncondUncached(n.subs[i], sample, np);
    }
  }

  /** After a push every conditional node has its cache attribute, so
      `is_active` no longer raises anywhere. */
  lemma {:induction false} PushCachesConditional(n: RawNode, sample: Sample, np: Numerics)
    ensures CondCached(RawPush(n, sample, np))
    decreases n
  {
    var r := RawPush(n, sample, np);
    forall i | 0 <= i < |n.subs| ensures CondCached(r.subs[i]) {
      PushCachesConditional(n.subs[i], sample, np);
    }
  }

  lemma {:induction false} UncachedResultsRaise(n: RawNode)
    requires UncondUncached(n)
    ensures ResultsRaiseWhereUnconditional(n)
    decreases n
  {
    forall i | 0 <= i < |n.subs| ensures ResultsRaiseWhereUnconditional(n.subs[i]) {
      UncachedResultsRaise(n.subs[i]);
    }
  }

  /** As written, however many samples were pushed, `units_results` raises
      at every unconditional node of a built hierarchy. */
  lemma ResultsOfUnconditionalRaise(cfg: RuleCfg, pps: int, sample: Sample, np: Numerics)
    ensures ResultsRaiseWhereUnconditional(RawBuild(cfg, pps))
    ensures ResultsRaiseWhereUnconditional(RawPush(RawBuild(cfg, pps), sample, np))
  {
    BuildIsUncondUncached(cfg, pps);
    UncachedResultsRaise(RawBuild(cfg, pps));
    PushKeepsUncondUncached(RawBuild(cfg, pps), sample, np);
    UncachedResultsRaise(RawPush(RawBuild(cfg, pps), sample, np));
  }

  /** As written, a conditional node can say neither whether it is active
      nor what its results are before its first push; the model answers
      "active" and "no results" there. */
  lemma UnpushedConditionalRaises(cfg: RuleCfg, pps: int)
    requires cfg.units.Conditions?
    ensures RawActive(RawBuild(cfg, pps)).AttributeError?
    ensures RawUnitsResults(RawBuild(cfg, pps)).AttributeError?
    ensures Active(Build(cfg, pps)) && UnitsResultsOf(Build(cfg, pps)) == []
  {
  }
}
