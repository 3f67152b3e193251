/**
 * The rule tree of src/rules/tree.py: it owns the root of the node
 * hierarchy, lists once the metrics the hierarchy reads, sorts every
 * node's children so that unconditional ones come last, and after every
 * push walks down from the root, at each level into the first active
 * child, recording the path it took.
 *
 * The hierarchy is the value `NodeState`; the tree's own fields are the
 * fields of the class `RuleTree`. The tree calls the node through names the
 * node file does not define; the model assumes this wiring: the `_Node` it
 * imports (src/rules/tree.py:10) is `Node`, `push_recursive` is
 * `Node.push`, `is_always_true` is `Node.is_unconditional`, and the
 * `u.metric` that `_collect_metrics` reads (src/rules/tree.py:79), where
 * `Unit` has only the private `_metric` (src/rules/_unit.py:16), is the
 * unit's metric, `shape.metric` here.
 */
module Tree {
  import opened Values
  import opened Dto
  import opened MetricsKit
  import opened Units
  import opened Nodes
  import opened Ordering

  // ---------------------------------------------------------------- metrics

  /** The metrics of a node's own units, when it is conditional. */
  function OwnMetrics(n: NodeState): (ms: set<string>)
    ensures forall m :: m in ms <==> !n.unconditional && exists k :: 0 <= k < |n.units| && n.units[k].shape.metric == m
  {
    if n.unconditional then {} else set k | 0 <= k < |n.units| :: n.units[k].shape.metric
  }

  /** The metrics of every conditional node of the hierarchy. */
  function MetricsIn(n: NodeState): set<string>
    decreases n, 1
  {
    OwnMetrics(n) + MetricsInAll(n.subs)
  }

  function MetricsInAll(ss: seq<NodeState>): set<string>
    decreases ss, 0
  {
    if ss == [] then {} else MetricsInAll(ss[..|ss| - 1]) + MetricsIn(ss[|ss| - 1])
  }

  /** A metric is read by a list of hierarchies iff one of them reads it. */
  lemma {:induction false} MetricsInAllMeans(ss: seq<NodeState>, m: string)
    ensures m in MetricsInAll(ss) <==> exists i :: 0 <= i < |ss| && m in MetricsIn(ss[i])
  {
    if ss != [] {
      var init := ss[..|ss| - 1];
      MetricsInAllMeans(init, m);
      if m in MetricsInAll(init) {
        var i :| 0 <= i < |init| && m in MetricsIn(init[i]);
        assert ss[i] == init[i];
      }
      if exists i :: 0 <= i < |ss| && m in MetricsIn(ss[i]) {
        var i :| 0 <= i < |ss| && m in MetricsIn(ss[i]);
        if i < |init| {
          assert init[i] == ss[i];
        }
      }
    }
  }

  /** The nested `walk`: `mets.update(u.metric for u in node.units)` on a
      conditional node, then the walk into every child. */
  method Walk(n: NodeState, mets: set<string>) returns (r: set<string>)
    ensures r == mets + MetricsIn(n)
    decreases n
  {
    r := mets;
    if !n.unconditional {
      r := r + set k | 0 <= k < |n.units| :: n.units[k].shape.metric;
    }
    for i := 0 to |n.subs|
      invariant r == mets + OwnMetrics(n) + MetricsInAll(n.subs[..i])
    {
      assert n.subs[..i + 1][..i] == n.subs[..i];
      r := Walk(n.subs[i], r);
    }
    assert n.subs[..|n.subs|] == n.subs;
  }

  /** `sorted(mets)`: the names in increasing order, each once. */
  method SortedNames(mets: set<string>) returns (r: seq<string>)
    ensures StrictlySorted(r)
    ensures forall m :: m in r <==> m in mets
  {
    r := [];
    var rest := mets;
    while rest != {}
      invariant StrictlySorted(r)
      invariant forall m :: m in mets <==> m in r || m in rest
      invariant forall m :: m in r ==> m !in rest
      decreases |rest|
    {
      var m :| m in rest;
      r := Insert(r, m);
      rest := rest - {m};
    }
  }

  /** `_collect_metrics`: the sorted, duplicate-free union of the metrics
      of every conditional node. */
  method CollectMetrics(root: NodeState) returns (ms: seq<string>)
    ensures StrictlySorted(ms)
    ensures forall m :: m in ms <==> m in MetricsIn(root)
  {
    var mets := Walk(root, {});
    ms := SortedNames(mets);
  }

  /** A strictly sorted list is determined by its elements: `metrics` is
      the one such list. */
  lemma {:induction false} SortedIsUnique(a: seq<string>, b: seq<string>)
    requires StrictlySorted(a) && StrictlySorted(b)
    requires forall m :: m in a <==> m in b
    ensures a == b
  {
    EmptyTogether(a, b);
    if a != [] {
      HeadsAgree(a, b);
      forall m ensures m in a[1..] ==> m in b[1..] {
        if m in a[1..] {
          TailMember(a, b, m);
        }
      }
      forall m ensures m in b[1..] ==> m in a[1..] {
        if m in b[1..] {
          TailMember(b, a, m);
        }
      }
      SortedIsUnique(a[1..], b[1..]);
      assert a == [a[0]] + a[1..] && b == [b[0]] + b[1..];
    }
  }

  lemma EmptyTogether(a: seq<string>, b: seq<string>)
    requires forall m :: m in a <==> m in b
    ensures a == [] <==> b == []
  {
    if a != [] {
      assert a[0] in a;
    }
    if b != [] {
      assert b[0] in b;
    }
  }

  /** Every member of a sorted list is its head or comes after it. */
  lemma HeadIsLeast(a: seq<string>, m: string)
    requires StrictlySorted(a) && m in a
    ensures m == a[0] || LexLess(a[0], m)
  {
    var i :| 0 <= i < |a| && a[i] == m;
    if i > 0 {
      assert LexLess(a[0], a[i]);
    }
  }

  lemma LexAsymmetric(x: string, y: string)
    ensures !(LexLess(x, y) && LexLess(y, x))
  {
    if LexLess(x, y) && LexLess(y, x) {
      LexTransitive(x, y, x);
      LexIrreflexive(x);
    }
  }

  /** Two sorted lists with the same members start with the same name. */
  lemma HeadsAgree(a: seq<string>, b: seq<string>)
    requires StrictlySorted(a) && StrictlySorted(b)
    requires forall m :: m in a <==> m in b
    requires a != [] && b != []
    ensures a[0] == b[0]
  {
    assert a[0] in a && b[0] in b;
    HeadIsLeast(b, a[0]);
    HeadIsLeast(a, b[0]);
    LexAsymmetric(a[0], b[0]);
  }

  /** Past the common first element, two sorted lists with the same
      elements share their remaining elements. */
  lemma TailMember(a: seq<string>, b: seq<string>, m: string)
    requires StrictlySorted(a) && StrictlySorted(b)
    requires forall x :: x in a <==> x in b
    requires a != [] && b != [] && a[0] == b[0] && m in a[1..]
    ensures m in b[1..]
  {
    var i :| 0 <= i < |a[1..]| && a[1..][i] == m;
    assert a[i + 1] == m;
    if m == a[0] {
      LexIrreflexive(m);
    }
    assert m in b;
    var j :| 0 <= j < |b| && b[j] == m;
    assert b[1..][j - 1] == m;
  }

  // ------------------------------------------------------------ reordering

  /** The sort key: `is_always_true`, so False (conditional) sorts first. */
  function Late(n: NodeState): bool
  {
    n.unconditional
  }

  /** `_reorder_tree` as a value: the children of every node, at every
      level, stably sorted so that unconditional ones come last. */
  function Arranged(n: NodeState): (r: NodeState)
    decreases n, 1
  {
    NodeState(n.id, n.unconditional, n.units, StablePartition(ArrangedAll(n.subs), Late), n.cache)
  }

  function ArrangedAll(ss: seq<NodeState>): (rs: seq<NodeState>)
    ensures |rs| == |ss| && forall i :: 0 <= i < |ss| ==> rs[i] == Arranged(ss[i])
    decreases ss, 0
  {
    if ss == [] then [] else ArrangedAll(ss[..|ss| - 1]) + [Arranged(ss[|ss| - 1])]
  }

  /** At every node no unconditional child precedes a conditional one. */
  predicate Ordered(n: NodeState)
    decreases n
  {
    && IsPartitioned(n.subs, Late)
    && forall i :: 0 <= i < |n.subs| ==> Ordered(n.subs[i])
  }

  /** Sorting keeps the node itself and, at its level, is a stable
      permutation of the (sorted) children. */
  lemma ArrangedKeepsNode(n: NodeState)
    ensures Arranged(n).id == n.id && Arranged(n).unconditional == n.unconditional
    ensures Arranged(n).units == n.units && Arranged(n).cache == n.cache
    ensures multiset(Arranged(n).subs) == multiset(ArrangedAll(n.subs))
    ensures Keep(Arranged(n).subs, Late, false) == Keep(ArrangedAll(n.subs), Late, false)
    ensures Keep(Arranged(n).subs, Late, true) == Keep(ArrangedAll(n.subs), Late, true)
  {
    PartitionIsPermutation(ArrangedAll(n.subs), Late);
    PartitionIsStable(ArrangedAll(n.subs), Late);
  }

  /** Every child after sorting is the sorted form of a child before. */
  lemma ArrangedChild(n: NodeState, i: nat)
    requires i < |Arranged(n).subs|
    ensures exists j :: 0 <= j < |n.subs| && Arranged(n).subs[i] == Arranged(n.subs[j])
  {
    var aa := ArrangedAll(n.subs);
    var x := Arranged(n).subs[i];
    assert Arranged(n).subs == StablePartition(aa, Late);
    PartitionIsPermutation(aa, Late);
    assert x in multiset(StablePartition(aa, Late));
    assert x in aa;
    var j :| 0 <= j < |aa| && aa[j] == x;
    assert x == Arranged(n.subs[j]);
  }

  /** After `_reorder_tree`, every node's children are partitioned. */
  lemma {:induction false} ArrangedIsOrdered(n: NodeState)
    ensures Ordered(Arranged(n))
    decreases n
  {
    var r := Arranged(n);
    PartitionIsPartitioned(ArrangedAll(n.subs), Late);
    forall i | 0 <= i < |r.subs| ensures Ordered(r.subs[i]) {
      ArrangedChild(n, i);
      var j :| 0 <= j < |n.subs| && r.subs[i] == Arranged(n.subs[j]);
      ArrangedIsOrdered(n.subs[j]);
    }
  }

  /** Sorting a hierarchy that is already sorted changes nothing. */
  lemma {:induction false} OrderedIsArranged(n: NodeState)
    requires Ordered(n)
    ensures Arranged(n) == n
    decreases n
  {
    forall i | 0 <= i < |n.subs| ensures Arranged(n.subs[i]) == n.subs[i] {
      OrderedIsArranged(n.subs[i]);
    }
    assert ArrangedAll(n.subs) == n.subs;
    PartitionOfPartitioned(n.subs, Late);
  }

  /** Sorting twice is sorting once. */
  lemma ArrangedIsIdempotent(n: NodeState)
    ensures Arranged(Arranged(n)) == Arranged(n)
  {
    ArrangedIsOrdered(n);
    OrderedIsArranged(Arranged(n));
  }

  /** Sorting does not change which metrics the hierarchy reads, so
      collecting them before the sort, as the constructor does, is the same
      as collecting them after. */
  lemma {:induction false} ArrangedKeepsMetrics(n: NodeState)
    ensures MetricsIn(Arranged(n)) == MetricsIn(n)
    decreases n, 1
  {
    ArrangedAllKeepsMetrics(n.subs);
    PartitionIsPermutation(ArrangedAll(n.subs), Late);
    SameMembersSameMetrics(StablePartition(ArrangedAll(n.subs), Late), ArrangedAll(n.subs));
  }

  lemma {:induction false} ArrangedAllKeepsMetrics(ss: seq<NodeState>)
    ensures MetricsInAll(ArrangedAll(ss)) == MetricsInAll(ss)
    decreases ss, 0
  {
    if ss != [] {
      var init := ss[..|ss| - 1];
      ArrangedAllKeepsMetrics(init);
      ArrangedKeepsMetrics(ss[|ss| - 1]);
      assert ArrangedAll(ss)[..|ss| - 1] == ArrangedAll(init);
    }
  }

  /** Lists with the same members read the same metrics. */
  lemma SameMembersSameMetrics(xs: seq<NodeState>, ys: seq<NodeState>)
    requires forall x :: x in xs <==> x in ys
    ensures MetricsInAll(xs) == MetricsInAll(ys)
  {
    forall m ensures m in MetricsInAll(xs) ==> m in MetricsInAll(ys) {
      MetricsInAllMeans(xs, m);
      MetricsInAllMeans(ys, m);
      if m in MetricsInAll(xs) {
        var i :| 0 <= i < |xs| && m in MetricsIn(xs[i]);
        assert xs[i] in ys;
      }
    }
    forall m ensures m in MetricsInAll(ys) ==> m in MetricsInAll(xs) {
      MetricsInAllMeans(xs, m);
      MetricsInAllMeans(ys, m);
      if m in MetricsInAll(ys) {
        var i :| 0 <= i < |ys| && m in MetricsIn(ys[i]);
        assert ys[i] in xs;
      }
    }
  }

  /** Sorting keeps the invariants of the hierarchy. */
  lemma {:induction false} ArrangedIsConsistent(n: NodeState)
    requires Consistent(n)
    ensures Consistent(Arranged(n))
    decreases n
  {
    var r := Arranged(n);
    forall i | 0 <= i < |r.subs| ensures Consistent(r.subs[i]) {
      ArrangedChild(n, i);
      var j :| 0 <= j < |n.subs| && r.subs[i] == Arranged(n.subs[j]);
      ArrangedIsConsistent(n.subs[j]);
    }
  }

  /** Sorting a hierarchy in its reset state leaves it in its reset state. */
  lemma {:induction false} ArrangedIsClean(n: NodeState)
    requires Clean(n)
    ensures Clean(Arranged(n))
    decreases n
  {
    var r := Arranged(n);
    assert n.cache == NodeReset(n).cache;
    forall k | 0 <= k < |n.units| ensures UnitReset(n.units[k]) == n.units[k] {
      assert NodeReset(n).units[k] == n.units[k];
    }
    forall i | 0 <= i < |r.subs| ensures NodeReset(r.subs[i]) == r.subs[i] {
      ArrangedChild(n, i);
      var j :| 0 <= j < |n.subs| && r.subs[i] == Arranged(n.subs[j]);
      assert NodeReset(n).subs[j] == n.subs[j];
      ArrangedIsClean(n.subs[j]);
    }
    assert NodeReset(r).units == r.units;
    assert NodeReset(r).subs == r.subs;
  }

  /** Two hierarchies of the same shape are sorted alike. */
  lemma {:induction false} SameShapeKeepsOrder(a: NodeState, b: NodeState)
    requires SameShape(a, b) && Ordered(a)
    ensures Ordered(b)
    decreases a
  {
    forall i | 0 <= i < |b.subs| ensures Ordered(b.subs[i]) {
      SameShapeKeepsOrder(a.subs[i], b.subs[i]);
    }
    assert forall i :: 0 <= i < |b.subs| ==> Late(b.subs[i]) == Late(a.subs[i]);
  }

  /** Two hierarchies of the same shape read the same metrics. */
  lemma {:induction false} SameShapeKeepsMetrics(a: NodeState, b: NodeState)
    requires SameShape(a, b)
    ensures MetricsIn(a) == MetricsIn(b)
    decreases a
  {
    forall i | 0 <= i < |a.subs| ensures MetricsIn(a.subs[i]) == MetricsIn(b.subs[i]) {
      SameShapeKeepsMetrics(a.subs[i], b.subs[i]);
    }
    forall m ensures m in MetricsInAll(a.subs) <==> m in MetricsInAll(b.subs) {
      MetricsInAllMeans(a.subs, m);
      MetricsInAllMeans(b.subs, m);
    }
    assert OwnMetrics(a) == OwnMetrics(b) by {
      assert forall k :: 0 <= k < |a.units| ==> a.units[k].shape.metric == b.units[k].shape.metric;
    }
  }

  /** The two-level example: a conditional child listed after an "else"
      child is still tried first. */
  lemma ElseSortsLast(r: NodeState, a: NodeState, e: NodeState)
    requires r.subs == [a, e] || r.subs == [e, a]
    requires !a.unconditional && e.unconditional
    ensures Arranged(r).subs == [Arranged(a), Arranged(e)]
  {
    var x, y := Arranged(a), Arranged(e);
    PartitionPair(x, y, Late);
    if r.subs == [a, e] {
      ArrangedPair(a, e);
    } else {
      ArrangedPair(e, a);
    }
  }

  lemma ArrangedPair(p: NodeState, q: NodeState)
    ensures ArrangedAll([p, q]) == [Arranged(p), Arranged(q)]
  {
    var s := ArrangedAll([p, q]);
    assert |s| == 2 && s[0] == Arranged(p) && s[1] == Arranged(q);
  }

  // ------------------------------------------------ `_reorder_tree`'s loop

  /** An entry of the loop's stack: `(node, False)` still to be expanded,
      `(node, True)` ready to have its children sorted. */
  datatype Task = Visit(node: NodeState) | Finish(node: NodeState)

  /** The number of nodes of a hierarchy. */
  function Size(n: NodeState): nat
    decreases n, 1
  {
    1 + SizeAll(n.subs)
  }

  function SizeAll(ss: seq<NodeState>): nat
    decreases ss, 0
  {
    if ss == [] then 0 else SizeAll(ss[..|ss| - 1]) + Size(ss[|ss| - 1])
  }

  /** `stack.extend((s, False) for s in node.subs)`: the last child on top. */
  function Visits(ss: seq<NodeState>): (ts: seq<Task>)
    ensures |ts| == |ss| && forall i :: 0 <= i < |ss| ==> ts[i] == Visit(ss[i])
  {
    if ss == [] then [] else Visits(ss[..|ss| - 1]) + [Visit(ss[|ss| - 1])]
  }

  /** Each entry counts 1 when it is a `Finish`, and `v` per node of its
      subtree when it is a `Visit`. With `v == 2` this is the loop's
      variant; with `v == 1` it counts the sorts still to come. */
  function Tally(work: seq<Task>, v: nat): nat
  {
    if work == [] then 0
    else Tally(work[..|work| - 1], v) + match work[|work| - 1] case Visit(n) => v * Size(n) case Finish(_) => 1
  }

  lemma {:induction false} TallyConcat(a: seq<Task>, b: seq<Task>, v: nat)
    ensures Tally(a + b, v) == Tally(a, v) + Tally(b, v)
  {
    if b == [] {
      assert a + b == a;
    } else {
      var b0 := b[..|b| - 1];
      assert (a + b)[..|a + b| - 1] == a + b0;
      TallyConcat(a, b0, v);
    }
  }

  lemma {:induction false} TallyVisits(ss: seq<NodeState>, v: nat)
    ensures Tally(Visits(ss), v) == v * SizeAll(ss)
  {
    if ss != [] {
      var init := ss[..|ss| - 1];
      assert Visits(ss)[..|ss| - 1] == Visits(init);
      TallyVisits(init, v);
    }
  }

  /** Expanding a node replaces its `Visit` by its `Finish` and one `Visit`
      per child. */
  lemma TallyExpand(rest: seq<Task>, n: NodeState, v: nat)
    ensures Tally(rest + [Finish(n)] + Visits(n.subs), v) == Tally(rest, v) + 1 + v * SizeAll(n.subs)
    ensures Tally(rest + [Visit(n)], v) == Tally(rest, v) + v * Size(n)
  {
    TallyConcat(rest + [Finish(n)], Visits(n.subs), v);
    TallyVisits(n.subs, v);
    assert (rest + [Finish(n)])[..|rest|] == rest;
    assert (rest + [Visit(n)])[..|rest|] == rest;
  }

  /** Reversal: the loop finishes the children last-first. */
  function Rev(s: seq<NodeState>): (r: seq<NodeState>)
    ensures |r| == |s|
  {
    if s == [] then [] else [s[|s| - 1]] + Rev(s[..|s| - 1])
  }

  lemma {:induction false} RevCons(x: NodeState, s: seq<NodeState>)
    ensures Rev([x] + s) == Rev(s) + [x]
  {
    if s == [] {
      assert [x] + s == [x];
    } else {
      var init := s[..|s| - 1];
      assert ([x] + s)[..|s|] == [x] + init;
      RevCons(x, init);
    }
  }

  lemma {:induction false} RevInvolutive(s: seq<NodeState>)
    ensures Rev(Rev(s)) == s
  {
    if s != [] {
      var init := s[..|s| - 1];
      RevCons(s[|s| - 1], Rev(init));
      RevInvolutive(init);
      assert s == init + [s[|s| - 1]];
    }
  }

  /** The reordered node, given its children already reordered. */
  function Sorted(n: NodeState, kids: seq<NodeState>): NodeState
  {
    NodeState(n.id, n.unconditional, n.units, StablePartition(kids, Late), n.cache)
  }

  /** What the rest of the loop makes of a stack and the list of finished
      subtrees; `None` if a `Finish` found fewer finished children than
      its node has. */
  function Run(work: seq<Task>, done: seq<NodeState>): Option<seq<NodeState>>
    decreases Tally(work, 2)
  {
    if work == [] then Some(done)
    else
      var rest := work[..|work| - 1];
      assert work == rest + [work[|work| - 1]];
      match work[|work| - 1]
      case Visit(n) =>
        TallyExpand(rest, n, 2);
        Run(rest + [Finish(n)] + Visits(n.subs), done)
      case Finish(n) =>
        var k := |n.subs|;
        if |done| < k then None
        else Run(rest, done[..|done| - k] + [Sorted(n, Rev(done[|done| - k..]))])
  }

  /** The loop started on the root alone yields the sorted root, after
      one sort per node. */
  lemma RunStart(n: NodeState)
    ensures Run([Visit(n)], []) == Some([Arranged(n)])
    ensures Tally([Visit(n)], 1) == Size(n)
  {
    RunVisit([], n, []);
    assert [] + [Visit(n)] == [Visit(n)];
    assert [] + [Arranged(n)] == [Arranged(n)];
    TallyExpand([], n, 1);
  }

  /** One iteration on a `Visit(n)` on top: the rest of the loop runs the
      expanded stack, which holds one more finish and no more visits. */
  lemma RunStepVisit(rest: seq<Task>, n: NodeState, done: seq<NodeState>)
    ensures Run(rest + [Visit(n)], done) == Run(rest + [Finish(n)] + Visits(n.subs), done)
    ensures Tally(rest + [Finish(n)] + Visits(n.subs), 2) < Tally(rest + [Visit(n)], 2)
    ensures Tally(rest + [Finish(n)] + Visits(n.subs), 1) == Tally(rest + [Visit(n)], 1)
  {
    var w := rest + [Visit(n)];
    assert w[..|w| - 1] == rest;
    TallyExpand(rest, n, 2);
    TallyExpand(rest, n, 1);
  }

  /** One iteration on a `Finish(n)` on top: when the loop succeeds, the
      children's results are on the finished list and get replaced by the
      sorted node. */
  lemma RunStepFinish(rest: seq<Task>, n: NodeState, done: seq<NodeState>)
    requires Run(rest + [Finish(n)], done).Some?
    ensures |n.subs| <= |done|
    ensures Run(rest + [Finish(n)], done)
      == Run(rest, done[..|done| - |n.subs|] + [Sorted(n, Rev(done[|done| - |n.subs|..]))])
    ensures Tally(rest, 2) < Tally(rest + [Finish(n)], 2)
    ensures Tally(rest, 1) + 1 == Tally(rest + [Finish(n)], 1)
  {
    var w := rest + [Finish(n)];
    assert w[..|w| - 1] == rest;
  }

  /** Running the loop on a `Visit(n)` pushes the sorted `n` onto the
      finished list, whatever lies below it on the stack. */
  lemma {:induction false} RunVisit(work: seq<Task>, n: NodeState, done: seq<NodeState>)
    ensures Run(work + [Visit(n)], done) == Run(work, done + [Arranged(n)])
    decreases n, 1
  {
    var w := work + [Visit(n)];
    assert w[..|w| - 1] == work;
    assert Run(w, done) == Run(work + [Finish(n)] + Visits(n.subs), done);
    RunVisits(work + [Finish(n)], n.subs, done);
    var kids := Rev(ArrangedAll(n.subs));
    var d := done + kids;
    var k := |n.subs|;
    var w2 := work + [Finish(n)];
    assert w2[..|w2| - 1] == work;
    assert d[..|d| - k] == done && d[|d| - k..] == kids;
    RevInvolutive(ArrangedAll(n.subs));
    assert Sorted(n, Rev(kids)) == Arranged(n);
  }

  /** Running the loop on the `Visit`s of some children pushes their sorted
      forms, last child first. */
  lemma {:induction false} RunVisits(work: seq<Task>, ss: seq<NodeState>, done: seq<NodeState>)
    ensures Run(work + Visits(ss), done) == Run(work, done + Rev(ArrangedAll(ss)))
    decreases ss, 0
  {
    if ss == [] {
      assert work + Visits(ss) == work;
      assert done + Rev(ArrangedAll(ss)) == done;
    } else {
      var init, last := ss[..|ss| - 1], ss[|ss| - 1];
      VisitsSnoc(work, ss, done);
      RunVisit(work + Visits(init), last, done);
      RunVisits(work, init, done + [Arranged(last)]);
    }
  }

  /** The sequence identities behind one step of `RunVisits`. */
  lemma VisitsSnoc(work: seq<Task>, ss: seq<NodeState>, done: seq<NodeState>)
    requires ss != []
    ensures work + Visits(ss) == (work + Visits(ss[..|ss| - 1])) + [Visit(ss[|ss| - 1])]
    ensures done + [Arranged(ss[|ss| - 1])] + Rev(ArrangedAll(ss[..|ss| - 1])) == done + Rev(ArrangedAll(ss))
  {
    var init, last := ss[..|ss| - 1], ss[|ss| - 1];
    assert Visits(ss) == Visits(init) + [Visit(last)];
    Associative(work, Visits(init), [Visit(last)]);
    var aa := ArrangedAll(ss);
    assert aa[..|ss| - 1] == ArrangedAll(init);
    assert Rev(aa) == [Arranged(last)] + Rev(ArrangedAll(init));
    Associative(done, [Arranged(last)], Rev(ArrangedAll(init)));
  }

  lemma Associative<T>(a: seq<T>, b: seq<T>, c: seq<T>)
    ensures a + (b + c) == (a + b) + c
  {
  }

  // ------------------------------------------------------- the active path

  /** The first active child, or `|ss|` when none is. */
  function FirstActive(ss: seq<NodeState>): (i: nat)
    ensures i <= |ss|
    ensures i < |ss| ==> Active(ss[i])
    ensures forall j :: 0 <= j < i ==> !Active(ss[j])
  {
    if ss == [] then 0 else if Active(ss[0]) then 0 else 1 + FirstActive(ss[1..])
  }

  /** The nodes the walk goes through: from `n`, into the first active child
      at each level, until a leaf or a node with no active child. */
  function Along(n: NodeState): (ns: seq<NodeState>)
    ensures |ns| >= 1 && ns[0] == n
    decreases n
  {
    var i := FirstActive(n.subs);
    if i == |n.subs| then [n] else [n] + Along(n.subs[i])
  }


  /** The node where the walk stops. */
  function Terminal(n: NodeState): NodeState
    decreases n
  {
    var i := FirstActive(n.subs);
    if i == |n.subs| then n else Terminal(n.subs[i])
  }

  /** The walk, node by node: it starts at the root; each later node is the
      first active child of the one before, so it is active and none of its
      earlier siblings is; and it stops at a node none of whose children is
      active, a leaf among them. */
  lemma AlongMeans(n: NodeState)
    ensures Along(n)[0] == n
    ensures forall j :: 0 < j < |Along(n)| ==> Active(Along(n)[j])
    ensures forall j :: 0 <= j < |Along(n)| - 1 ==>
      FirstActive(Along(n)[j].subs) < |Along(n)[j].subs| &&
      Along(n)[j + 1] == Along(n)[j].subs[FirstActive(Along(n)[j].subs)]
    ensures Terminal(n) == Along(n)[|Along(n)| - 1]
    ensures FirstActive(Terminal(n).subs) == |Terminal(n).subs|
    ensures forall i :: 0 <= i < |Terminal(n).subs| ==> !Active(Terminal(n).subs[i])
  {
    AlongSteps(n);
    TerminalEndsAlong(n);
    forall j | 0 < j < |Along(n)| ensures Active(Along(n)[j]) {
      var p := Along(n)[j - 1];
      assert Along(n)[j] == p.subs[FirstActive(p.subs)];
    }
  }

  /** Each step of the walk goes into the first active child. */
  lemma {:induction false} AlongSteps(n: NodeState)
    ensures forall j :: 0 <= j < |Along(n)| - 1 ==>
      FirstActive(Along(n)[j].subs) < |Along(n)[j].subs| &&
      Along(n)[j + 1] == Along(n)[j].subs[FirstActive(Along(n)[j].subs)]
    decreases n
  {
    var i := FirstActive(n.subs);
    if i < |n.subs| {
      var c := n.subs[i];
      AlongSteps(c);
      var cs := Along(c);
      assert Along(n) == [n] + cs;
      forall j | 0 < j < |cs| ensures Along(n)[j + 1] == cs[j] && Along(n)[j] == cs[j - 1] {
      }
    }
  }

  /** The walk ends at the terminal node, which has no active child. */
  lemma {:induction false} TerminalEndsAlong(n: NodeState)
    ensures Terminal(n) == Along(n)[|Along(n)| - 1]
    ensures FirstActive(Terminal(n).subs) == |Terminal(n).subs|
    decreases n
  {
    var i := FirstActive(n.subs);
    if i < |n.subs| {
      var c := n.subs[i];
      TerminalEndsAlong(c);
      assert Along(n) == [n] + Along(c);
    }
  }

  /** The scan for the first active child, one child at a time. */
  method FirstActiveChild(ss: seq<NodeState>) returns (i: nat)
    ensures i == FirstActive(ss)
  {
    i := 0;
    while i < |ss| && !Active(ss[i])
      invariant i <= |ss|
      invariant forall j :: 0 <= j < i ==> !Active(ss[j])
    {
      i := i + 1;
    }
    FirstActiveIs(ss, i);
  }

  /** `FirstActive` is the index before which no child is active and at
      which, unless it is the end, one is. */
  lemma {:induction false} FirstActiveIs(ss: seq<NodeState>, i: nat)
    requires i <= |ss| && (i < |ss| ==> Active(ss[i]))
    requires forall j :: 0 <= j < i ==> !Active(ss[j])
    ensures FirstActive(ss) == i
  {
    if ss != [] && i > 0 {
      assert !Active(ss[0]);
      FirstActiveIs(ss[1..], i - 1);
    }
  }

  /** One step of the walk: the path below a node with an active child is
      that child's id and the path below it, and the walk ends where the
      child's does. */
  lemma AlongStep(n: NodeState)
    requires FirstActive(n.subs) < |n.subs|
    ensures Ids(Along(n))[1..] == Ids(Along(n.subs[FirstActive(n.subs)]))
  {
    var cs := Along(n.subs[FirstActive(n.subs)]);
    assert Along(n) == [n] + cs;
    IdsCons(n, cs);
    assert ([n.id] + Ids(cs))[1..] == Ids(cs);
  }

  lemma IdsHead(ns: seq<NodeState>)
    requires |ns| >= 1
    ensures Ids(ns) == [ns[0].id] + Ids(ns)[1..]
  {
  }

  lemma IdsCons(x: NodeState, ns: seq<NodeState>)
    ensures Ids([x] + ns) == [x.id] + Ids(ns)
  {
  }

  /** Where no child is active, the walk stops: the path built so far is
      the whole path and the node is the terminal one. */
  lemma AlongStop(n: NodeState, path: seq<string>, root: NodeState)
    requires FirstActive(n.subs) == |n.subs|
    requires path + Ids(Along(n))[1..] == Ids(Along(root)) && Terminal(n) == Terminal(root)
    ensures path == Ids(Along(root)) && n == Terminal(root)
  {
    assert Along(n) == [n];
    assert Ids(Along(n))[1..] == [];
  }

  /** The two-level example: with a conditional leaf `a` before an "else"
      leaf `e`, the path is root, `a` when `a` is active, and root, `e`
      otherwise; either way it ends at a leaf. */
  lemma ElseFallback(r: NodeState, a: NodeState, e: NodeState)
    requires r.subs == [a, e] && a.subs == [] && e.subs == [] && e.unconditional
    ensures Active(a) ==> Ids(Along(r)) == [r.id, a.id]
    ensures !Active(a) ==> Ids(Along(r)) == [r.id, e.id]
    ensures Terminal(r).subs == []
  {
    assert [a, e][1..] == [e];
    assert Along(a) == [a] && Along(e) == [e];
  }

  // ------------------------------------------ the caches as written, again

  /** `_reorder_tree` over the nodes as the source leaves them. */
  function RawLate(m: RawNode): bool
  {
    m.unconditional
  }

  function RawArranged(m: RawNode): RawNode
    decreases m, 1
  {
    RawNode(m.id, m.unconditional, m.units, StablePartition(RawArrangedAll(m.subs), RawLate), m.cache)
  }

  function RawArrangedAll(ss: seq<RawNode>): (rs: seq<RawNode>)
    ensures |rs| == |ss| && forall i :: 0 <= i < |ss| ==> rs[i] == RawArranged(ss[i])
    decreases ss, 0
  {
    if ss == [] then [] else RawArrangedAll(ss[..|ss| - 1]) + [RawArranged(ss[|ss| - 1])]
  }

  /** The reorder does the same with or without the caches. */
  lemma {:induction false} RawArrangedAgrees(m: RawNode)
    ensures Forget(RawArranged(m)) == Arranged(Forget(m))
    decreases m
  {
    var f := (x: RawNode) => Forget(x);
    var ks := RawArrangedAll(m.subs);
    forall i | 0 <= i < |m.subs| ensures Forget(ks[i]) == ArrangedAll(Forget(m).subs)[i] {
      RawArrangedAgrees(m.subs[i]);
    }
    assert Map(ks, f) == ArrangedAll(Forget(m).subs);
    PartitionMap(ks, f, RawLate, Late);
    assert Forget(RawArranged(m)).subs == Map(StablePartition(ks, RawLate), f);
  }

  /** Every child after the reorder is the reorder of an original child. */
  lemma RawArrangedChild(m: RawNode, i: nat)
    requires i < |RawArranged(m).subs|
    ensures exists j :: 0 <= j < |m.subs| && RawArranged(m).subs[i] == RawArranged(m.subs[j])
  {
    var ks := RawArrangedAll(m.subs);
    var x := RawArranged(m).subs[i];
    assert RawArranged(m).subs == StablePartition(ks, RawLate);
    PartitionIsPermutation(ks, RawLate);
    assert x in multiset(StablePartition(ks, RawLate));
    assert x in ks;
    var j :| 0 <= j < |ks| && ks[j] == x;
    assert x == RawArranged(m.subs[j]);
  }

  /** The reorder only permutes children, so it gives no unconditional node
      a cache attribute. */
  lemma {:induction false} RawArrangedKeepsUncached(m: RawNode)
    requires UncondUncached(m)
    ensures UncondUncached(RawArranged(m))
    decreases m
  {
    var r := RawArranged(m);
    forall i | 0 <= i < |r.subs| ensures UncondUncached(r.subs[i]) {
      RawArrangedChild(m, i);
      var j :| 0 <= j < |m.subs| && r.subs[i] == RawArranged(m.subs[j]);
      RawArrangedKeepsUncached(m.subs[j]);
    }
  }

  /** The walk of `_update_active_path` over the nodes as the source leaves
      them. After a push `is_active` raises nowhere (`CondCached`), and
      wherever it returns it answers as `Active` on the forgotten node
      (`Nodes.RawActive`); so the walk chooses its children by that. */
  function RawTerminal(m: RawNode): RawNode
    decreases m
  {
    var i := FirstActive(Forget(m).subs);
    if i < |m.subs| then RawTerminal(m.subs[i]) else m
  }

  lemma {:induction false} RawTerminalAgrees(m: RawNode)
    ensures Forget(RawTerminal(m)) == Terminal(Forget(m))
    decreases m
  {
    var i := FirstActive(Forget(m).subs);
    if i < |m.subs| {
      assert Forget(m).subs[i] == Forget(m.subs[i]);
      RawTerminalAgrees(m.subs[i]);
    }
  }

  /** The node where the walk stops has its cache attribute exactly when it
      is conditional. */
  lemma {:induction false} RawTerminalCaches(m: RawNode)
    requires UncondUncached(m) && CondCached(m)
    ensures RawTerminal(m).unconditional <==> RawTerminal(m).cache.None?
    decreases m
  {
    var i := FirstActive(Forget(m).subs);
    if i < |m.subs| {
      RawTerminalCaches(m.subs[i]);
    }
  }

  /** As written, after any push the reconstructed `last_node_info` (the
      `units_results` of the node where the walk stops) raises exactly when
      that node is unconditional, and otherwise is what the model records. */
  lemma PushedWalkAsWritten(m: RawNode, sample: Sample, np: Numerics)
    requires UncondUncached(m)
    ensures Forget(RawPush(m, sample, np)) == NodePush(Forget(m), sample, np)
    ensures RawUnitsResults(RawTerminal(RawPush(m, sample, np))).AttributeError?
        <==> Terminal(NodePush(Forget(m), sample, np)).unconditional
    ensures RawUnitsResults(RawTerminal(RawPush(m, sample, np))).Returned? ==>
      RawUnitsResults(RawTerminal(RawPush(m, sample, np))).value == UnitsResultsOf(Terminal(NodePush(Forget(m), sample, np)))
  {
    var r := RawPush(m, sample, np);
    RawPushAgrees(m, sample, np);
    PushKeepsUncondUncached(m, sample, np);
    PushCachesConditional(m, sample, np);
    RawTerminalCaches(r);
    RawTerminalAgrees(r);
  }

  /** The tree's hierarchy as the source builds it has no cache attribute on
      an unconditional node, and is the model's once they are forgotten. */
  lemma FreshRawHierarchy(cfg: RuleCfg, pps: int)
    ensures UncondUncached(RawArranged(RawBuild(cfg, pps)))
    ensures Forget(RawArranged(RawBuild(cfg, pps))) == Arranged(Build(cfg, pps))
  {
    BuildIsUncondUncached(cfg, pps);
    RawArrangedKeepsUncached(RawBuild(cfg, pps));
    RawArrangedAgrees(RawBuild(cfg, pps));
    RawBuildAgrees(cfg, pps);
  }

  /** A tree that is only its "root" node: as written its first push raises
      in `_update_active_path`, where the model records no results. */
  lemma PushOfBareRootRaises(pps: int, sample: Sample, np: Numerics)
    ensures var m := RawArranged(RawBuild(RuleCfg("root", Root, []), pps));
      RawUnitsResults(RawTerminal(RawPush(m, sample, np))).AttributeError?
    ensures var n := NodePush(Arranged(Build(RuleCfg("root", Root, []), pps)), sample, np);
      UnitsResultsOf(Terminal(n)) == []
  {
    var cfg := RuleCfg("root", Root, []);
    var m := RawArranged(RawBuild(cfg, pps));
    FreshRawHierarchy(cfg, pps);
    PushedWalkAsWritten(m, sample, np);
    var n := NodePush(Arranged(Build(cfg, pps)), sample, np);
    assert n.subs == [] && n.unconditional;
    assert Terminal(n) == n;
  }

  // ------------------------------------------------------- replaying samples

  /** A sequence of pushes. */
  function PushMany(n: NodeState, samples: seq<Sample>, np: Numerics): NodeState
    decreases |samples|
  {
    if samples == [] then n else PushMany(NodePush(n, samples[0], np), samples[1..], np)
  }

  lemma {:induction false} ResetForgetsPushes(n: NodeState, samples: seq<Sample>, np: Numerics)
    ensures NodeReset(PushMany(n, samples, np)) == NodeReset(n)
    decreases |samples|
  {
    if samples != [] {
      ResetForgetsPushes(NodePush(n, samples[0], np), samples[1..], np);
      ResetForgetsPush(n, samples[0], np);
    }
  }

  /** Reset brings a tree back to exactly the hierarchy it was built with,
      so replaying the same samples after a reset gives the same result as
      feeding them to a fresh tree. */
  lemma ResetRestoresFresh(cfg: RuleCfg, pps: int, before: seq<Sample>, after: seq<Sample>, np: Numerics)
    ensures NodeReset(PushMany(Arranged(Build(cfg, pps)), before, np)) == Arranged(Build(cfg, pps))
    ensures PushMany(NodeReset(PushMany(Arranged(Build(cfg, pps)), before, np)), after, np)
         == PushMany(Arranged(Build(cfg, pps)), after, np)
  {
    var start := Arranged(Build(cfg, pps));
    ResetForgetsPushes(start, before, np);
    BuildIsClean(cfg, pps);
    ArrangedIsClean(Build(cfg, pps));
  }

  /** A freshly built and sorted hierarchy keeps the invariants, is
      sorted, and reads what the unsorted one reads. */
  lemma FreshHierarchy(cfg: RuleCfg, pps: int)
    ensures Consistent(Arranged(Build(cfg, pps)))
    ensures Ordered(Arranged(Build(cfg, pps)))
    ensures MetricsIn(Arranged(Build(cfg, pps))) == MetricsIn(Build(cfg, pps))
  {
    BuildIsConsistent(cfg, pps);
    ArrangedIsConsistent(Build(cfg, pps));
    ArrangedIsOrdered(Build(cfg, pps));
    ArrangedKeepsMetrics(Build(cfg, pps));
  }

  // --------------------------------------------------------------- the tree

  /** `RuleTree`: the hierarchy, the metric list computed once, and the
      path state recomputed on every push. */
  class RuleTree {
    const pps: int
    const metrics: seq<string>
    var root: NodeState
    var activePath: seq<string>
    var reachedLeaf: bool
    var lastNodeInfo: seq<(string, Verdict)>

    /** The hierarchy keeps its invariants and stays sorted, and `metrics`
        lists what it reads. */
    ghost predicate Valid()
      reads this
    {
      && Consistent(root)
      && Ordered(root)
      && StrictlySorted(metrics)
      && (forall m :: m in metrics <==> m in MetricsIn(root))
    }

    /** `RuleTree(cfg, pps=pps)`: build the hierarchy, collect its metrics,
        start with an empty path, then sort every node's children. */
    constructor (cfg: RuleCfg, pps: int)
      ensures Valid()
      ensures this.pps == pps
      ensures root == Arranged(Build(cfg, pps))
      ensures forall m :: m in metrics <==> m in MetricsIn(Build(cfg, pps))
      ensures activePath == [] && !reachedLeaf && lastNodeInfo == []
    {
      this.pps := pps;
      var built := Build(cfg, pps);
      var names := CollectMetrics(built);
      root := built;
      metrics := names;
      activePath := [];
      reachedLeaf := false;
      lastNodeInfo := [];
      new;
      assert activePath == [] && !reachedLeaf && lastNodeInfo == [];
      ghost var sorts := ReorderTree();
      assert activePath == [] && !reachedLeaf && lastNodeInfo == [];
      FreshHierarchy(cfg, pps);
    }

    /** `_reorder_tree`: an explicit stack; a node popped the first time is
        pushed back marked, above its children; popped marked, its children
        (all finished by then) are sorted. The nodes are values here, so a
        second list holds the finished subtrees until their parent takes
        them. Every node is sorted exactly once. */
    method ReorderTree() returns (ghost sorts: nat)
      modifies this`root
      ensures root == Arranged(old(root))
      ensures sorts == Size(old(root))
    {
      ghost var start := root;
      var work := [Visit(root)];
      var done: seq<NodeState> := [];
      sorts := 0;
      RunStart(root);
      while work != []
        invariant Run(work, done) == Some([Arranged(start)])
        invariant sorts + Tally(work, 1) == Size(start)
        decreases Tally(work, 2)
      {
        var task := work[|work| - 1];
        var rest := work[..|work| - 1];
        assert work == rest + [task];
        match task
        case Visit(n) =>
          RunStepVisit(rest, n, done);
          work := rest + [Finish(n)] + Visits(n.subs);
        case Finish(n) =>
          var k := |n.subs|;
          RunStepFinish(rest, n, done);
          var kids := Rev(done[|done| - k..]);
          done := done[..|done| - k] + [Sorted(n, kids)];
          work := rest;
          sorts := sorts + 1;
      }
      root := done[0];
    }

    /** `push(sample)`: the sample goes through the whole hierarchy, then
        the path is recomputed. */
    method Push(sample: Sample, np: Numerics)
      requires Valid()
      modifies this
      ensures Valid()
      ensures root == NodePush(old(root), sample, np)
      ensures activePath == Ids(Along(root)) && activePath[0] == root.id
      ensures reachedLeaf <==> Terminal(root).subs == []
      ensures lastNodeInfo == UnitsResultsOf(Terminal(root))
    {
      ghost var before := root;
      root := Nodes.Push(root, sample, np);
      PushIsConsistent(before, sample, np);
      PushKeepsShape(before, sample, np);
      SameShapeSymmetric(root, before);
      SameShapeKeepsOrder(before, root);
      SameShapeKeepsMetrics(before, root);
      UpdateActivePath();
    }

    /** `reset()`: the hierarchy is reset; the path, the leaf flag and the
        terminal node's results stay as the last push left them. */
    method Reset()
      requires Valid()
      modifies this`root
      ensures Valid()
      ensures root == NodeReset(old(root))
      ensures activePath == old(activePath) && reachedLeaf == old(reachedLeaf)
      ensures lastNodeInfo == old(lastNodeInfo)
    {
      ghost var before := root;
      root := Nodes.Reset(root);
      ResetIsConsistent(before);
      ResetKeepsShape(before);
      SameShapeSymmetric(root, before);
      SameShapeKeepsOrder(before, root);
      SameShapeKeepsMetrics(before, root);
    }

    /** `_update_active_path`: clear the path state, then walk down from the
        root, at every level into the first active child, until a leaf or a
        node none of whose children is active. */
    method UpdateActivePath()
      modifies this`activePath, this`reachedLeaf, this`lastNodeInfo
      ensures activePath == Ids(Along(root)) && activePath[0] == root.id
      ensures reachedLeaf <==> Terminal(root).subs == []
      ensures lastNodeInfo == UnitsResultsOf(Terminal(root))
    {
      activePath := [];
      reachedLeaf := false;
      lastNodeInfo := [];
      var node := root;
      var path := [root.id];
      while node.subs != []
        invariant |path| >= 1 && path[0] == root.id
        invariant path + Ids(Along(node))[1..] == Ids(Along(root))
        invariant Terminal(node) == Terminal(root)
        decreases node
      {
        var i := FirstActiveChild(node.subs);
        if i == |node.subs| {
          break;
        }
        var next := node.subs[i];
        AlongStep(node);
        IdsHead(Along(next));
        Associative(path, [next.id], Ids(Along(next))[1..]);
        node := next;
        path := path + [node.id];
      }
      AlongStop(node, path, root);
      activePath := path;
      reachedLeaf := node.subs == [];
      lastNodeInfo := UnitsResultsOf(node);
    }
  }
}
