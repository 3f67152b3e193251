# Rule-tree evaluation engine, modelled in Dafny

This project models the rule engine of `src/rules`, with its two helper registries in `src/utils`. A stream of samples (metric name to number) is pushed through a hierarchy of rule nodes:

- Every conditional node ANDs a list of leaf conditions (units).
- A unit keeps a fixed-size sliding window of one metric's values. It can aggregate the window to one statistic, and it tests the raw values or the statistic against an interval.
- Its verdict is tri-state: undecided until the window is full and free of NaN, then satisfied or violated.
- Nodes whose definition says "else" or "root" are unconditional and always active.
- After every push the tree walks down from the root, at each level into the first active child. It records the path, whether it ended at a leaf, and the verdicts of the node where it stopped.

Modules, leaves first:

| module | file | models |
|---|---|---|
| `Values` | values.dfy | window entries (`Num(x)` or `NaN`), the tri-state `Verdict`, samples as `map<string, Value>` where a missing metric reads as NaN |
| `Dto` | dto.dfy | the shapes of an already-validated rule definition |
| `SlidingWindow` | window.dfy | `Window`: a class over a `seq` buffer with a fixed capacity |
| `CmpKit` | cmp_kit.dfy | the four interval predicates and the lookup that falls back to always-false |
| `MetricsKit` | metrics_kit.dfy | the nine aggregations, each returning an empty or a one-element list |
| `Units` | units.dfy | unit construction (window sizing, aggregation and comparator resolution), the verdict, and the class `Unit` owning a `Window` |
| `Nodes` | nodes.dfy | the node hierarchy as the value `NodeState`; `push` and `reset` as functions and as step-by-step methods; the caches as the source leaves them (`RawNode`) |
| `Ordering` | ordering.dfy | Python's stable `sort` on a boolean key, and code-point order with sorted insertion for `sorted` |
| `Tree` | tree.dfy | `RuleTree`: a class with the hierarchy, the metric list and the path state; the metric walk, the stack-driven reorder and the active-path walk as methods with loops |

The numpy statistics (mean, RMS, peak-to-peak, standard deviation, variance, polyfit slope) and `round(_, 2)` are fields of a `Numerics` record passed as a parameter. Only the shape of each aggregation's result and its exact cases are modelled.

The source files call each other inconsistently: several calls name methods or attributes that the called file does not define. The model makes these wiring choices:

- `Node._refresh_cache` calls `u.check()` (src/rules/_node.py:92), but `Unit` defines `is_valid` (src/rules/_unit.py:35); the per-unit verdict is `Unit.is_valid`.
- `Node.push` passes `u.push` a bare value (src/rules/_node.py:83), but `Unit.push` indexes a dict with it (src/rules/_unit.py:33); the unit pushes the value it is given.
- `Node.from_cfg` reads `u.get_info().metric` (src/rules/_node.py:66), and `RuleTree._collect_metrics` reads `u.metric` (src/rules/tree.py:79), but `Unit` has neither, only the private `_metric` (src/rules/_unit.py:16); both are the unit's metric.
- `Unit.from_cfg` calls `MetricsKit.get_cmps()` and `MetricsKit.get_aggs()` (src/rules/_unit.py:27-28), neither of which src/utils/_metrics_kit.py defines; the comparator comes from `CmpKit.get`.
- The tree imports a `_Node` (src/rules/tree.py:10) that none of the modelled files defines; it is `Node`, its `push_recursive` is `Node.push`, and its `is_always_true` is `Node.is_unconditional`.
- The comparator literals "open", "closed", "left_closed" and "right_closed" map to the tokens "()", "[]", "[)" and "(]" (`Units.CmpToken`).
- The aggregation literals "avg", "min" and "max" map to `mean`, `vmin` and `vmax`. "sum" has no kit function, so, like "none", it means no aggregation (`Units.AggOf`).

## Model

| member | source | states |
|---|---|---|
| SlidingWindow.Window.constructor | src/rules/_window.py:16-18 | a new window has the requested capacity and an empty buffer |
| SlidingWindow.Window.Push | src/rules/_window.py:21-22 | the buffer becomes one append onto a bounded deque: an append while not full, otherwise the oldest value is evicted; it never exceeds the capacity, and NaN is stored too |
| SlidingWindow.Slide | src/rules/_window.py:21-22 | the new length is min(old length + 1, capacity); below capacity the value is appended, at capacity the oldest is evicted |
| SlidingWindow.Window.Ready | src/rules/_window.py:24-25 | ready exactly when the buffer is full and non-empty, so a capacity-0 window is never ready |
| SlidingWindow.Window.Values | src/rules/_window.py:27-28 | the snapshot is the buffer, oldest first, and reading it changes nothing |
| SlidingWindow.Window.Reset | src/rules/_window.py:30-31 | the buffer is empty and the capacity unchanged |
| SlidingWindow.FillKeepsLatest | src/rules/_window.py:18-22 | after any sequence of pushes from empty, the window holds exactly the last `capacity` values pushed, oldest first |
| SlidingWindow.ReadyAfterCapacityPushes | src/rules/_window.py:18-25 | exactly C pushes (C >= 1) from empty make the window ready and holding all C values |
| SlidingWindow.NotReadyBeforeCapacity | src/rules/_window.py:18-25 | fewer than C pushes leave the window not ready |
| SlidingWindow.OverflowEvictsFirst | src/rules/_window.py:18-22 | after C + 1 pushes the length is C and the oldest entry is the second value pushed |
| CmpKit.Get | src/utils/_cmp_kit.py:22-33 | a token resolves to a table predicate exactly when it is in the table, and then to the one stored under it |
| CmpKit.UnknownTokenRejectsAll | src/utils/_cmp_kit.py:30-32 | an unsupported token gives a predicate false for every (x, a, b) |
| CmpKit.KnownTokenIsMapped | src/utils/_cmp_kit.py:33 | a supported token gives exactly the mapped predicate |
| CmpKit.TokenSemantics | src/utils/_cmp_kit.py:14-19 | "[]" is a <= x <= b, "[)" is a <= x < b, "(]" is a < x <= b, "()" is a < x < b |
| CmpKit.IntervalsNest | src/utils/_cmp_kit.py:15-18 | open implies both half-open predicates, and each half-open one implies closed |
| CmpKit.Endpoints | src/utils/_cmp_kit.py:15-18 | at the endpoints of [5, 10] closed holds, open fails, and each half-open interval holds at its closed end only |
| MetricsKit.Mean | src/utils/_metrics_kit.py:16-17 | empty for no input, otherwise one rounded mean |
| MetricsKit.VMax | src/utils/_metrics_kit.py:20-21 | empty for no input, otherwise one value that is a member of the input and at least every element |
| MetricsKit.VMin | src/utils/_metrics_kit.py:24-25 | empty for no input, otherwise one value that is a member of the input and at most every element |
| MetricsKit.Rms | src/utils/_metrics_kit.py:28-29 | empty for no input, otherwise one rounded RMS |
| MetricsKit.Ptp | src/utils/_metrics_kit.py:32-33 | empty for no input, otherwise one rounded peak-to-peak |
| MetricsKit.RelVar | src/utils/_metrics_kit.py:36-40 | empty for no input; exactly [0.0] when the mean is zero; otherwise one rounded ratio of peak-to-peak to mean |
| MetricsKit.Std | src/utils/_metrics_kit.py:43-44 | empty for no input, otherwise one rounded standard deviation |
| MetricsKit.Var | src/utils/_metrics_kit.py:47-48 | empty for no input, otherwise one rounded variance |
| MetricsKit.Slope | src/utils/_metrics_kit.py:51-57 | always one value; exactly [0.0] for fewer than two points, the empty list included |
| MetricsKit.AggregateShape | src/utils/_metrics_kit.py:15-57 | every aggregation gives one value on non-empty input; on empty input all but `slope` give nothing and `slope` gives [0.0] |
| Units.WindowLength | src/rules/_unit.py:25 | a time window holds max(1, pps * sec + 1) points and a count window `size` points; never fewer than one |
| Units.ShapeOf | src/rules/_unit.py:24-29 | a built unit keeps the configured metric and bounds and has a capacity of at least one |
| Units.ShapeIsConfigured | src/rules/_unit.py:28 | a configured unit never gets the always-false fallback comparator |
| Units.ConfiguredComparators | src/rules/_unit.py:28 | each schema comparator literal resolves to its textbook interval |
| Units.Evaluate | src/rules/_unit.py:35-42 | undecided exactly when the window is not ready or holds a NaN; otherwise, without aggregation, satisfied iff every value is within the interval, and with one, iff the single statistic is |
| Units.NaNPushedIsUndecided | src/rules/_unit.py:33-37 | a NaN just pushed leaves the unit undecided |
| Units.WorkedExample | src/rules/_unit.py:24-42 | "[]" over [0, 10], count window 3, no aggregation: 3, 7 is undecided; 3, 7, 12 is violated; 3, 7, 9 is satisfied |
| Units.ExampleVerdict | src/rules/_unit.py:35-42 | for that unit, a full window of three numbers is decided, and satisfied iff all three lie in [0, 10] |
| Units.UnitPush | src/rules/_unit.py:32-33 | a push slides the window and keeps metric, functions and bounds |
| Units.UnitReset | src/rules/_unit.py:44-45 | a reset empties the window and keeps everything else |
| Units.Unit.constructor | src/rules/_unit.py:24-29 | the object's shape is the configured one and its fresh window is empty |
| Units.Unit.Push | src/rules/_unit.py:32-33 | only the owned window changes, by one slide; the unit's state is `UnitPush` of the old one |
| Units.Unit.Reset | src/rules/_unit.py:44-45 | only the owned window changes, to empty; the unit's state is `UnitReset` of the old one |
| Nodes.BuildUnits | src/rules/_node.py:44-50 | "else" and "root" get no units; otherwise one empty unit per condition, built from that condition |
| Nodes.BuildStructure | src/rules/_node.py:41-69 | a node is unconditional iff its definition is "else" or "root", and then has no units; it is a leaf iff it has no children; `sub_ids` are the children's ids in order; `units_metrics` are the conditions' metrics in order |
| Nodes.BuildIsConsistent | src/rules/_node.py:41-69 | a built hierarchy satisfies the node invariants (no units or cache on unconditional nodes, one verdict per unit, no window over capacity) |
| Nodes.BuildIsClean | src/rules/_node.py:41-69 | a built hierarchy is already in its reset state |
| Nodes.ConditionalPush | src/rules/_node.py:79-110 | each unit of a conditional node slides by the sample's value for its metric (NaN when absent); the cache holds one verdict per unit, in order; `units_results` pairs each metric with its verdict |
| Nodes.UnconditionalPush | src/rules/_node.py:79 | an unconditional node's units and cache are untouched by a push |
| Nodes.PushReachesEveryChild | src/rules/_node.py:86-88 | every child receives the sample, whatever this node's outcome |
| Nodes.ActiveMeans | src/rules/_node.py:100-105 | active iff unconditional or every cached verdict is Satisfied; an undecided or violated verdict blocks, and an empty cache is vacuously active |
| Nodes.ActiveAfterPush | src/rules/_node.py:79-105 | after a push a conditional node is active iff each of its units, fed this sample, is satisfied |
| Nodes.MissingMetricBlocks | src/rules/_node.py:82-105 | a sample missing one unit's metric makes that unit undecided and the node inactive |
| Nodes.ResetIsActive | src/rules/_node.py:100-122 | after a reset each of the node's own windows is empty, its results are empty, and it is active until its next push (the whole hierarchy is left clean: `Nodes.ResetIsIdempotent`) |
| Nodes.ResetForgetsPush | src/rules/_node.py:115-122 | a reset undoes any push before it |
| Nodes.ResetIsIdempotent | src/rules/_node.py:115-122 | a reset leaves every window and every cache of the hierarchy empty, so resetting twice is resetting once |
| Nodes.PushKeepsShape | src/rules/_node.py:74-88 | a push changes windows and caches only |
| Nodes.ResetKeepsShape | src/rules/_node.py:115-122 | a reset changes windows and caches only |
| Nodes.PushIsConsistent | src/rules/_node.py:74-95 | a push keeps the node invariants |
| Nodes.ResetIsConsistent | src/rules/_node.py:115-122 | a reset keeps the node invariants |
| Nodes.Push | src/rules/_node.py:74-88 | the step-by-step push computes exactly `NodePush` |
| Nodes.FeedUnits | src/rules/_node.py:81-83 | the loop over units feeds every unit, in order, its metric's value |
| Nodes.PushAll | src/rules/_node.py:87-88 | the loop over children pushes the sample into each, in order |
| Nodes.Reset | src/rules/_node.py:115-122 | the step-by-step reset computes exactly `NodeReset` |
| Nodes.ResetUnits | src/rules/_node.py:117-118 | the loop resets every unit |
| Nodes.ResetAll | src/rules/_node.py:119-120 | the loop resets every child |
| Nodes.RawBuildAgrees | src/rules/_node.py:35-69 | the node as the source builds it, without cache attributes, is the modelled one once a missing cache is read as empty |
| Nodes.RawPushAgrees | src/rules/_node.py:74-95 | the source's push, which assigns caches only on conditional nodes, agrees with the model the same way |
| Nodes.UnconditionalStaysUncached | src/rules/_node.py:79-84 | an unconditional node never gets a cache attribute |
| Nodes.ResetRaisesAsWritten | src/rules/_node.py:115-122 | the source's reset raises on an unconditional node that has no cache attribute |
| Nodes.ResetOfRootRaises | src/rules/_node.py:115-122 | the source's reset raises on the root, with or without a push first |
| Nodes.RawResetAgrees | src/rules/_node.py:115-122 | wherever the source's reset returns, it does what the model's reset does |
| Nodes.UncachedResetRaises | src/rules/_node.py:115-122 | the source's reset raises as soon as any node of the hierarchy lacks its cache attribute |
| Nodes.ResetAllRaises | src/rules/_node.py:119-120 | the loop over children raises once one child's reset raises |
| Nodes.UnconditionalIsUncached | src/rules/_node.py:35-36 | a hierarchy with an unconditional node, none of which has a cache attribute, has a node without one |
| Nodes.ResetRaisesWhere | src/rules/_node.py:115-122 | the source's reset of a built hierarchy raises before any push, and after a push whenever the hierarchy has an unconditional node |
| Nodes.RawUnitsResults | src/rules/_node.py:107-110 | the source's `units_results` raises exactly when the node has no cache attribute, and otherwise returns the model's pairs |
| Nodes.RawActive | src/rules/_node.py:100-105 | the source's `is_active` raises exactly on a conditional node without a cache attribute, and otherwise answers as the model does |
| Nodes.BuildIsUncondUncached | src/rules/_node.py:35-69 | a built hierarchy has no cache attribute on any unconditional node |
| Nodes.PushKeepsUncondUncached | src/rules/_node.py:79-88 | a push never gives an unconditional node a cache attribute |
| Nodes.PushCachesConditional | src/rules/_node.py:79-95 | after a push every conditional node has its cache attribute |
| Nodes.ResultsOfUnconditionalRaise | src/rules/_node.py:107-110 | in a built hierarchy, before or after a push, the source's `units_results` raises at every unconditional node |
| Nodes.UnpushedConditionalRaises | src/rules/_node.py:100-110 | before its first push a conditional node's `is_active` and `units_results` raise, where the model answers active with no results |
| Tree.OwnMetrics | src/rules/tree.py:78-79 | a node contributes exactly its units' metrics, and none when unconditional |
| Tree.MetricsInAllMeans | src/rules/tree.py:80-81 | a metric is read by a list of subtrees iff some one of them reads it |
| Tree.Walk | src/rules/tree.py:77-81 | the recursive walk adds exactly the metrics of the subtree to the set |
| Tree.SortedNames | src/rules/tree.py:84 | `sorted` of the set is strictly increasing and has exactly the set's members |
| Tree.CollectMetrics | src/rules/tree.py:74-84 | the metric list is sorted, duplicate-free, and holds exactly the metrics of the conditional nodes of the hierarchy |
| Tree.SortedIsUnique | src/rules/tree.py:84 | two strictly sorted lists with the same members are equal, so the metric list is determined by the set |
| Tree.ArrangedAll | src/rules/tree.py:86-94 | reordering a list of subtrees reorders each of them, keeping the list's order |
| Tree.ArrangedKeepsNode | src/rules/tree.py:94 | the reorder keeps the node's own fields; its children are a permutation of the reordered children, and the relative order within the conditional group and within the unconditional group is unchanged |
| Tree.ArrangedChild | src/rules/tree.py:94 | every child after the reorder is the reorder of an original child |
| Tree.ArrangedIsOrdered | src/rules/tree.py:86-94 | after the reorder, at every node no unconditional child precedes a conditional one |
| Tree.OrderedIsArranged | src/rules/tree.py:94 | a hierarchy already in that order is left unchanged |
| Tree.ArrangedIsIdempotent | src/rules/tree.py:94 | reordering twice is reordering once |
| Tree.ArrangedKeepsMetrics | src/rules/tree.py:74-94 | the reorder does not change the set of metrics the hierarchy reads |
| Tree.ArrangedIsConsistent | src/rules/tree.py:86-94 | the reorder keeps the node invariants |
| Tree.ArrangedIsClean | src/rules/tree.py:86-94 | the reorder keeps a reset hierarchy reset |
| Tree.ElseSortsLast | src/rules/tree.py:94 | a conditional child and an "else" child end up conditional first, in either original order |
| Tree.RunStepVisit | src/rules/tree.py:89-92 | expanding a node leaves the loop's outcome unchanged, lowers its variant, and keeps the count of sorts to come |
| Tree.RunStepFinish | src/rules/tree.py:93-94 | sorting a node's children leaves the outcome unchanged, lowers the variant, and uses up one sort |
| Tree.RunVisit | src/rules/tree.py:87-94 | running the loop on a node yields that node reordered |
| Tree.SameShapeKeepsOrder | src/rules/tree.py:37-43 | push and reset, which keep the shape, keep the children's order |
| Tree.FirstActive | src/rules/tree.py:96-101 | the index of the first active child, or the number of children when none is |
| Tree.FirstActiveChild | src/rules/tree.py:96-101 | the scan over a node's children stops at the first active one |
| Tree.AlongMeans | src/rules/tree.py:96-101 | the path starts at the root; each next node is the first active child of the previous one; it ends at a node that has no active child |
| Tree.ElseFallback | src/rules/tree.py:96-101 | of a conditional child followed by an "else" leaf, the path takes the conditional one when it is active and the "else" one otherwise |
| Tree.ResetForgetsPushes | src/rules/tree.py:37-43 | a reset undoes any number of pushes |
| Tree.ResetRestoresFresh | src/rules/tree.py:19-43 | after a reset the hierarchy equals a freshly built tree's, and any later pushes behave as on a fresh tree |
| Tree.FreshHierarchy | src/rules/tree.py:19-29 | a freshly built tree's hierarchy keeps the node invariants, is ordered, and reads the same metrics as before the reorder |
| Tree.RawArrangedAgrees | src/rules/tree.py:86-94 | the reorder does the same to the hierarchy with or without cache attributes |
| Tree.RawArrangedKeepsUncached | src/rules/tree.py:86-94 | the reorder gives no unconditional node a cache attribute |
| Tree.RawTerminalAgrees | src/rules/tree.py:96-101 | the walk over the source's nodes stops at the node the model's walk stops at |
| Tree.RawTerminalCaches | src/rules/tree.py:96-101 | after a push, the node where the walk stops has a cache attribute exactly when it is conditional |
| Tree.PushedWalkAsWritten | src/rules/tree.py:37-40 | after any push, the source's `units_results` at the walk's last node raises exactly when that node is unconditional, and otherwise equals the results the model records |
| Tree.FreshRawHierarchy | src/rules/tree.py:19-29 | the source's freshly reordered hierarchy has no cache attribute on an unconditional node and is the model's once caches are forgotten |
| Tree.PushOfBareRootRaises | src/rules/tree.py:37-40 | a tree of just a "root" node raises on its first push as written, where the model records no results |
| Tree.RuleTree.constructor | src/rules/tree.py:19-29 | the hierarchy is the built one, reordered; `metrics` holds exactly the metrics it reads, sorted; the path is empty, no leaf is reached, and no results are recorded |
| Tree.RuleTree.ReorderTree | src/rules/tree.py:86-94 | the stack loop terminates with the hierarchy reordered, having sorted every node exactly once |
| Tree.RuleTree.Push | src/rules/tree.py:37-40 | the sample goes through the whole hierarchy and the path is recomputed; the tree's invariants and its children's order are kept |
| Tree.RuleTree.Reset | src/rules/tree.py:42-43 | only the hierarchy is reset; the path, the leaf flag and the recorded results are unchanged |
| Tree.RuleTree.UpdateActivePath | src/rules/tree.py:96-101 | the path is the ids of the walk from the root into first active children; the leaf flag says whether it ended at a leaf; the results are those of the node where it ended |

## Left out

- Node objects are modelled as the value `NodeState`, so the model does not capture their update in place or any aliasing of node objects. A `Node` class with heap footprints was too costly to verify. The same holds for the hierarchy that `RuleTree` owns, which is a field of that value type.
- Tree.RuleTree.ReorderTree: `node.subs.sort(...)` sorts the list in place. Because nodes are values, the loop keeps a second stack of finished subtrees, and each parent takes its children's sorted copies from it. The visiting order is the source's.
- Tree.RuleTree.UpdateActivePath: `_update_active_path` breaks off at tree.py:101. Only the walk seeded at the root is modelled: it goes into the first active child and stops at a leaf or at a node with no active child. `last_node_info` is taken to be that node's `units_results`, as a list of (metric, verdict) pairs rather than a dict.
- `sub_ids` is computed once, at construction (`Nodes.BuildStructure`), and the source does not refresh it after `_reorder_tree`. The model does not store the field, so the stale order after a reorder is not represented.
- The numpy statistics and the rounding to two decimals are parameters, not computations.
- Floats are modelled as reals, and NaN as a separate value.
- Not modelled: configuration loading and validation (`RuleTree._validate_cfg`, pydantic, `build_rule_tree` in src/rules/__init__.py), which is file I/O and library parsing.
- Not modelled: the loguru error log in `CmpKit.get`.
- Not modelled: the diagnostic dictionaries `units_info` and `get_info`, built by code that is not part of this model.
- Not modelled: the sample's timestamp, which evaluation never reads.
- Not modelled: test.py, an unrelated timing script.
- Tree.SortedNames: Python's `sorted` over a set of strings is modelled as repeated insertion into a strictly increasing list, using code-point lexicographic order. Its result is the same list (`Tree.SortedIsUnique`).
- Nodes.ActiveMeans: `is_active` is `all()` over the cache, so it is a plain boolean and a `None` verdict counts as false. The model follows the code, not a tri-state activity.
- Tree.RuleTree.Reset: the model follows the code. It leaves `active_path`, `reached_leaf` and `last_node_info` as the last push left them; it does not clear them.
- Tree.RuleTree.UpdateActivePath: where the walk stops at an unconditional node (an "else" branch, or an unconditional root when no child is active), the model records no results (`[]`). Under the reconstruction of `last_node_info` as `units_results`, the source raises AttributeError there (`Tree.PushedWalkAsWritten`); see "## Findings".
- A rule without `units`: the schema's default `units = None` (src/rules/_dto.py:26) is not modelled, because `Dto.UnitsCfg` has no case for it. On such a rule `is_always` is false and `Node.from_cfg` iterates `None` (src/rules/_node.py:50), so the source raises TypeError.
- Nodes.RawReset: the source resets in place, so when a later `clear()` raises, the units and children already reset stay reset. `RawReset` returns only the error and does not model that partial state.
- Units.Unit.IsValid has no contract of its own: it is `Units.Evaluate` on the unit's shape and window, and reads without changing anything.
- The read-only properties `metrics`, `active_path`, `reached_leaf` and `last_node_info` are the fields of `Tree.RuleTree`.

## Findings

| source | as written | input that shows it | evidently intended | confidence | as-written member | corrected member |
|---|---|---|---|---|---|---|
| src/rules/_node.py:115-122 | `_eval_cache` and `_match_cache` are declared `field(init=False)` (src/rules/_node.py:35-36). `from_cfg` never assigns them; only `_refresh_cache` does, and it runs only on conditional nodes. `reset` then calls `self._eval_cache.clear()` | `RuleTree.reset()` (src/rules/tree.py:42-43) on any tree that contains an unconditional node, whether or not samples were pushed, or on any tree not yet pushed: the reset reaches a node without `_eval_cache` and raises AttributeError. A tree whose root is "root" with no children is the smallest example | the caches start empty, and `reset` clears them on every node | not executed | Nodes.ResetRaisesWhere | Nodes.ResetIsActive |
| src/rules/_node.py:100-110 | `is_active` reads `_eval_cache` on a conditional node, and `units_results` returns `_match_cache` on every node. Neither attribute exists before `_refresh_cache` has run, and `_refresh_cache` never runs on an unconditional node | `units_results` on an "else" or "root" node, before or after any push; `is_active` or `units_results` on a conditional node before its first push. Each raises AttributeError | caches that start empty: an unconditional node has no results, and a conditional node not yet pushed is vacuously active with no results | not executed | Nodes.ResultsOfUnconditionalRaise | Nodes.ActiveMeans |
| src/rules/tree.py:37-40 | `push` ends with `_update_active_path`, which is cut off at src/rules/tree.py:101. Reading `last_node_info` as the `units_results` of the node where the walk stops, the push raises whenever that node is unconditional | a tree of just a "root" node, pushed any sample; likewise any tree whose walk stops at an "else" node or at an unconditional root with no active child | the walk records the stopping node's results, none for an unconditional node | not executed; depends on the reconstruction of the cut-off method | Tree.PushOfBareRootRaises | Tree.RuleTree.Push |
