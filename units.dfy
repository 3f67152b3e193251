/**
 * The leaf condition of src/rules/_unit.py: one metric, one owned window,
 * an optional aggregation, a comparator and its bounds. Its verdict is
 * undecided until the window is full and NaN-free.
 *
 * The source files call each other inconsistently; the model assumes this
 * wiring: the comparator is resolved with `CmpKit.get` on the token of the
 * configured kind (`from_cfg` calls a `MetricsKit.get_cmps` that
 * src/utils/_metrics_kit.py does not define); the aggregation table maps the
 * schema's "avg", "min", "max" to `mean`, `vmin`, `vmax`, and "sum", which
 * has no function in the kit, falls through `dict.get` to no aggregation,
 * as "none" does; `push` receives the metric's value itself, as `Node.push`
 * passes it (`Unit.push` indexes a dict instead, src/rules/_unit.py:33).
 */
module Units {
  import opened Values
  import opened Dto
  import opened CmpKit
  import opened MetricsKit
  import opened SlidingWindow

  /** Everything about a unit that is fixed at construction. */
  datatype UnitShape = UnitShape(
    metric: string, capacity: nat, agg: Option<Statistic>, cmp: Comparator, lower: real, upper: real)

  /** A unit as a value: its shape and its window's contents. */
  datatype UnitState = UnitState(shape: UnitShape, buf: seq<Value>)

  /** Window sizing: `max(1, pps * sec + 1)` for a time window, `size` for a count window. */
  function WindowLength(w: WindowCfg, pps: int): (c: nat)
    ensures c >= 1
    ensures w.Count? ==> c == w.size
    ensures w.Time? && pps >= 0 ==> c == pps * w.sec + 1
    ensures w.Time? && pps * w.sec + 1 < 1 ==> c == 1
  {
    match w
    case Time(sec) => if pps * sec + 1 >= 1 then pps * sec + 1 else 1
    case Count(size) => size
  }

  /** The aggregation table, from schema literal to kit function. */
  function AggOf(a: AggName): Option<Statistic>
  {
    match a
    case Avg => Some(Average)
    case Min => Some(Minimum)
    case Max => Some(Maximum)
    case Sum => None
    case NoAgg => None
  }

  /** The comparator table, from schema literal to `CmpKit` token. */
  function CmpToken(k: CmpName): string
  {
    match k
    case Open => "()"
    case Closed => "[]"
    case LeftClosed => "[)"
    case RightClosed => "(]"
  }

  /** Every schema literal names a real interval, never the always-false fallback,
      and each means its textbook interval. */
  lemma ConfiguredComparators(k: CmpName, x: real, a: real, b: real)
    ensures Get(CmpToken(k)).Known?
    ensures k == Closed ==> (Apply(Get(CmpToken(k)), x, a, b) <==> a <= x <= b)
    ensures k == LeftClosed ==> (Apply(Get(CmpToken(k)), x, a, b) <==> a <= x < b)
    ensures k == RightClosed ==> (Apply(Get(CmpToken(k)), x, a, b) <==> a < x <= b)
    ensures k == Open ==> (Apply(Get(CmpToken(k)), x, a, b) <==> a < x < b)
  {
  }

  /** `Unit.from_cfg`, as a value. */
  function ShapeOf(cfg: UnitCfg, pps: int): (s: UnitShape)
    ensures s.metric == cfg.metric && s.capacity >= 1
    ensures s.lower == cfg.cmp.lower && s.upper == cfg.cmp.upper
  {
    UnitShape(cfg.metric, WindowLength(cfg.window, pps), AggOf(cfg.agg),
              Get(CmpToken(cfg.cmp.kind)), cfg.cmp.lower, cfg.cmp.upper)
  }

  /** A configured unit never falls back to the always-false comparator. */
  lemma ShapeIsConfigured(cfg: UnitCfg, pps: int)
    ensures ShapeOf(cfg, pps).cmp.Known?
  {
    ConfiguredComparators(cfg.cmp.kind, 0.0, 0.0, 0.0);
  }

  /** `all(cmp(v, lower, upper) for v in xs)` */
  predicate AllPass(c: Comparator, xs: seq<real>, lower: real, upper: real)
    ensures AllPass(c, xs, lower, upper) <==> forall i :: 0 <= i < |xs| ==> Apply(c, xs[i], lower, upper)
  {
    xs == [] || (Apply(c, xs[0], lower, upper) && AllPass(c, xs[1..], lower, upper))
  }

  /** `Unit.is_valid`: undecided while the window is not ready or holds a NaN;
      otherwise every raw value (no aggregation) or the one statistic
      (an aggregation) must satisfy the comparator. */
  function Evaluate(s: UnitShape, buf: seq<Value>, np: Numerics): (r: Verdict)
    ensures r == Undecided <==> !IsReady(buf, s.capacity) || HasNaN(buf)
    ensures r != Undecided && s.agg.None? ==>
      (r == Satisfied <==> forall i :: 0 <= i < |buf| ==> Apply(s.cmp, buf[i].x, s.lower, s.upper))
    ensures r != Undecided && s.agg.Some? ==>
      |Aggregate(s.agg.value, Reals(buf), np)| == 1 &&
      (r == Satisfied <==> Apply(s.cmp, Aggregate(s.agg.value, Reals(buf), np)[0], s.lower, s.upper))
  {
    if !IsReady(buf, s.capacity) || HasNaN(buf) then Undecided
    else
      var values := Reals(buf);
      var aggregated := match s.agg case None => values case Some(k) => Aggregate(k, values, np);
      AggregateShape(if s.agg.Some? then s.agg.value else Average, values, np);
      if AllPass(s.cmp, aggregated, s.lower, s.upper) then Satisfied else Violated
  }

  /** `Unit.push(v)` as a value: the window slides, the shape stays. */
  function UnitPush(u: UnitState, v: Value): (r: UnitState)
    ensures r.shape == u.shape
    ensures |u.buf| <= u.shape.capacity ==> r.buf == Slide(u.buf, u.shape.capacity, v)
  {
    UnitState(u.shape, Latest(u.buf + [v], u.shape.capacity))
  }

  /** `Unit.reset()` as a value: the window empties, the shape stays. */
  function UnitReset(u: UnitState): (r: UnitState)
    ensures r.shape == u.shape && r.buf == []
  {
    UnitState(u.shape, [])
  }

  /** A value pushed last is in the window whenever the window holds anything,
      so a NaN pushed last keeps the unit undecided. */
  lemma NaNPushedIsUndecided(u: UnitState, np: Numerics)
    ensures Evaluate(UnitPush(u, NaN).shape, UnitPush(u, NaN).buf, np) == Undecided
  {
    var b := UnitPush(u, NaN).buf;
    if |b| > 0 {
      assert b[|b| - 1] == NaN;
    }
  }

  /** The unit of the worked example: "speed", a count window of 3 points,
      no aggregation, closed [0, 10]. */
  lemma ExampleShape()
    ensures ShapeOf(UnitCfg("speed", Count(3), NoAgg, CmpCfg(Closed, 0.0, 10.0)), 1)
         == UnitShape("speed", 3, None, Known(ClosedBoth), 0.0, 10.0)
  {
    assert CmpToken(Closed) == "[]";
    assert "[]" in CmpMap;
  }

  /** The worked example: after 3 and 7 the unit is undecided; after 3, 7, 12
      it is violated (12 is out of bounds); after 3, 7, 9 it is satisfied. */
  lemma WorkedExample(np: Numerics)
    ensures var s := ShapeOf(UnitCfg("speed", Count(3), NoAgg, CmpCfg(Closed, 0.0, 10.0)), 1);
      && Evaluate(s, Fill(3, [Num(3.0), Num(7.0)]), np) == Undecided
      && Evaluate(s, Fill(3, [Num(3.0), Num(7.0), Num(12.0)]), np) == Violated
      && Evaluate(s, Fill(3, [Num(3.0), Num(7.0), Num(9.0)]), np) == Satisfied
  {
    ExampleShape();
    var s := UnitShape("speed", 3, None, Known(ClosedBoth), 0.0, 10.0);
    var early := [Num(3.0), Num(7.0)];
    NotReadyBeforeCapacity(3, early);
    assert Evaluate(s, early, np) == Undecided;
    ReadyAfterCapacityPushes(3, [Num(3.0), Num(7.0), Num(12.0)]);
    ReadyAfterCapacityPushes(3, [Num(3.0), Num(7.0), Num(9.0)]);
    ExampleVerdict(3.0, 7.0, 12.0, np);
    ExampleVerdict(3.0, 7.0, 9.0, np);
  }

  /** A full window of three numbers in the worked example's unit: the
      verdict is decided, and satisfied exactly when all three are in [0, 10]. */
  lemma ExampleVerdict(a: real, b: real, c: real, np: Numerics)
    ensures var buf := [Num(a), Num(b), Num(c)];
      && Evaluate(UnitShape("speed", 3, None, Known(ClosedBoth), 0.0, 10.0), buf, np) != Undecided
      && (Evaluate(UnitShape("speed", 3, None, Known(ClosedBoth), 0.0, 10.0), buf, np) == Satisfied
          <==> 0.0 <= a <= 10.0 && 0.0 <= b <= 10.0 && 0.0 <= c <= 10.0)
  {
    var buf := [Num(a), Num(b), Num(c)];
    var s := UnitShape("speed", 3, None, Known(ClosedBoth), 0.0, 10.0);
    assert IsReady(buf, s.capacity);
    assert forall i :: 0 <= i < |buf| ==> buf[i] != NaN;
    assert buf[0].x == a && buf[1].x == b && buf[2].x == c;
    assert (forall i :: 0 <= i < |buf| ==> Apply(s.cmp, buf[i].x, 0.0, 10.0))
      <==> Apply(s.cmp, a, 0.0, 10.0) && Apply(s.cmp, b, 0.0, 10.0) && Apply(s.cmp, c, 0.0, 10.0);
  }

  /** `Unit`: the shape is constant; only the owned window changes. Its
      `State()` is the value `UnitState`, and `Push` and `Reset` are proved
      to act on it as `UnitPush` and `UnitReset` do, the functions the node
      hierarchy uses for its units. */
  class Unit {
    const metric: string
    const win: Window
    const agg: Option<Statistic>
    const cmp: Comparator
    const lower: real
    const upper: real

    function Shape(): UnitShape
    {
      UnitShape(metric, win.capacity, agg, cmp, lower, upper)
    }

    function State(): UnitState
      reads win
    {
      UnitState(Shape(), win.buf)
    }

    ghost predicate Valid()
      reads win
    {
      win.Valid()
    }

    /** `Unit.from_cfg(cfg, pps)` */
    constructor (cfg: UnitCfg, pps: int)
      ensures Valid() && fresh(win)
      ensures Shape() == ShapeOf(cfg, pps) && win.buf == []
    {
      metric := cfg.metric;
      win := new Window(WindowLength(cfg.window, pps));
      agg := AggOf(cfg.agg);
      cmp := Get(CmpToken(cfg.cmp.kind));
      lower, upper := cfg.cmp.lower, cfg.cmp.upper;
    }

    /** `push`: the value goes into the window, and nothing else changes. */
    method Push(v: Value)
      requires Valid()
      modifies win`buf
      ensures Valid()
      ensures win.buf == Slide(old(win.buf), win.capacity, v)
      ensures State() == UnitPush(old(State()), v)
    {
      win.Push(v);
    }

    /** `is_valid`: reads the window, changes nothing. */
    function IsValid(np: Numerics): (r: Verdict)
      reads win
    {
      Evaluate(Shape(), win.Values(), np)
    }

    /** `reset`: only the window is cleared. */
    method Reset()
      modifies win`buf
      ensures Valid()
      ensures win.buf == []
      ensures State() == UnitReset(old(State()))
    {
      win.Reset();
    }
  }
}
