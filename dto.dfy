/**
 * The shapes of an already-validated rule definition. Schema validation
 * itself (pydantic) is outside the model; only the field shapes and the
 * bounds it guarantees (`sec >= 1`, `size >= 1`) are kept.
 */
module Dto {

  /** An integer the schema guarantees to be at least 1. */
  type PosInt = n: int | n >= 1 witness 1

  /** `_WindowDTO`: a time window of `sec` seconds or a count window of `size` points. */
  datatype WindowCfg = Time(sec: PosInt) | Count(size: PosInt)

  /** The aggregation literals the schema admits: "avg", "min", "max", "sum", "none". */
  datatype AggName = Avg | Min | Max | Sum | NoAgg

  /** The comparator literals the schema admits: "open", "closed", "left_closed", "right_closed". */
  datatype CmpName = Open | Closed | LeftClosed | RightClosed

  /** `_CmpDTO`: comparator kind and its (lower, upper) pair. */
  datatype CmpCfg = CmpCfg(kind: CmpName, lower: real, upper: real)

  /** `UnitDTO` */
  datatype UnitCfg = UnitCfg(metric: string, window: WindowCfg, agg: AggName, cmp: CmpCfg)

  /** `RuleDTO.units`: a list of conditions, or one of the literals "else" and "root". */
  datatype UnitsCfg = Conditions(conds: seq<UnitCfg>) | Else | Root

  /** `RuleDTO`; an absent `sub` is the empty list (`cfg.sub or []`). */
  datatype RuleCfg = RuleCfg(id: string, units: UnitsCfg, sub: seq<RuleCfg>)
}
