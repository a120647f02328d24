/** Types and small functions several parts of the model share. */
module Common {
  datatype Option<+T> = None | Some(value: T)

  datatype LineageId = LineageId(uuid: nat)

  datatype Region = Region(name: string)

  datatype Specialization = Specialization(name: string)

  /** What a monotonic clock says has passed; never negative. */
  function Elapsed(since: nat, now: nat): nat {
    if now < since then 0 else now - since
  }

  predicate InUnit(x: real) {
    0.0 <= x <= 1.0
  }
}
