/** Comparisons of values that may be NULL. */
module Comparisons {
  import opened VersionChain

  datatype Comparison = Equal | NotEqual | Less | LessEq | Greater | GreaterEq

  predicate Holds(op: Comparison, x: int, y: int) {
    match op
    case Equal => x == y
    case NotEqual => x != y
    case Less => x < y
    case LessEq => x <= y
    case Greater => x > y
    case GreaterEq => x >= y
  }

  /** A comparison is true only if both sides are not NULL. */
  predicate IsTrue(op: Comparison, x: Option<int>, y: Option<int>) {
    x.Some? && y.Some? && Holds(op, x.value, y.value)
  }

  function Flip(op: Comparison): Comparison {
    match op
    case Equal => Equal
    case NotEqual => NotEqual
    case Less => Greater
    case LessEq => GreaterEq
    case Greater => Less
    case GreaterEq => LessEq
  }
}
