/** Option and Result, used for the error paths of the routing core. */
module Wrappers {

  datatype Option<+T> = None | Some(value: T)

  datatype Result<+R, +E> = Ok(value: R) | Err(error: E)

  /** A real or positive infinity, for Python's `float("inf")` sentinels. */
  datatype ExtReal = Fin(r: real) | PosInf {
    predicate Le(other: ExtReal) {
      match (this, other)
      case (_, PosInf) => true
      case (PosInf, Fin(_)) => false
      case (Fin(a), Fin(b)) => a <= b
    }

    predicate Lt(other: ExtReal) {
      !other.Le(this)
    }

    /** Float addition, where anything plus infinity is infinity. */
    function Add(other: ExtReal): (r: ExtReal)
      ensures r.Fin? <==> this.Fin? && other.Fin?
    {
      if this.Fin? && other.Fin? then Fin(this.r + other.r) else PosInf
    }
  }
}
