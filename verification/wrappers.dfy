/** The optional-value datatype used wherever the modelled program works with
    `null`, `undefined` or a missing field. */
module Wrappers {

  /** `None` is JavaScript's `null`/`undefined` (and, for `parseInt`, `NaN`);
      `Some` carries a present value. */
  datatype Option<+T> = None | Some(value: T) {

    /** The present value, or `fallback` in its absence (JavaScript's `??`). */
    function GetOr(fallback: T): T {
      match this
      case Some(v) => v
      case None => fallback
    }
  }
}
