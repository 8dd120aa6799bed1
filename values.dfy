/** Optional values: a JSON field that may be absent, a SQL column that may be NULL. */
module Values {

  datatype Option<+T> = None | Some(value: T) {

    /** The value, or `default` when absent. */
    function GetOr(default: T): T {
      match this
      case Some(v) => v
      case None => default
    }
  }

  /** A JSON text field that is present and non-empty: what `not x` / `!x` rejects. */
  predicate Given(o: Option<string>) {
    o.Some? && o.value != ""
  }

  /** A numeric id that is present and non-zero: the truthiness test on an id. */
  predicate GivenId(o: Option<nat>) {
    o.Some? && o.value != 0
  }

  /** Python's `a or b` on two optional ids (a zero id is falsy like None). */
  function OrId(a: Option<nat>, b: Option<nat>): Option<nat> {
    if GivenId(a) then a else b
  }

  function Min(a: int, b: int): int { if a <= b then a else b }

  function Max(a: int, b: int): int { if a >= b then a else b }
}
