/** Small shared vocabulary: an optional value, and the JavaScript notions of
    "falsy" that the source's `||` and `??` operators depend on. */
module Basics {

  /** `undefined`/`null` on one side, a present value on the other. */
  datatype Option<+T> = None | Some(value: T) {

    /** The value, or `default` when absent (the source's `??`). */
    function GetOr(default: T): T {
      match this
      case Some(v) => v
      case None => default
    }
  }

  /** A string is truthy in JavaScript when it is present and non-empty. */
  predicate Truthy(o: Option<string>) {
    o.Some? && o.value != ""
  }

  /** `x || null` for an optional string: the empty string becomes null. */
  function NullIfEmpty(o: Option<string>): (r: Option<string>)
    ensures Truthy(o) <==> r.Some?
    ensures r.Some? ==> o == r
  {
    if Truthy(o) then o else None
  }

  /** `x || null` for an optional number: zero becomes null. */
  function NullIfZero(o: Option<int>): (r: Option<int>)
    ensures r.Some? <==> o.Some? && o.value != 0
    ensures r.Some? ==> o == r
  {
    if o.Some? && o.value != 0 then o else None
  }
}
