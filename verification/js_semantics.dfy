/**
  The few pieces of JavaScript value semantics that the tracking code relies on:
  optional properties, `||` on strings, object spread, and the two ways the
  source turns milliseconds into whole seconds (`Math.floor(x / 1000)` and
  `(x / 1000) | 0`).
 */
module JsSemantics {

  /** An optional property: `None` is an absent key (or `undefined`). */
  datatype Option<+T> = None | Some(value: T) {

    /** The value, or `default` when absent. */
    function GetOr(default: T): T {
      match this
      case Some(v) => v
      case None => default
    }
  }

  /** JavaScript truthiness of an optional string: absent and `""` are falsy. */
  predicate Truthy(s: Option<string>) {
    s.Some? && s.value != ""
  }

  /** `a || b` on optional strings. */
  function Or(a: Option<string>, b: Option<string>): (r: Option<string>)
    ensures Truthy(a) ==> r == a
    ensures !Truthy(a) ==> r == b
  {
    if Truthy(a) then a else b
  }

  /** `a || fallback` where the fallback is a string literal. */
  function OrElse(a: Option<string>, fallback: string): (r: string)
    ensures Truthy(a) ==> r == a.value
    ensures !Truthy(a) ==> r == fallback
  {
    if Truthy(a) then a.value else fallback
  }

  /** Object spread `{ ...base, ...top }`: every key of either, the keys of `top` winning. */
  function Overlay<K, V>(base: map<K, V>, top: map<K, V>): (r: map<K, V>)
    ensures r.Keys == base.Keys + top.Keys
    ensures forall k :: k in top ==> r[k] == top[k]
    ensures forall k :: k in base && k !in top ==> r[k] == base[k]
  {
    base + top
  }

  /** Overlaying a result onto the base it came from gives the result back. */
  lemma OverlayAbsorbsBase<K, V>(base: map<K, V>, top: map<K, V>)
    ensures Overlay(base, Overlay(base, top)) == Overlay(base, top)
  {
  }

  /** `Math.floor(a / b)` for a positive divisor (Dafny's `/` already rounds down then). */
  function FloorDiv(a: int, b: int): (q: int)
    requires b > 0
    ensures q * b <= a < q * b + b
  {
    a / b
  }

  /** Truncation toward zero of `a / b`, as `| 0` performs after a floating division. */
  function TruncDiv(a: int, b: int): (q: int)
    requires b > 0
    ensures a >= 0 ==> q * b <= a < q * b + b
    ensures a < 0 ==> q * b - b < a <= q * b
  {
    if a >= 0 then a / b else -((-a) / b)
  }

  const TwoTo31: int := 0x8000_0000
  const TwoTo32: int := 0x1_0000_0000

  /** ECMAScript ToInt32 on an integral value: wrap into [-2^31, 2^31). */
  function ToInt32(x: int): (r: int)
    ensures -TwoTo31 <= r < TwoTo31
    ensures (r - x) % TwoTo32 == 0
    ensures -TwoTo31 <= x < TwoTo31 ==> r == x
  {
    (x + TwoTo31) % TwoTo32 - TwoTo31
  }
}
