/** Small shared vocabulary: optional values, the JavaScript `number`
    results that matter to this model, and "first element satisfying". */
module Common {

  /** A value that may be absent: JavaScript's `null`/`undefined`. */
  datatype Option<+T> = None | Some(value: T) {

    /** The value, or `default` when absent: JavaScript's `x ?? default`
        and `x || default`. */
    function GetOr(default: T): T {
      match this
      case Some(v) => v
      case None => default
    }
  }

  /** A JavaScript `number` as far as this model needs one: finite values are
      exact reals (rounding is not modelled); a division by zero yields one of
      the non-finite values. */
  datatype Number = Finite(value: real) | NaN | PositiveInfinity | NegativeInfinity

  /** JavaScript `(part / whole) * 100`. */
  function Percent(part: real, whole: real): (r: Number)
    ensures whole != 0.0 ==> r.Finite? && r.value * whole == part * 100.0
    ensures r.NaN? <==> part == 0.0 && whole == 0.0
    ensures whole == 0.0 && part > 0.0 ==> r.PositiveInfinity?
  {
    if whole != 0.0 then Finite(part / whole * 100.0)
    else if part == 0.0 then NaN
    else if part > 0.0 then PositiveInfinity
    else NegativeInfinity
  }

  /** The index of the first element of `s` that satisfies `p`, as
      JavaScript's `Array.prototype.find` locates it; `None` when no element
      does. */
  function FindFirst<T>(s: seq<T>, p: T -> bool): (r: Option<nat>)
    ensures r.Some? ==> r.value < |s| && p(s[r.value])
    ensures r.Some? ==> forall j :: 0 <= j < r.value ==> !p(s[j])
    ensures r.None? ==> forall j :: 0 <= j < |s| ==> !p(s[j])
  {
    if |s| == 0 then None
    else if p(s[0]) then Some(0)
    else match FindFirst(s[1..], p)
      case None => None
      case Some(i) => Some(i + 1)
  }

  /** `Math.pow(10, n)`. */
  function Pow10(n: nat): (r: nat)
    ensures r >= 1
  {
    if n == 0 then 1 else 10 * Pow10(n - 1)
  }

  function Min(a: nat, b: nat): nat {
    if a <= b then a else b
  }
}
