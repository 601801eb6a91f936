/** validateNumericRange: parse a raw value and saturate it at a range's bounds. */
module Validation {
  import opened Wrappers
  import opened JsValues

  /** The `{valid, value}` record the validator returns. */
  datatype Validated = Validated(valid: bool, value: real)

  /** `Math.max` on finite numbers: it selects one of its arguments. */
  function Max(a: real, b: real): (r: real)
    ensures r >= a && r >= b
    ensures r == a || r == b
  {
    if a >= b then a else b
  }

  /** `Math.min` on finite numbers: it selects one of its arguments. */
  function Min(a: real, b: real): (r: real)
    ensures r <= a && r <= b
    ensures r == a || r == b
  {
    if a <= b then a else b
  }

  /** `Math.min(Math.max(x, lo), hi)`: saturate `x` at both bounds. It never
      rounds; an inverted range (`hi < lo`) always yields `hi`. */
  function Clamp(x: real, lo: real, hi: real): (r: real)
    ensures r == x || r == lo || r == hi
    ensures r <= hi
    ensures lo <= hi ==> lo <= r
    ensures lo <= x <= hi ==> r == x
    ensures x < lo <= hi ==> r == lo
    ensures hi < x ==> r == hi
    ensures hi < lo ==> r == hi
  {
    Min(Max(x, lo), hi)
  }

  /** Distance on the real line. */
  function Dist(a: real, b: real): real {
    if a >= b then a - b else b - a
  }

  /**
   * validateNumericRange(value, min, max, defaultValue): a value that does not
   * parse is invalid and yields the default; one that parses is valid and
   * yields the parsed number saturated at the bounds.
   */
  function ValidateNumericRange(v: Value, min: real, max: real, default: real,
                                text: string -> Option<real>): (r: Validated)
    ensures r.valid <==> ParseFloat(v, text).Some?
    ensures !r.valid ==> r.value == default
    ensures r.valid && min <= max ==> min <= r.value <= max
    ensures r.valid ==> var x := ParseFloat(v, text).value;
      && (min <= x <= max ==> r.value == x)
      && (x < min <= max ==> r.value == min)
      && (max < x ==> r.value == max)
    ensures v.Num? ==> r.valid
    ensures v.NaN? || v.Undefined? || v.Null? || v.Bool? || v.Obj? ==> r == Validated(false, default)
  {
    var num := ParseFloat(v, text);
    if num.None? then Validated(false, default)
    else Validated(true, Clamp(num.value, min, max))
  }

  /** The clamped value is the point of the range nearest the input. */
  lemma ClampIsNearest(x: real, lo: real, hi: real, y: real)
    requires lo <= y <= hi
    ensures Dist(Clamp(x, lo, hi), x) <= Dist(y, x)
  {
  }

  /** A valid result validates again to itself: clamping is a fixed point. */
  lemma ValidatedValueIsFixedPoint(v: Value, min: real, max: real, default: real,
                                   text: string -> Option<real>)
    requires min <= max
    requires ValidateNumericRange(v, min, max, default, text).valid
    ensures var r := ValidateNumericRange(v, min, max, default, text);
      ValidateNumericRange(Num(r.value), min, max, default, text) == r
  {
  }
}
