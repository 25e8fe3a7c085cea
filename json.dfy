/**
 * A loosely typed value as Python's `json.loads` produces it, and Python's
 * `int()` applied to such a value.
 */
module Json {
  import opened Wrappers
  import opened PyText

  /**
   * A decoded JSON document. A number with a fraction or an exponent decodes
   * to a Python float; here it is kept exactly as `mantissa / 10^scale`.
   * `NaN`, `Infinity` and `-Infinity`, which `json.loads` also accepts, are
   * `JNonFinite`.
   */
  datatype Json =
    | JNull
    | JBool(b: bool)
    | JInt(i: int)
    | JFloat(mantissa: int, scale: nat)
    | JNonFinite
    | JString(s: string)
    | JArray(items: seq<Json>)
    | JObject(fields: map<string, Json>)

  function Pow10(n: nat): (p: nat)
    ensures p >= 1
  {
    if n == 0 then 1 else 10 * Pow10(n - 1)
  }

  /** Integer division rounding toward zero, as `int()` does to a float. */
  function TruncDiv(m: int, d: nat): (q: int)
    requires d > 0
    ensures m >= 0 ==> q >= 0 && 0 <= m - q * d < d
    ensures m < 0 ==> q <= 0 && 0 <= q * d - m < d
  {
    if m >= 0 then
      FloorDiv(m, d);
      m / d
    else
      FloorDiv(-m, d);
      -((-m) / d)
  }

  lemma FloorDiv(n: nat, d: nat)
    requires d > 0
    ensures n / d >= 0 && 0 <= n - (n / d) * d < d
    ensures (-(n / d)) * d == -((n / d) * d)
  {
  }

  /**
   * Python's `int(v)`: `None` where Python raises (`int(None)`, a list, a
   * dict, a string that is not a base-10 integer, a NaN or an infinity).
   */
  function ToInt(v: Json): (r: Option<int>)
    ensures r.Some? <==> (v.JBool? || v.JInt? || v.JFloat? || (v.JString? && ParseInt(v.s).Some?))
    ensures v.JInt? ==> r == Some(v.i)
    ensures v.JBool? ==> r == Some(if v.b then 1 else 0)
    ensures v.JString? ==> r == ParseInt(v.s)
    ensures v.JFloat? ==> r == Some(TruncDiv(v.mantissa, Pow10(v.scale)))
  {
    match v
    case JBool(b) => Some(if b then 1 else 0)
    case JInt(i) => Some(i)
    case JFloat(m, e) => Some(TruncDiv(m, Pow10(e)))
    case JString(s) => ParseInt(s)
    case _ => None
  }
}
