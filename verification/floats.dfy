/**
 * A finite Python `float`, written as a decimal `mantissa * 10^exponent`,
 * and the text `json.dumps` gives it. The text is `<mantissa>e<exponent>`,
 * a valid JSON number, standing in for `float.__repr__`.
 */
module Floats {
  import opened Wrappers
  import opened Digits

  datatype Float = Float(mantissa: int, exponent: int)

  function Repr(f: Float): string {
    IntStr(f.mantissa) + "e" + IntStr(f.exponent)
  }

  /** Reads a number written as `Repr` writes it at the head of `s`. */
  function ParseRepr(s: string): (r: Option<(Float, string)>)
    ensures r.Some? ==> |r.value.1| < |s|
  {
    match ParseInt(s)
    case None => None
    case Some(m) =>
      if m.1 == [] || m.1[0] != 'e' then None
      else
        match ParseInt(m.1[1..])
        case None => None
        case Some(e) => Some((Float(m.0, e.0), e.1))
  }

  lemma ParseReprOf(f: Float, rest: string)
    requires StopsDigits(rest)
    ensures ParseRepr(Repr(f) + rest) == Some((f, rest))
  {
    var tail := "e" + (IntStr(f.exponent) + rest);
    assert Repr(f) + rest == IntStr(f.mantissa) + tail;
    ParseIntStr(f.mantissa, tail);
    ParseExponent(f.mantissa, f.exponent, tail, rest);
  }

  lemma ParseExponent(m: int, e: int, tail: string, rest: string)
    requires StopsDigits(rest)
    requires tail == "e" + (IntStr(e) + rest)
    requires ParseInt(IntStr(m) + tail) == Some((m, tail))
    ensures ParseRepr(IntStr(m) + tail) == Some((Float(m, e), rest))
  {
    assert tail[1..] == IntStr(e) + rest;
    ParseIntStr(e, rest);
  }
}
