/**
 * The six conversion helpers, over exact reals, and a reference description
 * of every canonical code as an affine map onto its category's base unit
 * (km for length, kg for weight, degrees Celsius for temperature).
 */
module Conversions {
  import opened Registry

  function MilesToKm(mi: real): real { mi * 1.609344 }

  function KmToMiles(km: real): real { km / 1.609344 }

  function LbToKg(lb: real): real { lb * 0.45359237 }

  function KgToLb(kg: real): real { kg / 0.45359237 }

  function CToF(c: real): real { (c * 9.0 / 5.0) + 32.0 }

  function FToC(f: real): real { (f - 32.0) * 5.0 / 9.0 }

  /** How many base units one unit of `code` is. */
  function Scale(code: string): (s: real)
    requires code in CODES
    ensures s > 0.0
  {
    match code
    case "mi" => 1.609344
    case "lb" => 0.45359237
    case "f" => 5.0 / 9.0
    case _ => 1.0
  }

  /** Where zero of `code` lies on its base scale. */
  function Offset(code: string): real
    requires code in CODES
  {
    if code == "f" then -160.0 / 9.0 else 0.0
  }

  /** A measurement in unit `code`, expressed in its category's base unit. */
  function ToBase(code: string, v: real): real
    requires code in CODES
  {
    Scale(code) * v + Offset(code)
  }

  /** A measurement in base units, expressed in unit `code`. */
  function FromBase(code: string, b: real): real
    requires code in CODES
  {
    (b - Offset(code)) / Scale(code)
  }

  /** Going to the base unit and back is the identity, for every code. */
  lemma BaseRoundTrip(code: string, v: real)
    requires code in CODES
    ensures FromBase(code, ToBase(code, v)) == v
    ensures ToBase(code, FromBase(code, v)) == v
  {
  }

  /** Each helper is "to the base unit of the source code, then to the target code". */
  lemma HelpersGoThroughBaseUnits(v: real)
    ensures MilesToKm(v) == FromBase("km", ToBase("mi", v))
    ensures KmToMiles(v) == FromBase("mi", ToBase("km", v))
    ensures LbToKg(v) == FromBase("kg", ToBase("lb", v))
    ensures KgToLb(v) == FromBase("lb", ToBase("kg", v))
    ensures CToF(v) == FromBase("f", ToBase("c", v))
    ensures FToC(v) == FromBase("c", ToBase("f", v))
  {
  }

  /** Over the reals each pair of helpers is mutually inverse. */
  lemma HelpersAreMutuallyInverse(x: real)
    ensures KmToMiles(MilesToKm(x)) == x && MilesToKm(KmToMiles(x)) == x
    ensures KgToLb(LbToKg(x)) == x && LbToKg(KgToLb(x)) == x
    ensures FToC(CToF(x)) == x && CToF(FToC(x)) == x
  {
  }

  /** The worked examples: 5 mi is 8.04672 km, 10 kg is about 22.046226 lb, -10 C is 14 F. */
  lemma HelperExamples()
    ensures MilesToKm(5.0) == 8.04672
    ensures 22.046226 < KgToLb(10.0) < 22.046227
    ensures CToF(-10.0) == 14.0
  {
  }

  /** Length and weight codes have no offset, so a non-negative value stays non-negative. */
  lemma BaseKeepsSign(code: string, v: real)
    requires code in CODES && CodeCategory(code) != TEMPERATURE && v >= 0.0
    ensures ToBase(code, v) >= 0.0 && FromBase(code, v) >= 0.0
  {
  }
}
