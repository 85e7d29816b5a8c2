/**
 * The `/convert` handler: a request body is checked step by step, each
 * failing check ending the request with its own error and HTTP status, and
 * a request that passes every check is converted through the registry's
 * canonical codes and one of the six helpers (or left unchanged).
 */
module Handler {
  import opened Wrappers
  import opened Strings
  import opened Registry
  import opened Conversions

  // ---------------------------------------------------------------------
  // Requests and responses
  // ---------------------------------------------------------------------

  /**
   * A JSON value of the request body, seen the two ways the handler looks
   * at it: the string it is, when `isinstance(v, str)` holds, and the number
   * `float(v)` gives, when that call does not raise.
   */
  datatype Json = Json(asString: Option<string>, asFloat: Option<real>)

  /** A POST to `/convert`: whether the body is JSON, and the fields of the body object. */
  datatype Request = Request(isJson: bool, body: map<string, Json>)

  /** The error payload of every way a request can be turned down. */
  datatype Failure =
    | NotJson
    | MissingFields(missing: seq<string>)
    | ValueNotNumber(provided: Json)
    | FromUnitNotString(provided: Json)
    | ToUnitNotString(provided: Json)
    | UnsupportedFromUnit(unit: string, allowedUnits: seq<string>)
    | UnsupportedToUnit(unit: string, allowedUnits: seq<string>)
    | CategoryMismatch(message: string, fromUnit: string, toUnit: string)
    | NormalizationFailed(fromUnit: string, toUnit: string)
    | NegativeValue(unitType: string, providedValue: real)
    | UnsupportedPair(category: string)
    | UnhandledType

  /** The body of a successful conversion; `convertedValue` is not rounded here. */
  datatype Conversion = Conversion(
    originalValue: real,
    originalUnit: string,
    convertedValue: real,
    convertedUnit: string,
    conversionType: string)

  datatype Response = Converted(result: Conversion) | Rejected(failure: Failure)

  /** The HTTP status of a response. */
  function Status(r: Response): int {
    match r
    case Converted(_) => 200
    case Rejected(f) =>
      match f
      case CategoryMismatch(_, _, _) => 400
      case NegativeValue(_, _) => 400
      case UnsupportedPair(_) => 400
      case UnhandledType => 500
      case _ => 422
  }

  /** The fields a body must have, in the order they are looked for. */
  const REQUIRED_FIELDS: seq<string> := ["value", "from_unit", "to_unit"]

  // ---------------------------------------------------------------------
  // The pipeline
  // ---------------------------------------------------------------------

  /** The fields among `fields` that `body` lacks, in the order of `fields`. */
  function Absent(fields: seq<string>, body: map<string, Json>): (r: seq<string>)
    ensures |r| <= |fields|
    ensures forall f :: f in r <==> f in fields && f !in body
  {
    if fields == [] then []
    else Absent(fields[..|fields| - 1], body) + IfAbsent(fields[|fields| - 1], body)
  }

  /** `[f]` when `body` lacks `f`, otherwise nothing. */
  function IfAbsent(f: string, body: map<string, Json>): seq<string> {
    if f in body then [] else [f]
  }

  /** Looking at one more field adds it to the absent ones exactly when it is absent. */
  lemma AbsentExtend(fields: seq<string>, i: nat, body: map<string, Json>)
    requires i < |fields|
    ensures Absent(fields[..i + 1], body) == Absent(fields[..i], body) + IfAbsent(fields[i], body)
  {
    assert fields[..i + 1][..i] == fields[..i];
  }

  /** The categories in which a negative value is turned down. */
  predicate NonNegativeOnly(category: string) {
    category in {LENGTH, WEIGHT}
  }

  /** `isinstance(v, str) and v.strip()`. */
  predicate NonEmptyString(v: Json) {
    v.asString.Some? && Strip(v.asString.value) != []
  }

  /** The conversion step: `(category, fromCode, toCode)` to a helper, the identity or an error. */
  function Dispatch(category: string, fromCode: string, toCode: string, v: real): Result<real> {
    if category == LENGTH then
      if fromCode == toCode then Ok(v)
      else if fromCode == "mi" && toCode == "km" then Ok(MilesToKm(v))
      else if fromCode == "km" && toCode == "mi" then Ok(KmToMiles(v))
      else Err(UnsupportedPair(LENGTH))
    else if category == WEIGHT then
      if fromCode == toCode then Ok(v)
      else if fromCode == "lb" && toCode == "kg" then Ok(LbToKg(v))
      else if fromCode == "kg" && toCode == "lb" then Ok(KgToLb(v))
      else Err(UnsupportedPair(WEIGHT))
    else if category == TEMPERATURE then
      if fromCode == toCode then Ok(v)
      else if fromCode == "c" && toCode == "f" then Ok(CToF(v))
      else if fromCode == "f" && toCode == "c" then Ok(FToC(v))
      else Err(UnsupportedPair(TEMPERATURE))
    else Err(UnhandledType)
  }

  datatype Result<T> = Ok(value: T) | Err(failure: Failure)

  /**
   * For two codes of one category, the dispatch never reaches its
   * "unsupported pair" or "unhandled type" branch, and its result is the
   * value taken to the category's base unit and from there to the target code.
   */
  lemma DispatchAgreesWithBaseUnits(fromCode: string, toCode: string, v: real)
    requires fromCode in CODES && toCode in CODES
    requires CodeCategory(fromCode) == CodeCategory(toCode)
    ensures Dispatch(CodeCategory(fromCode), fromCode, toCode, v) == Ok(FromBase(toCode, ToBase(fromCode, v)))
  {
    if fromCode == toCode {
      BaseRoundTrip(fromCode, v);
    } else {
      HelpersGoThroughBaseUnits(v);
    }
  }

  /** What `convert` answers to a request, check by check in the order of the code. */
  function Handle(req: Request): Response {
    if !req.isJson then Rejected(NotJson)
    else
      var missing := Absent(REQUIRED_FIELDS, req.body);
      if missing != [] then Rejected(MissingFields(missing))
      else CheckFields(req.body["value"], req.body["from_unit"], req.body["to_unit"])
  }

  /** The type checks on the three fields, once all are present. */
  function CheckFields(value: Json, fromRaw: Json, toRaw: Json): Response {
    if value.asFloat.None? then Rejected(ValueNotNumber(value))
    else if !NonEmptyString(fromRaw) then Rejected(FromUnitNotString(fromRaw))
    else if !NonEmptyString(toRaw) then Rejected(ToUnitNotString(toRaw))
    else CheckUnits(value.asFloat.value, Strip(fromRaw.asString.value), Strip(toRaw.asString.value))
  }

  /** The registry checks on the trimmed spellings, then the sign check and the conversion. */
  function CheckUnits(v: real, fromUnit: string, toUnit: string): Response {
    CheckResolved(v, fromUnit, toUnit, UnitType(fromUnit), UnitType(toUnit), Normalize(fromUnit), Normalize(toUnit))
  }

  /** `CheckUnits` once the spellings have been looked up. */
  function CheckResolved(v: real, fromUnit: string, toUnit: string,
                         fromType: Option<string>, toType: Option<string>,
                         fromCode: Option<string>, toCode: Option<string>): Response {
    if fromType.None? then Rejected(UnsupportedFromUnit(fromUnit, AllowedUnitsList()))
    else if toType.None? then Rejected(UnsupportedToUnit(toUnit, AllowedUnitsList()))
    else if fromType != toType then
      Rejected(CategoryMismatch(
        "Cannot convert from " + fromType.value + " to " + toType.value, fromUnit, toUnit))
    else if fromCode.None? || toCode.None? then Rejected(NormalizationFailed(fromUnit, toUnit))
    else if NonNegativeOnly(fromType.value) && v < 0.0 then
      Rejected(NegativeValue(fromType.value, v))
    else
      match Dispatch(fromType.value, fromCode.value, toCode.value, v)
      case Err(f) => Rejected(f)
      case Ok(x) => Converted(Conversion(v, fromUnit, x, toUnit, fromType.value))
  }

  /** `convert`, statement by statement: the field loop, then the checks with early returns. */
  method Convert(req: Request) returns (r: Response)
    ensures r == Handle(req)
  {
    if !req.isJson {
      return Rejected(NotJson);
    }
    var body := req.body;

    var missing: seq<string> := [];
    for i := 0 to |REQUIRED_FIELDS|
      invariant missing == Absent(REQUIRED_FIELDS[..i], body)
    {
      var f := REQUIRED_FIELDS[i];
      AbsentExtend(REQUIRED_FIELDS, i, body);
      if f !in body {
        missing := missing + [f];
      }
    }
    assert REQUIRED_FIELDS[..|REQUIRED_FIELDS|] == REQUIRED_FIELDS;
    if missing != [] {
      return Rejected(MissingFields(missing));
    }

    var value := body["value"];
    var fromUnitRaw := body["from_unit"];
    var toUnitRaw := body["to_unit"];
    assert Handle(req) == CheckFields(value, fromUnitRaw, toUnitRaw);

    if value.asFloat.None? {
      return Rejected(ValueNotNumber(value));
    }
    var valueNum := value.asFloat.value;

    if fromUnitRaw.asString.None? || Strip(fromUnitRaw.asString.value) == [] {
      return Rejected(FromUnitNotString(fromUnitRaw));
    }
    if toUnitRaw.asString.None? || Strip(toUnitRaw.asString.value) == [] {
      return Rejected(ToUnitNotString(toUnitRaw));
    }
    var fromUnit := Strip(fromUnitRaw.asString.value);
    var toUnit := Strip(toUnitRaw.asString.value);
    assert Handle(req) == CheckUnits(valueNum, fromUnit, toUnit);

    var fromType := UnitType(fromUnit);
    var toType := UnitType(toUnit);
    assert Handle(req) == CheckResolved(valueNum, fromUnit, toUnit, fromType, toType, Normalize(fromUnit), Normalize(toUnit));
    if fromType.None? {
      return Rejected(UnsupportedFromUnit(fromUnit, AllowedUnitsList()));
    }
    if toType.None? {
      return Rejected(UnsupportedToUnit(toUnit, AllowedUnitsList()));
    }
    if fromType != toType {
      return Rejected(CategoryMismatch(
        "Cannot convert from " + fromType.value + " to " + toType.value, fromUnit, toUnit));
    }

    var fromCode := Normalize(fromUnit);
    var toCode := Normalize(toUnit);
    if fromCode.None? || toCode.None? {
      return Rejected(NormalizationFailed(fromUnit, toUnit));
    }

    if NonNegativeOnly(fromType.value) && valueNum < 0.0 {
      return Rejected(NegativeValue(fromType.value, valueNum));
    }

    var d := Dispatch(fromType.value, fromCode.value, toCode.value, valueNum);
    if d.Err? { return Rejected(d.failure); }
    return Converted(Conversion(valueNum, fromUnit, d.value, toUnit, fromType.value));
  }
}
