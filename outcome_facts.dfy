/**
 * What a successful `/convert` answer holds, and the behaviour promised
 * by the help text: the caller's trimmed spellings are echoed, the value
 * is the base-unit conversion, equal codes keep the value, the reverse
 * request undoes a conversion, spellings of one code are interchangeable,
 * negative values are refused for length and weight only, and the
 * documented example requests give the documented answers.
 */
module OutcomeFacts {
  import opened Wrappers
  import opened Strings
  import opened Registry
  import opened Spellings
  import opened Conversions
  import opened Handler
  import opened HandlerFacts

  /** A JSON number. */
  function Num(x: real): Json {
    Json(None, Some(x))
  }

  /** A JSON string that `float` does not parse. */
  function Str(s: string): Json {
    Json(Some(s), None)
  }

  /**
   * A JSON body carrying these three fields; whatever other fields it
   * carries are never looked at.
   */
  predicate Asks(req: Request, value: Json, fromUnit: Json, toUnit: Json) {
    && req.isJson
    && "value" in req.body && req.body["value"] == value
    && "from_unit" in req.body && req.body["from_unit"] == fromUnit
    && "to_unit" in req.body && req.body["to_unit"] == toUnit
  }

  /**
   * The answer to converting `v` from spelling `a` to spelling `b`, computed
   * independently of the handler's if/elif chain: through the base unit of
   * the category, echoing the spellings and naming the category.
   */
  function ThroughBaseUnits(v: real, a: string, b: string): Conversion
    requires UnitType(a).Some? && Normalize(a).Some? && Normalize(b).Some?
  {
    Conversion(v, a, FromBase(Normalize(b).value, ToBase(Normalize(a).value, v)), b, UnitType(a).value)
  }

  /** Whether spellings `a` and `b` pass the registry checks and `v` passes the sign check. */
  predicate Convertible(v: real, a: string, b: string) {
    && UnitType(a).Some? && UnitType(a) == UnitType(b)
    && (NonNegativeOnly(UnitType(a).value) ==> v >= 0.0)
  }

  // ---------------------------------------------------------------------
  // The success case
  // ---------------------------------------------------------------------

  /** A convertible pair is converted, and the answer is the base-unit conversion. */
  lemma ConvertibleConverts(v: real, a: string, b: string)
    requires Convertible(v, a, b)
    ensures Normalize(a).Some? && Normalize(b).Some?
    ensures CheckUnits(v, a, b) == Converted(ThroughBaseUnits(v, a, b))
  {
    ResolvedUnitsConvert(v, a, b);
  }

  /**
   * A request that passes every check is answered with its own number, its
   * trimmed spellings (not the canonical codes), the shared category, and the
   * value converted through base units.
   */
  lemma SuccessEchoesRequest(req: Request)
    requires AllPass(req)
    ensures Number(req).Some? && Spelling(req, "from_unit").Some? && Spelling(req, "to_unit").Some?
    ensures Convertible(Number(req).value, Spelling(req, "from_unit").value, Spelling(req, "to_unit").value)
    ensures Normalize(Spelling(req, "from_unit").value).Some? && Normalize(Spelling(req, "to_unit").value).Some?
    ensures Handle(req) == Converted(ThroughBaseUnits(Number(req).value, Spelling(req, "from_unit").value, Spelling(req, "to_unit").value))
  {
    AllPassIsConvertible(req);
    ReachesUnitChecks(req);
    ConvertibleConverts(Number(req).value, Spelling(req, "from_unit").value, Spelling(req, "to_unit").value);
  }

  /** Passing every check leaves a number and two spellings that are convertible. */
  lemma AllPassIsConvertible(req: Request)
    requires AllPass(req)
    ensures PassesFieldChecks(req)
    ensures Number(req).Some? && Spelling(req, "from_unit").Some? && Spelling(req, "to_unit").Some?
    ensures Convertible(Number(req).value, Spelling(req, "from_unit").value, Spelling(req, "to_unit").value)
  {
    PassedBefore(req, 10);
    assert REQUIRED_FIELDS[0] == "value" && REQUIRED_FIELDS[1] == "from_unit" && REQUIRED_FIELDS[2] == "to_unit";
  }

  /** Spellings with one canonical code leave the value as it is. */
  lemma SameCodeKeepsValue(v: real, a: string, b: string)
    requires Convertible(v, a, b) && Normalize(a) == Normalize(b)
    ensures CheckUnits(v, a, b).Converted?
    ensures CheckUnits(v, a, b).result.convertedValue == v
  {
    ConvertibleConverts(v, a, b);
    BaseRoundTrip(Normalize(a).value, v);
  }

  /** Converting the answer back, from the target spelling to the source spelling, gives the original value. */
  lemma ReverseConversionRoundTrips(v: real, a: string, b: string)
    requires Convertible(v, a, b)
    ensures CheckUnits(v, a, b).Converted?
    ensures var c := CheckUnits(v, a, b).result;
            CheckUnits(c.convertedValue, b, a) == Converted(Conversion(c.convertedValue, b, v, a, c.conversionType))
  {
    ConvertibleConverts(v, a, b);
    var from, to := Normalize(a).value, Normalize(b).value;
    var w := FromBase(to, ToBase(from, v));
    CategoryFollowsCode(a);
    CategoryFollowsCode(b);
    if NonNegativeOnly(UnitType(a).value) {
      BaseKeepsSign(from, v);
      BaseKeepsSign(to, ToBase(from, v));
    }
    assert Convertible(w, b, a);
    ConvertibleConverts(w, b, a);
    BaseRoundTrip(to, ToBase(from, v));
    BaseRoundTrip(from, v);
  }

  /** A reverse request built from a successful answer is itself answered with the original value. */
  lemma ReverseRequestRoundTrips(req: Request, back: Request)
    requires AllPass(req)
    ensures Handle(req).Converted?
    ensures var c := Handle(req).result;
            Asks(back, Num(c.convertedValue), Str(c.convertedUnit), Str(c.originalUnit)) ==>
              Handle(back) == Converted(Conversion(c.convertedValue, c.convertedUnit, c.originalValue, c.originalUnit, c.conversionType))
  {
    SuccessEchoesRequest(req);
    var v, a, b := Number(req).value, Spelling(req, "from_unit").value, Spelling(req, "to_unit").value;
    ReverseConversionRoundTrips(v, a, b);
    var c := Handle(req).result;
    if Asks(back, Num(c.convertedValue), Str(b), Str(a)) {
      StripIdempotent(req.body["from_unit"].asString.value);
      StripIdempotent(req.body["to_unit"].asString.value);
      ReachesUnitsDirectly(back, c.convertedValue, b, a);
    }
  }

  /** A JSON body with a number and two non-blank trimmed spellings goes straight to the registry checks. */
  lemma ReachesUnitsDirectly(req: Request, v: real, a: string, b: string)
    requires Asks(req, Num(v), Str(a), Str(b))
    requires Strip(a) == a && Strip(b) == b && a != [] && b != []
    ensures Handle(req) == CheckUnits(v, a, b)
  {
    AskedFieldsArePresent(req, Num(v), Str(a), Str(b));
    ReachesFieldChecks(req);
    TrimmedSpellingsPassTypeChecks(v, a, b);
  }

  /** A body carrying the three fields passes the first two checks. */
  lemma AskedFieldsArePresent(req: Request, value: Json, fromUnit: Json, toUnit: Json)
    requires Asks(req, value, fromUnit, toUnit)
    ensures Passes(JsonBody, req) && Passes(FieldsPresent, req)
  {
    assert REQUIRED_FIELDS == ["value", "from_unit", "to_unit"];
  }

  /** A number and two non-blank trimmed spellings pass the type checks unchanged. */
  lemma TrimmedSpellingsPassTypeChecks(v: real, a: string, b: string)
    requires Strip(a) == a && Strip(b) == b && a != [] && b != []
    ensures CheckFields(Num(v), Str(a), Str(b)) == CheckUnits(v, a, b)
  {
    assert NonEmptyString(Str(a)) && NonEmptyString(Str(b));
    assert CheckFields(Num(v), Str(a), Str(b)) == CheckUnits(v, Strip(a), Strip(b));
  }

  /** Spellings with the same canonical codes convert together, to the same value and category. */
  lemma OneCodeOneOutcome(v: real, a: string, a': string, b: string, b': string)
    requires Normalize(a) == Normalize(a') && Normalize(b) == Normalize(b')
    ensures Convertible(v, a, b) <==> Convertible(v, a', b')
    ensures Convertible(v, a, b) ==>
              && CheckUnits(v, a, b).Converted? && CheckUnits(v, a', b').Converted?
              && CheckUnits(v, a, b).result.convertedValue == CheckUnits(v, a', b').result.convertedValue
              && CheckUnits(v, a, b).result.conversionType == CheckUnits(v, a', b').result.conversionType
  {
    SameCodeSameCategory(a, a');
    SameCodeSameCategory(b, b');
    if Convertible(v, a, b) {
      ConvertibleConverts(v, a, b);
      ConvertibleConverts(v, a', b');
    }
  }

  /** Spellings with one canonical code, or none, have one category, or none. */
  lemma SameCodeSameCategory(a: string, a': string)
    requires Normalize(a) == Normalize(a')
    ensures UnitType(a) == UnitType(a')
  {
    KnownIffNormalizable(a);
    KnownIffNormalizable(a');
    if Normalize(a).Some? {
      CategoryFollowsCode(a);
      CategoryFollowsCode(a');
    }
  }

  /** In particular the letter case of a spelling never changes the outcome. */
  lemma LetterCaseIsIgnored(v: real, a: string, a': string, b: string, b': string)
    requires Lower(a) == Lower(a') && Lower(b) == Lower(b')
    ensures Convertible(v, a, b) <==> Convertible(v, a', b')
    ensures Convertible(v, a, b) ==>
              && CheckUnits(v, a, b).Converted? && CheckUnits(v, a', b').Converted?
              && CheckUnits(v, a, b).result.convertedValue == CheckUnits(v, a', b').result.convertedValue
  {
    SameLowerCaseSameLookup(a, a');
    SameLowerCaseSameLookup(b, b');
    OneCodeOneOutcome(v, a, a', b, b');
  }

  // ---------------------------------------------------------------------
  // Negative values
  // ---------------------------------------------------------------------

  /**
   * Once both spellings resolve to one category, a negative value is turned
   * down (with 400) exactly when that category is length or weight; a
   * negative temperature is converted.
   */
  lemma NegativeRefusedForLengthAndWeightOnly(v: real, a: string, b: string)
    requires UnitType(a).Some? && UnitType(a) == UnitType(b) && v < 0.0
    ensures CheckUnits(v, a, b).Converted? <==> UnitType(a) == Some(TEMPERATURE)
    ensures CheckUnits(v, a, b).Rejected? ==>
              && CheckUnits(v, a, b).failure == NegativeValue(UnitType(a).value, v)
              && Status(CheckUnits(v, a, b)) == 400
  {
    if UnitType(a) == Some(TEMPERATURE) {
      ConvertibleConverts(v, a, b);
    } else {
      var f := NegativeFailure(v, a, b);
    }
  }

  // ---------------------------------------------------------------------
  // Requests built from resolved spellings
  // ---------------------------------------------------------------------

  /** Two spellings of one category with an allowed value: converted through the base unit. */
  lemma ResolvedRequestConverts(req: Request, v: real, a: string, b: string, category: string, ca: string, cb: string)
    requires Asks(req, Num(v), Str(a), Str(b))
    requires Resolves(a, category, ca) && Resolves(b, category, cb)
    requires NonNegativeOnly(category) ==> v >= 0.0
    ensures Handle(req) == Converted(Conversion(v, a, FromBase(cb, ToBase(ca, v)), b, category))
  {
    ReachesUnitsDirectly(req, v, a, b);
    ConvertibleConverts(v, a, b);
  }

  /** Two spellings of one length or weight category with a negative value: 400. */
  lemma ResolvedRequestNegative(req: Request, v: real, a: string, b: string, category: string, ca: string, cb: string)
    requires Asks(req, Num(v), Str(a), Str(b))
    requires Resolves(a, category, ca) && Resolves(b, category, cb)
    requires NonNegativeOnly(category) && v < 0.0
    ensures Handle(req) == Rejected(NegativeValue(category, v))
    ensures Status(Handle(req)) == 400
  {
    ReachesUnitsDirectly(req, v, a, b);
    var f := NegativeFailure(v, a, b);
    FailureStatusFollowsCheck(f);
  }

  /** Two spellings of different categories: 400, naming both categories. */
  lemma ResolvedRequestMismatch(req: Request, v: real, a: string, b: string, ka: string, kb: string, ca: string, cb: string)
    requires Asks(req, Num(v), Str(a), Str(b))
    requires Resolves(a, ka, ca) && Resolves(b, kb, cb) && ka != kb
    ensures Handle(req) == Rejected(CategoryMismatch("Cannot convert from " + ka + " to " + kb, a, b))
    ensures Status(Handle(req)) == 400
  {
    ReachesUnitsDirectly(req, v, a, b);
    var f := MismatchFailure(v, a, b);
    FailureStatusFollowsCheck(f);
  }

  /** An unknown trimmed source spelling: 422, with the sorted list of known spellings. */
  lemma UnknownSourceRequest(req: Request, v: real, a: string, b: string)
    requires Asks(req, Num(v), Str(a), Str(b))
    requires Strip(a) == a && a != [] && UnitType(a).None?
    requires Strip(b) == b && b != []
    ensures Handle(req) == Rejected(UnsupportedFromUnit(a, AllowedUnitsList()))
    ensures Status(Handle(req)) == 422
  {
    ReachesUnitsDirectly(req, v, a, b);
    var f := UnknownFromFailure(v, a, b);
    FailureStatusFollowsCheck(f);
  }

  // ---------------------------------------------------------------------
  // The documented examples, for every spelling of the units they name
  // (module Spellings shows that the documented spellings are among them)
  // ---------------------------------------------------------------------

  /** 5 miles are 8.04672 kilometres. */
  lemma FiveMilesInKilometres(req: Request, a: string, b: string)
    requires Resolves(a, LENGTH, "mi") && Resolves(b, LENGTH, "km")
    requires Asks(req, Num(5.0), Str(a), Str(b))
    ensures Handle(req) == Converted(Conversion(5.0, a, 8.04672, b, LENGTH))
  {
    ResolvedRequestConverts(req, 5.0, a, b, LENGTH, "mi", "km");
    HelpersGoThroughBaseUnits(5.0);
    HelperExamples();
  }

  /** 10 kilograms are a little over 22.046226 pounds. */
  lemma TenKilogramsInPounds(req: Request, a: string, b: string)
    requires Resolves(a, WEIGHT, "kg") && Resolves(b, WEIGHT, "lb")
    requires Asks(req, Num(10.0), Str(a), Str(b))
    ensures var r := Handle(req);
            && r.Converted? && r.result.conversionType == WEIGHT
            && 22.046226 < r.result.convertedValue < 22.046227
  {
    ResolvedRequestConverts(req, 10.0, a, b, WEIGHT, "kg", "lb");
    HelpersGoThroughBaseUnits(10.0);
    HelperExamples();
  }

  /** -10 degrees Celsius are 14 degrees Fahrenheit: negative temperatures are accepted. */
  lemma MinusTenCelsiusInFahrenheit(req: Request, a: string, b: string)
    requires Resolves(a, TEMPERATURE, "c") && Resolves(b, TEMPERATURE, "f")
    requires Asks(req, Num(-10.0), Str(a), Str(b))
    ensures Handle(req) == Converted(Conversion(-10.0, a, 14.0, b, TEMPERATURE))
  {
    ResolvedRequestConverts(req, -10.0, a, b, TEMPERATURE, "c", "f");
    HelpersGoThroughBaseUnits(-10.0);
    HelperExamples();
  }

  // The documented example requests themselves

  /** The help text's first example, `{"value": 5, "from_unit": "mi", "to_unit": "km"}`. */
  lemma DocumentedMilesExample(req: Request)
    requires Asks(req, Num(5.0), Str("mi"), Str("km"))
    ensures Handle(req) == Converted(Conversion(5.0, "mi", 8.04672, "km", LENGTH))
  {
    MilesSpelling();
    KilometresSpelling();
    FiveMilesInKilometres(req, "mi", "km");
  }

  /** The help text's second example, `{"value": 10, "from_unit": "kg", "to_unit": "lb"}`. */
  lemma DocumentedKilogramsExample(req: Request)
    requires Asks(req, Num(10.0), Str("kg"), Str("lb"))
    ensures var r := Handle(req);
            && r.Converted? && r.result.conversionType == WEIGHT
            && 22.046226 < r.result.convertedValue < 22.046227
  {
    KilogramsSpelling();
    PoundsSpelling();
    TenKilogramsInPounds(req, "kg", "lb");
  }

  /** The help text's third example, `{"value": -10, "from_unit": "celsius", "to_unit": "fahrenheit"}`. */
  lemma DocumentedCelsiusExample(req: Request)
    requires Asks(req, Num(-10.0), Str("celsius"), Str("fahrenheit"))
    ensures Handle(req) == Converted(Conversion(-10.0, "celsius", 14.0, "fahrenheit", TEMPERATURE))
  {
    CelsiusSpelling();
    FahrenheitSpelling();
    MinusTenCelsiusInFahrenheit(req, "celsius", "fahrenheit");
  }

  /** A negative length is turned down with 400. */
  lemma NegativeMilesRefused(req: Request, a: string, b: string)
    requires Resolves(a, LENGTH, "mi") && Resolves(b, LENGTH, "km")
    requires Asks(req, Num(-5.0), Str(a), Str(b))
    ensures Handle(req) == Rejected(NegativeValue(LENGTH, -5.0))
    ensures Status(Handle(req)) == 400
  {
    ResolvedRequestNegative(req, -5.0, a, b, LENGTH, "mi", "km");
  }

  /** Miles cannot be converted to kilograms: 400, naming both categories. */
  lemma MilesToKilogramsRefused(req: Request, a: string, b: string)
    requires Resolves(a, LENGTH, "mi") && Resolves(b, WEIGHT, "kg")
    requires Asks(req, Num(5.0), Str(a), Str(b))
    ensures Handle(req) == Rejected(CategoryMismatch("Cannot convert from length to weight", a, b))
    ensures Status(Handle(req)) == 400
  {
    ResolvedRequestMismatch(req, 5.0, a, b, LENGTH, WEIGHT, "mi", "kg");
    LengthToWeightMessage();
  }

  lemma LengthToWeightMessage()
    ensures "Cannot convert from " + LENGTH + " to " + WEIGHT == "Cannot convert from length to weight"
  {
  }

  /** An unknown unit is turned down with 422 and the non-empty sorted list of known spellings. */
  lemma UnknownUnitListsKnownOnes(req: Request, a: string, b: string)
    requires Strip(a) == a && a != [] && UnitType(a).None? && Resolves(b, LENGTH, "km")
    requires Asks(req, Num(5.0), Str(a), Str(b))
    ensures Handle(req) == Rejected(UnsupportedFromUnit(a, AllowedUnitsList()))
    ensures Status(Handle(req)) == 422
    ensures IsAscending(AllowedUnitsList()) && AllowedUnitsList() != []
  {
    UnknownSourceRequest(req, 5.0, a, b);
    AllowedUnitsListAscends();
  }
}
