/**
 * What the `/convert` handler promises about its checks: they are made in
 * a fixed order, the first one that fails chooses the error and the
 * status, and the internal error branches cannot be reached.
 */
module HandlerFacts {
  import opened Wrappers
  import opened Strings
  import opened Registry
  import opened Conversions
  import opened Handler

  // ---------------------------------------------------------------------
  // The checks, each stated on its own
  // ---------------------------------------------------------------------

  datatype Check =
    | JsonBody | FieldsPresent | ValueNumeric | FromUnitString | ToUnitString
    | FromUnitKnown | ToUnitKnown | CategoriesMatch | UnitsNormalize | NotNegative

  /** The checks in the order the handler makes them. */
  const CHECK_ORDER: seq<Check> := [
    JsonBody, FieldsPresent, ValueNumeric, FromUnitString, ToUnitString,
    FromUnitKnown, ToUnitKnown, CategoriesMatch, UnitsNormalize, NotNegative
  ]

  /** The HTTP status of the error a failed check ends a request with. */
  function CheckStatus(c: Check): int {
    match c
    case CategoriesMatch => 400
    case NotNegative => 400
    case _ => 422
  }

  /** The trimmed spelling in field `name`, when the body has that field and it is a string. */
  function Spelling(req: Request, name: string): Option<string> {
    if name in req.body && req.body[name].asString.Some? then Some(Strip(req.body[name].asString.value))
    else None
  }

  /** The number `float` gives for the `value` field, when there is one. */
  function Number(req: Request): Option<real> {
    if "value" in req.body then req.body["value"].asFloat else None
  }

  /**
   * Whether `req` passes check `c`. Each check speaks only of the part of
   * the request it inspects, and passes when that part is not there to inspect.
   */
  predicate Passes(c: Check, req: Request) {
    var from, to := Spelling(req, "from_unit"), Spelling(req, "to_unit");
    match c
    case JsonBody => req.isJson
    case FieldsPresent => forall f :: f in REQUIRED_FIELDS ==> f in req.body
    case ValueNumeric => "value" in req.body ==> req.body["value"].asFloat.Some?
    case FromUnitString => "from_unit" in req.body ==> NonEmptyString(req.body["from_unit"])
    case ToUnitString => "to_unit" in req.body ==> NonEmptyString(req.body["to_unit"])
    case FromUnitKnown => from.Some? ==> UnitType(from.value).Some?
    case ToUnitKnown => to.Some? ==> UnitType(to.value).Some?
    case CategoriesMatch => from.Some? && to.Some? ==> UnitType(from.value) == UnitType(to.value)
    case UnitsNormalize => from.Some? && to.Some? ==> Normalize(from.value).Some? && Normalize(to.value).Some?
    case NotNegative =>
      Number(req).Some? && from.Some? && UnitType(from.value).Some? && NonNegativeOnly(UnitType(from.value).value)
      ==> Number(req).value >= 0.0
  }

  /** The check a failure reports; the internal failures report none. */
  function CheckOf(f: Failure): Option<Check> {
    match f
    case NotJson => Some(JsonBody)
    case MissingFields(_) => Some(FieldsPresent)
    case ValueNotNumber(_) => Some(ValueNumeric)
    case FromUnitNotString(_) => Some(FromUnitString)
    case ToUnitNotString(_) => Some(ToUnitString)
    case UnsupportedFromUnit(_, _) => Some(FromUnitKnown)
    case UnsupportedToUnit(_, _) => Some(ToUnitKnown)
    case CategoryMismatch(_, _, _) => Some(CategoriesMatch)
    case NormalizationFailed(_, _) => Some(UnitsNormalize)
    case NegativeValue(_, _) => Some(NotNegative)
    case UnsupportedPair(_) => None
    case UnhandledType => None
  }

  predicate AllPass(req: Request) {
    forall i :: 0 <= i < |CHECK_ORDER| ==> Passes(CHECK_ORDER[i], req)
  }

  /** Check number `k` fails and every check before it passes. */
  predicate FailsFirstAt(req: Request, k: nat) {
    && k < |CHECK_ORDER|
    && !Passes(CHECK_ORDER[k], req)
    && forall j :: 0 <= j < k ==> Passes(CHECK_ORDER[j], req)
  }

  /** `r` turns a request down with the error of check `c`, and with that check's status. */
  predicate Reports(r: Response, c: Check) {
    && r.Rejected?
    && CheckOf(r.failure) == Some(c)
    && Status(r) == CheckStatus(c)
  }

  /** `Handle` turns `req` down with the error of check `k`, which is its first failing check. */
  predicate RejectedBy(req: Request, k: nat) {
    && FailsFirstAt(req, k)
    && Reports(Handle(req), CHECK_ORDER[k])
  }

  // ---------------------------------------------------------------------
  // Order of the checks, and unreachable branches
  // ---------------------------------------------------------------------

  /** Every error a check reports carries the status that check is answered with. */
  lemma FailureStatusFollowsCheck(f: Failure)
    requires CheckOf(f).Some?
    ensures Reports(Rejected(f), CheckOf(f).value)
  {
  }

  /** When both spellings have one category, normalisation and dispatch cannot fail. */
  lemma ResolvedUnitsConvert(v: real, a: string, b: string)
    requires UnitType(a).Some? && UnitType(a) == UnitType(b)
    ensures Normalize(a).Some? && Normalize(b).Some?
    ensures Dispatch(UnitType(a).value, Normalize(a).value, Normalize(b).value, v)
         == Ok(FromBase(Normalize(b).value, ToBase(Normalize(a).value, v)))
  {
    KnownIffNormalizable(a);
    KnownIffNormalizable(b);
    CategoryFollowsCode(a);
    CategoryFollowsCode(b);
    DispatchAgreesWithBaseUnits(Normalize(a).value, Normalize(b).value, v);
  }

  /** No field is absent exactly when all of them are present. */
  lemma NoneAbsent(fields: seq<string>, body: map<string, Json>)
    ensures Absent(fields, body) == [] <==> forall f :: f in fields ==> f in body
  {
    var r := Absent(fields, body);
    if r != [] {
      assert r[0] in r;
    }
  }

  /** The missing-field error lists exactly the absent required fields, in the order they are looked for. */
  lemma MissingFieldsInOrder(body: map<string, Json>)
    ensures Absent(REQUIRED_FIELDS, body)
         == IfAbsent("value", body) + IfAbsent("from_unit", body) + IfAbsent("to_unit", body)
    ensures Absent(REQUIRED_FIELDS, body) == [] <==> "value" in body && "from_unit" in body && "to_unit" in body
  {
    assert REQUIRED_FIELDS[..2] == ["value", "from_unit"];
    assert ["value", "from_unit"][..1] == ["value"];
    assert ["value"][..0] == [];
    assert Absent(["value"], body) == IfAbsent("value", body);
    assert Absent(["value", "from_unit"], body) == IfAbsent("value", body) + IfAbsent("from_unit", body);
  }

  /**
   * The checks run in the order of `CHECK_ORDER`: a request converts exactly
   * when it passes all of them, and otherwise the first check it fails
   * decides the error and the status.
   */
  lemma FirstFailingCheckDecides(req: Request)
    ensures Handle(req).Converted? <==> AllPass(req)
    ensures Handle(req).Rejected? ==> exists k :: RejectedBy(req, k)
  {
    if AllPass(req) {
      ConvertsWhenAllPass(req);
    } else {
      var k := SomeCheckFailsFirst(req);
      NormalizeNeverFailsFirst(req);
      RejectedByFirstFailing(req, k);
    }
  }

  /** A request that fails some check fails a first one. */
  lemma SomeCheckFailsFirst(req: Request) returns (k: nat)
    requires !AllPass(req)
    ensures FailsFirstAt(req, k)
  {
    k := 0;
    while Passes(CHECK_ORDER[k], req)
      invariant k < |CHECK_ORDER|
      invariant forall j :: 0 <= j < k ==> Passes(CHECK_ORDER[j], req)
      decreases |CHECK_ORDER| - k
    {
      k := k + 1;
    }
  }

  /** The checks before number `k` of `CHECK_ORDER`, by name. */
  lemma PassedBefore(req: Request, k: nat)
    requires k <= |CHECK_ORDER|
    requires forall j :: 0 <= j < k ==> Passes(CHECK_ORDER[j], req)
    ensures k > 0 ==> Passes(JsonBody, req)
    ensures k > 1 ==> Passes(FieldsPresent, req)
    ensures k > 2 ==> Passes(ValueNumeric, req)
    ensures k > 3 ==> Passes(FromUnitString, req)
    ensures k > 4 ==> Passes(ToUnitString, req)
    ensures k > 5 ==> Passes(FromUnitKnown, req)
    ensures k > 6 ==> Passes(ToUnitKnown, req)
    ensures k > 7 ==> Passes(CategoriesMatch, req)
    ensures k > 8 ==> Passes(UnitsNormalize, req)
    ensures k > 9 ==> Passes(NotNegative, req)
  {
    assert CHECK_ORDER[0] == JsonBody && CHECK_ORDER[1] == FieldsPresent && CHECK_ORDER[2] == ValueNumeric;
    assert CHECK_ORDER[3] == FromUnitString && CHECK_ORDER[4] == ToUnitString && CHECK_ORDER[5] == FromUnitKnown;
    assert CHECK_ORDER[6] == ToUnitKnown && CHECK_ORDER[7] == CategoriesMatch;
    assert CHECK_ORDER[8] == UnitsNormalize && CHECK_ORDER[9] == NotNegative;
  }

  /** A JSON body with all three fields reaches the type checks. */
  lemma ReachesFieldChecks(req: Request)
    requires Passes(JsonBody, req) && Passes(FieldsPresent, req)
    ensures "value" in req.body && "from_unit" in req.body && "to_unit" in req.body
    ensures Handle(req) == CheckFields(req.body["value"], req.body["from_unit"], req.body["to_unit"])
  {
    assert REQUIRED_FIELDS[0] == "value" && REQUIRED_FIELDS[1] == "from_unit" && REQUIRED_FIELDS[2] == "to_unit";
    NoneAbsent(REQUIRED_FIELDS, req.body);
  }

  /** A request that passes the first five checks reaches the registry checks with its trimmed spellings. */
  lemma ReachesUnitChecks(req: Request)
    requires PassesFieldChecks(req)
    ensures Number(req).Some? && Spelling(req, "from_unit").Some? && Spelling(req, "to_unit").Some?
    ensures Handle(req) == CheckUnits(Number(req).value, Spelling(req, "from_unit").value, Spelling(req, "to_unit").value)
  {
    ReachesFieldChecks(req);
  }

  /** The first failing check is the one `Handle` reports. */
  lemma RejectedByFirstFailing(req: Request, k: nat)
    requires FailsFirstAt(req, k) && k != 8
    ensures RejectedBy(req, k)
  {
    PassedBefore(req, k);
    var f: Failure;
    if k == 0 {
      f := NotJsonFirst(req);
      assert CHECK_ORDER[0] == JsonBody;
    } else if k == 1 {
      f := MissingFieldsFirst(req);
      assert CHECK_ORDER[1] == FieldsPresent;
    } else if k == 2 {
      f := ValueNotNumberFirst(req);
      assert CHECK_ORDER[2] == ValueNumeric;
    } else if k == 3 {
      f := FromUnitNotStringFirst(req);
      assert CHECK_ORDER[3] == FromUnitString;
    } else if k == 4 {
      f := ToUnitNotStringFirst(req);
      assert CHECK_ORDER[4] == ToUnitString;
    } else if k == 5 {
      f := UnknownFromUnitFirst(req);
      assert CHECK_ORDER[5] == FromUnitKnown;
    } else if k == 6 {
      f := UnknownToUnitFirst(req);
      assert CHECK_ORDER[6] == ToUnitKnown;
    } else if k == 7 {
      f := CategoryMismatchFirst(req);
      assert CHECK_ORDER[7] == CategoriesMatch;
    } else {
      f := NegativeValueFirst(req);
      assert CHECK_ORDER[9] == NotNegative;
    }
    FailureStatusFollowsCheck(f);
  }

  /** The five checks on the body and its fields, which come before the registry is consulted. */
  predicate PassesFieldChecks(req: Request) {
    && Passes(JsonBody, req) && Passes(FieldsPresent, req) && Passes(ValueNumeric, req)
    && Passes(FromUnitString, req) && Passes(ToUnitString, req)
  }

  lemma NotJsonFirst(req: Request) returns (f: Failure)
    requires !Passes(JsonBody, req)
    ensures f == NotJson
    ensures Handle(req) == Rejected(f) && CheckOf(f) == Some(JsonBody)
  {
    f := NotJson;
  }

  lemma MissingFieldsFirst(req: Request) returns (f: Failure)
    requires Passes(JsonBody, req) && !Passes(FieldsPresent, req)
    ensures f == MissingFields(Absent(REQUIRED_FIELDS, req.body))
    ensures Handle(req) == Rejected(f) && CheckOf(f) == Some(FieldsPresent)
  {
    NoneAbsent(REQUIRED_FIELDS, req.body);
    f := MissingFields(Absent(REQUIRED_FIELDS, req.body));
  }

  lemma ValueNotNumberFirst(req: Request) returns (f: Failure)
    requires Passes(JsonBody, req) && Passes(FieldsPresent, req) && !Passes(ValueNumeric, req)
    ensures f == ValueNotNumber(req.body["value"])
    ensures Handle(req) == Rejected(f) && CheckOf(f) == Some(ValueNumeric)
  {
    ReachesFieldChecks(req);
    f := ValueNotNumber(req.body["value"]);
  }

  lemma FromUnitNotStringFirst(req: Request) returns (f: Failure)
    requires Passes(JsonBody, req) && Passes(FieldsPresent, req) && Passes(ValueNumeric, req)
    requires !Passes(FromUnitString, req)
    ensures f == FromUnitNotString(req.body["from_unit"])
    ensures Handle(req) == Rejected(f) && CheckOf(f) == Some(FromUnitString)
  {
    ReachesFieldChecks(req);
    f := FromUnitNotString(req.body["from_unit"]);
  }

  lemma ToUnitNotStringFirst(req: Request) returns (f: Failure)
    requires Passes(JsonBody, req) && Passes(FieldsPresent, req) && Passes(ValueNumeric, req)
    requires Passes(FromUnitString, req) && !Passes(ToUnitString, req)
    ensures f == ToUnitNotString(req.body["to_unit"])
    ensures Handle(req) == Rejected(f) && CheckOf(f) == Some(ToUnitString)
  {
    ReachesFieldChecks(req);
    f := ToUnitNotString(req.body["to_unit"]);
  }

  lemma UnknownFromUnitFirst(req: Request) returns (f: Failure)
    requires PassesFieldChecks(req) && !Passes(FromUnitKnown, req)
    ensures Handle(req) == Rejected(f) && CheckOf(f) == Some(FromUnitKnown)
  {
    ReachesUnitChecks(req);
    var v, a, b := Number(req).value, Spelling(req, "from_unit").value, Spelling(req, "to_unit").value;
    f := UnknownFromFailure(v, a, b);
  }

  lemma UnknownToUnitFirst(req: Request) returns (f: Failure)
    requires PassesFieldChecks(req) && Passes(FromUnitKnown, req) && !Passes(ToUnitKnown, req)
    ensures Handle(req) == Rejected(f) && CheckOf(f) == Some(ToUnitKnown)
  {
    ReachesUnitChecks(req);
    var v, a, b := Number(req).value, Spelling(req, "from_unit").value, Spelling(req, "to_unit").value;
    f := UnknownToFailure(v, a, b);
  }

  lemma CategoryMismatchFirst(req: Request) returns (f: Failure)
    requires PassesFieldChecks(req) && Passes(FromUnitKnown, req) && Passes(ToUnitKnown, req)
    requires !Passes(CategoriesMatch, req)
    ensures Handle(req) == Rejected(f) && CheckOf(f) == Some(CategoriesMatch)
  {
    ReachesUnitChecks(req);
    var v, a, b := Number(req).value, Spelling(req, "from_unit").value, Spelling(req, "to_unit").value;
    f := MismatchFailure(v, a, b);
  }

  lemma NegativeValueFirst(req: Request) returns (f: Failure)
    requires PassesFieldChecks(req) && Passes(FromUnitKnown, req) && Passes(ToUnitKnown, req)
    requires Passes(CategoriesMatch, req) && !Passes(NotNegative, req)
    ensures Handle(req) == Rejected(f) && CheckOf(f) == Some(NotNegative)
  {
    ReachesUnitChecks(req);
    var v, a, b := Number(req).value, Spelling(req, "from_unit").value, Spelling(req, "to_unit").value;
    f := NegativeFailure(v, a, b);
  }

  /** An unknown source spelling is turned down with the sorted list of known spellings. */
  lemma UnknownFromFailure(v: real, a: string, b: string) returns (f: Failure)
    requires UnitType(a).None?
    ensures f == UnsupportedFromUnit(a, AllowedUnitsList())
    ensures CheckUnits(v, a, b) == Rejected(f) && CheckOf(f) == Some(FromUnitKnown)
  {
    f := UnsupportedFromUnit(a, AllowedUnitsList());
  }

  /** A known source spelling with an unknown target spelling is turned down the same way. */
  lemma UnknownToFailure(v: real, a: string, b: string) returns (f: Failure)
    requires UnitType(a).Some? && UnitType(b).None?
    ensures f == UnsupportedToUnit(b, AllowedUnitsList())
    ensures CheckUnits(v, a, b) == Rejected(f) && CheckOf(f) == Some(ToUnitKnown)
  {
    f := UnsupportedToUnit(b, AllowedUnitsList());
  }

  /** Two known spellings of different categories are turned down with both categories named. */
  lemma MismatchFailure(v: real, a: string, b: string) returns (f: Failure)
    requires UnitType(a).Some? && UnitType(b).Some? && UnitType(a) != UnitType(b)
    ensures f == CategoryMismatch("Cannot convert from " + UnitType(a).value + " to " + UnitType(b).value, a, b)
    ensures CheckUnits(v, a, b) == Rejected(f) && CheckOf(f) == Some(CategoriesMatch)
  {
    f := CategoryMismatch("Cannot convert from " + UnitType(a).value + " to " + UnitType(b).value, a, b);
  }

  /** A negative value in a category that forbids one is turned down once the spellings resolve. */
  lemma NegativeFailure(v: real, a: string, b: string) returns (f: Failure)
    requires UnitType(a).Some? && UnitType(a) == UnitType(b)
    requires NonNegativeOnly(UnitType(a).value) && v < 0.0
    ensures f == NegativeValue(UnitType(a).value, v)
    ensures CheckUnits(v, a, b) == Rejected(f) && CheckOf(f) == Some(NotNegative)
  {
    KnownIffNormalizable(a);
    KnownIffNormalizable(b);
    f := NegativeValue(UnitType(a).value, v);
  }

  /** Once both spellings have one category, they both normalise. */
  lemma NormalizeNeverFailsFirst(req: Request)
    ensures !FailsFirstAt(req, 8)
  {
    if FailsFirstAt(req, 8) {
      PassedBefore(req, 8);
      assert CHECK_ORDER[8] == UnitsNormalize;
      var from, to := Spelling(req, "from_unit"), Spelling(req, "to_unit");
      if from.Some? && to.Some? {
        KnownIffNormalizable(from.value);
        KnownIffNormalizable(to.value);
      }
    }
  }

  /** A request that passes every check converts. */
  lemma ConvertsWhenAllPass(req: Request)
    requires AllPass(req)
    ensures Handle(req).Converted?
  {
    PassedBefore(req, 10);
    ConvertsAfterFieldChecks(req);
  }

  lemma ConvertsAfterFieldChecks(req: Request)
    requires PassesFieldChecks(req) && Passes(FromUnitKnown, req) && Passes(ToUnitKnown, req)
    requires Passes(CategoriesMatch, req) && Passes(NotNegative, req)
    ensures Handle(req).Converted?
  {
    ReachesUnitChecks(req);
    var v, a, b := Number(req).value, Spelling(req, "from_unit").value, Spelling(req, "to_unit").value;
    ConvertsOnceResolved(v, a, b);
  }

  /** Known spellings of one category with an acceptable value convert. */
  lemma ConvertsOnceResolved(v: real, a: string, b: string)
    requires UnitType(a).Some? && UnitType(a) == UnitType(b)
    requires NonNegativeOnly(UnitType(a).value) ==> v >= 0.0
    ensures CheckUnits(v, a, b).Converted?
  {
    ResolvedUnitsConvert(v, a, b);
  }

  /** The normalisation failure and the two dispatch failures are never answered. */
  lemma InternalFailuresUnreachable(req: Request)
    ensures Handle(req).Rejected? ==> CheckOf(Handle(req).failure).Some?
    ensures Handle(req).Rejected? ==> !Handle(req).failure.NormalizationFailed?
    ensures Status(Handle(req)) != 500
  {
    FirstFailingCheckDecides(req);
    if Handle(req).Rejected? {
      var k: nat :| RejectedBy(req, k);
      NormalizeNeverFailsFirst(req);
      ReportedCheckIsNotInternal(Handle(req), k);
    }
  }

  /** A response that reports a check other than normalisation reports no internal failure. */
  lemma ReportedCheckIsNotInternal(r: Response, k: nat)
    requires k < |CHECK_ORDER| && k != 8 && Reports(r, CHECK_ORDER[k])
    ensures CheckOf(r.failure).Some? && !r.failure.NormalizationFailed? && Status(r) != 500
  {
    assert CHECK_ORDER[k] != UnitsNormalize;
  }
}
