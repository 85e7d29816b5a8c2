# Unit converter: the `/convert` pipeline

This project models the core of `lec2_flask.py`, a small HTTP service that
converts values between units of length, weight and temperature. It covers:

- the two unit tables: `ALLOWED_UNITS` maps each of 19 spellings to a category, and
  `NORMALIZE` maps the same spellings to a canonical code;
- the case-insensitive lookups `get_unit_type` and `normalize`;
- the six conversion helpers;
- the validation and dispatch logic of `convert`. A request passes through a fixed
  sequence of checks, and the first one that fails ends it with its own error and
  HTTP status. A request that passes every check is converted through the canonical
  codes.

Modules:

- `Wrappers`: `Option`.
- `Strings`: the parts of Python's `str` the handler relies on:
  - `str.strip`, over the `str.isspace` characters;
  - `str.lower`, for the characters that can spell a unit;
  - string ordering and `sorted`, as an insertion sort with its permutation proof.
- `Registry`: the two tables, the lookups, the sorted list of spellings that
  unknown-unit errors carry, and the table facts.
- `Spellings`: the `Resolves` predicate (a trimmed spelling that has a given category
  and code), and proofs that the spellings in the service's help examples resolve.
- `Conversions`: the six helpers over `real`, and an independent reference for them
  that converts through base units (kilometres, kilograms, degrees Celsius).
- `Handler`: the request, JSON-value, error and response types; `Handle`, the
  handler as a function; and `Convert`, the handler as the code is written, with
  its field loop and early returns, proved equal to `Handle`.
- `HandlerFacts`: the ten checks stated one by one, in code order. The proofs show
  that the first failing check decides the error and its status. They also show
  that the internal-error branches cannot be reached.
- `OutcomeFacts`: what a successful answer contains, round trips, the effect of
  equal codes and letter case, negative values, and the documented examples.

On check order the code is followed. The value is coerced to a number before the
unit fields are checked for being non-empty strings. The normalisation check comes
before the negative-value check. So a request whose value is not a number is
refused for the value even when its unit fields are blank or unknown.

## Model

| member | source | states |
|---|---|---|
| Strings.Strip | lec2_flask.py:125-131 | the result is no longer than the input, and neither starts nor ends with a whitespace character |
| Strings.TrimStart | lec2_flask.py:130-131 | the result is a suffix of the input, and exactly the leading whitespace was removed |
| Strings.TrimEnd | lec2_flask.py:130-131 | the result is a prefix of the input, and exactly the trailing whitespace was removed |
| Strings.StripEmptyIffBlank | lec2_flask.py:125-128 | a string strips to empty exactly when every character is whitespace, which is what "non-empty string" rejects |
| Strings.StripKeepsTrimmed | lec2_flask.py:130-131 | a string with no whitespace at either end is left unchanged by strip |
| Strings.StripIdempotent | lec2_flask.py:130-131 | stripping twice is stripping once |
| Strings.LowerChar | lec2_flask.py:55-64 | upper-case ASCII letters and the Kelvin sign are lower-cased; every other character is kept; no result is upper case |
| Strings.Lower | lec2_flask.py:55-64 | the result has the input's length, lower-cases each character as LowerChar does, and contains no upper-case letter (`IsLowerCase`) |
| Strings.LowerOfLowerCase | lec2_flask.py:55-64 | a lower-case string is its own lower-case form |
| Strings.LowerIdempotent | lec2_flask.py:55-64 | lower-casing yields a lower-case string, so lower-casing twice is lower-casing once |
| Strings.LessIrreflexive | lec2_flask.py:138 | no string sorts before itself |
| Strings.LessTransitive | lec2_flask.py:138 | string order is transitive |
| Strings.LessTotal | lec2_flask.py:138 | of two different strings, one sorts before the other |
| Strings.LessEqTransitive | lec2_flask.py:138 | the non-strict order is transitive |
| Strings.Insert | lec2_flask.py:138 | inserting into a sorted list keeps it sorted and adds exactly that element |
| Strings.Sort | lec2_flask.py:138 | `sorted` returns a sorted permutation of its input |
| Strings.PermutationOfDistinct | lec2_flask.py:138 | a permutation of a duplicate-free list has the same length and elements, and no duplicates |
| Strings.AscendingSteps | lec2_flask.py:138 | a list whose neighbours ascend strictly is strictly ascending, sorted and duplicate-free |
| Strings.AscendingUnique | lec2_flask.py:138 | two strictly ascending lists with the same elements are equal |
| Strings.SortedDistinctAscends | lec2_flask.py:138 | a sorted duplicate-free list is strictly ascending |
| Registry.UnitType | lec2_flask.py:55-58 | a spelling has a category exactly when its lower-case form is a key of ALLOWED_UNITS, and the category is length, weight or temperature |
| Registry.Normalize | lec2_flask.py:61-64 | a spelling has a code exactly when its lower-case form is a key of NORMALIZE, and the code is one of mi, km, lb, kg, c, f |
| Registry.CodeCategory | lec2_flask.py:43-52 | every canonical code has one of the three categories |
| Registry.AllowedUnitsList | lec2_flask.py:137-140 | the list of spellings in unknown-unit errors has 19 entries |
| Registry.DistinctElements | lec2_flask.py:138 | a duplicate-free list has as many distinct elements as entries |
| Registry.TablesShareKeys | lec2_flask.py:20-52 | ALLOWED_UNITS and NORMALIZE have the same key set |
| Registry.KnownIffNormalizable | lec2_flask.py:55-64 | a spelling has a category exactly when it has a code |
| Registry.CategoryFollowsCode | lec2_flask.py:20-52 | the category of a spelling is the category of its code |
| Registry.CodesAreFixedPoints | lec2_flask.py:43-52 | each code is lower case, normalises to itself, and has its own category |
| Registry.NormalizeIdempotent | lec2_flask.py:43-64 | normalising a code again gives the same code |
| Registry.NormalizePreservesCategory | lec2_flask.py:20-64 | a spelling and its canonical code have the same category |
| Registry.LookupsIgnoreCase | lec2_flask.py:55-64 | both lookups give the same answer for a spelling and for its lower-case form |
| Registry.SameLowerCaseSameLookup | lec2_flask.py:55-64 | spellings that agree once lower-cased get the same category and code |
| Registry.MilesInAnyCase | lec2_flask.py:20-64 | "MILES", "Miles" and "miles" are all length with code mi |
| Registry.AllowedUnitsListAscends | lec2_flask.py:137-140 | the list of spellings is strictly ascending, sorted and duplicate-free |
| Registry.NeighboursAscend | lec2_flask.py:137-140 | each entry of the list sorts before the next |
| Registry.AllowedUnitsListHoldsKeys | lec2_flask.py:20-40 | the list holds exactly the keys of ALLOWED_UNITS |
| Registry.AllowedUnitsListIsSortedKeys | lec2_flask.py:137-140 | the list is sorted, lists each key of ALLOWED_UNITS once, and every sorted duplicate-free list of those keys equals it |
| Registry.KeysListTheTable | lec2_flask.py:20-40 | the keys of ALLOWED_UNITS in table order are distinct and are exactly the table's keys |
| Registry.SortingKeysGivesAllowedUnitsList | lec2_flask.py:138 | `Sort` of any duplicate-free list of exactly the table's keys, in whatever order, is the allowed-units list |
| Registry.SortedKeysAreAllowedUnitsList | lec2_flask.py:138 | `Sort` applied to the table's keys in table order gives exactly the allowed-units list, as `sorted(list(ALLOWED_UNITS.keys()))` does |
| Spellings.PlainWordIsTrimmedAndLowerCase | lec2_flask.py:130-131 | a non-empty word of lower-case letters is unchanged by strip and by lower |
| Spellings.PlainKeyResolves | lec2_flask.py:20-64 | a lower-case key of both tables resolves to its entries |
| Spellings.MilesSpelling | lec2_flask.py:205-208 | "mi" resolves to length and mi |
| Spellings.KilometresSpelling | lec2_flask.py:205-208 | "km" resolves to length and km |
| Spellings.KilogramsSpelling | lec2_flask.py:205-208 | "kg" resolves to weight and kg |
| Spellings.PoundsSpelling | lec2_flask.py:205-208 | "lb" resolves to weight and lb |
| Spellings.CelsiusSpelling | lec2_flask.py:205-208 | "celsius" resolves to temperature and c |
| Spellings.FahrenheitSpelling | lec2_flask.py:205-208 | "fahrenheit" resolves to temperature and f |
| Spellings.UnknownSpelling | lec2_flask.py:55-58 | "banana" is trimmed and has no category |
| Conversions.Scale | lec2_flask.py:68-89 | each code's factor to its base unit is positive |
| Conversions.BaseRoundTrip | lec2_flask.py:68-89 | converting to the base unit and back, in either order, gives the value back |
| Conversions.HelpersGoThroughBaseUnits | lec2_flask.py:68-89 | each of the six helpers equals conversion through the base unit of its category |
| Conversions.HelpersAreMutuallyInverse | lec2_flask.py:68-89 | km_to_miles undoes miles_to_km, kg_to_lb undoes lb_to_kg and f_to_c undoes c_to_f, in both orders |
| Conversions.HelperExamples | lec2_flask.py:68-85 | 5 mi is 8.04672 km, 10 kg is between 22.046226 and 22.046227 lb, and -10 C is 14 F |
| Conversions.BaseKeepsSign | lec2_flask.py:68-81 | conversion to and from base units keeps non-negative length and weight values non-negative |
| Handler.Absent | lec2_flask.py:106-109 | the missing list is no longer than the field list and holds exactly the fields absent from the body |
| Handler.AbsentExtend | lec2_flask.py:107-109 | one more loop pass appends the current field exactly when it is absent |
| Handler.DispatchAgreesWithBaseUnits | lec2_flask.py:157-186 | for two codes of one category, dispatch succeeds with the base-unit reference conversion |
| Handler.Convert | lec2_flask.py:98-199 | the handler as written, with its loop over the required fields and its early returns, answers every request as Handle does |
| HandlerFacts.FailureStatusFollowsCheck | lec2_flask.py:100-154 | an error that a check produces carries that check's status: 400 for a category mismatch and a negative value, 422 otherwise |
| HandlerFacts.ResolvedUnitsConvert | lec2_flask.py:143-186 | when both spellings share a category, both normalise and dispatch returns the base-unit conversion, so neither the unsupported-pair nor the unhandled-type branch is taken |
| HandlerFacts.NoneAbsent | lec2_flask.py:106-110 | no fields are reported missing exactly when every field is present |
| HandlerFacts.MissingFieldsInOrder | lec2_flask.py:106-111 | the missing list is exactly the absent ones of value, from_unit, to_unit, in that order |
| HandlerFacts.FirstFailingCheckDecides | lec2_flask.py:98-199 | a request is converted exactly when every check passes; a rejected request is rejected by the first check it fails, with that check's status |
| HandlerFacts.SomeCheckFailsFirst | lec2_flask.py:100-154 | a request that fails some check has a first failing check |
| HandlerFacts.PassedBefore | lec2_flask.py:100-154 | passing the checks before position k means passing each named check before it |
| HandlerFacts.ReachesFieldChecks | lec2_flask.py:100-116 | a JSON body with all three fields reaches the type checks on those fields |
| HandlerFacts.ReachesUnitChecks | lec2_flask.py:119-134 | a request whose fields have the right types reaches the unit checks with the number and the stripped spellings |
| HandlerFacts.RejectedByFirstFailing | lec2_flask.py:100-154 | the response to a request is the error of its first failing check |
| HandlerFacts.NotJsonFirst | lec2_flask.py:100-101 | a non-JSON request is rejected as not JSON |
| HandlerFacts.MissingFieldsFirst | lec2_flask.py:106-111 | a JSON request without some field is rejected with the list of absent fields, before any type check |
| HandlerFacts.ValueNotNumberFirst | lec2_flask.py:119-122 | a value that is not a number is rejected before the unit fields are looked at |
| HandlerFacts.FromUnitNotStringFirst | lec2_flask.py:125-126 | a numeric value with a blank or non-string from_unit is rejected for from_unit |
| HandlerFacts.ToUnitNotStringFirst | lec2_flask.py:127-128 | after from_unit passes, a blank or non-string to_unit is rejected for to_unit |
| HandlerFacts.UnknownFromUnitFirst | lec2_flask.py:134-138 | an unknown from_unit is rejected for from_unit |
| HandlerFacts.UnknownToUnitFirst | lec2_flask.py:139-140 | a known from_unit with an unknown to_unit is rejected for to_unit |
| HandlerFacts.CategoryMismatchFirst | lec2_flask.py:143-144 | known units of different categories are rejected as a category mismatch |
| HandlerFacts.NegativeValueFirst | lec2_flask.py:152-154 | a negative length or weight with matching units is rejected as negative |
| HandlerFacts.UnknownFromFailure | lec2_flask.py:137-138 | an unknown from_unit gives the unsupported from_unit error with the sorted spelling list |
| HandlerFacts.UnknownToFailure | lec2_flask.py:139-140 | an unknown to_unit after a known from_unit gives the unsupported to_unit error with the sorted spelling list |
| HandlerFacts.MismatchFailure | lec2_flask.py:143-144 | categories that differ give the mismatch error whose message names both categories |
| HandlerFacts.NegativeFailure | lec2_flask.py:153-154 | a negative value of a length or weight pair gives the negative-value error with the category and the value |
| HandlerFacts.NormalizeNeverFailsFirst | lec2_flask.py:147-150 | no request fails the normalisation check first |
| HandlerFacts.ConvertsWhenAllPass | lec2_flask.py:156-199 | a request that passes every check is converted |
| HandlerFacts.ConvertsAfterFieldChecks | lec2_flask.py:133-199 | passing the field checks, both registry checks, the category check and the sign check is enough to be converted |
| HandlerFacts.ConvertsOnceResolved | lec2_flask.py:143-199 | spellings of one category and a value allowed for it are converted |
| HandlerFacts.InternalFailuresUnreachable | lec2_flask.py:147-188 | every rejection comes from one of the nine reachable checks; normalisation failure, unsupported pairs and the 500 responses never occur |
| HandlerFacts.ReportedCheckIsNotInternal | lec2_flask.py:100-154 | an error reported by a reachable check is not an internal one and is not a 500 |
| OutcomeFacts.ConvertibleConverts | lec2_flask.py:143-199 | spellings that agree on a category, with an allowed value, are converted through base units and keep the caller's spellings |
| OutcomeFacts.SuccessEchoesRequest | lec2_flask.py:130-198 | a successful answer holds the input number, the stripped caller spellings (not the codes), the base-unit conversion and the shared category |
| OutcomeFacts.AllPassIsConvertible | lec2_flask.py:119-154 | a request that passes every check has a number and two spellings of one category with an allowed value |
| OutcomeFacts.SameCodeKeepsValue | lec2_flask.py:157-178 | when both spellings have one code, the converted value is the input |
| OutcomeFacts.ReverseConversionRoundTrips | lec2_flask.py:157-198 | converting the answer back from the target spelling to the source spelling gives the original value |
| OutcomeFacts.ReverseRequestRoundTrips | lec2_flask.py:98-199 | a request that asks to convert a successful answer back is answered with the original value, spelling and category |
| OutcomeFacts.ReachesUnitsDirectly | lec2_flask.py:100-134 | a JSON request with a number and two trimmed non-empty spellings goes straight to the unit checks |
| OutcomeFacts.AskedFieldsArePresent | lec2_flask.py:100-111 | a JSON request carrying all three fields passes the first two checks |
| OutcomeFacts.TrimmedSpellingsPassTypeChecks | lec2_flask.py:119-131 | a number and two trimmed non-empty spellings pass the type checks unchanged |
| OutcomeFacts.OneCodeOneOutcome | lec2_flask.py:147-186 | spellings with the same codes convert together, to the same value and category |
| OutcomeFacts.SameCodeSameCategory | lec2_flask.py:20-52 | spellings with one code, or with none, have one category, or none |
| OutcomeFacts.LetterCaseIsIgnored | lec2_flask.py:134-186 | spellings that differ only in letter case convert together, to the same value |
| OutcomeFacts.NegativeRefusedForLengthAndWeightOnly | lec2_flask.py:152-154 | a negative value is converted exactly when the category is temperature; otherwise it is refused with 400 |
| OutcomeFacts.ResolvedRequestConverts | lec2_flask.py:98-199 | a request for resolving spellings of one category, with an allowed value, is answered with the base-unit conversion |
| OutcomeFacts.ResolvedRequestNegative | lec2_flask.py:152-154 | a negative length or weight request for resolving spellings is refused as negative with 400 |
| OutcomeFacts.ResolvedRequestMismatch | lec2_flask.py:143-144 | a request between resolving spellings of two categories is refused with the mismatch message and 400 |
| OutcomeFacts.UnknownSourceRequest | lec2_flask.py:137-138 | a request from an unknown spelling is refused with the sorted spelling list and 422 |
| OutcomeFacts.FiveMilesInKilometres | lec2_flask.py:206 | 5 miles to kilometres is answered with 8.04672 and length |
| OutcomeFacts.TenKilogramsInPounds | lec2_flask.py:207 | 10 kilograms to pounds is answered with a weight between 22.046226 and 22.046227 |
| OutcomeFacts.MinusTenCelsiusInFahrenheit | lec2_flask.py:208 | -10 Celsius to Fahrenheit is answered with 14: negative temperatures are accepted |
| OutcomeFacts.DocumentedMilesExample | lec2_flask.py:206 | the request `{"value": 5, "from_unit": "mi", "to_unit": "km"}` converts to 8.04672 km, a length |
| OutcomeFacts.DocumentedKilogramsExample | lec2_flask.py:207 | the request `{"value": 10, "from_unit": "kg", "to_unit": "lb"}` converts to a weight between 22.046226 and 22.046227 |
| OutcomeFacts.DocumentedCelsiusExample | lec2_flask.py:208 | the request `{"value": -10, "from_unit": "celsius", "to_unit": "fahrenheit"}` converts to 14 degrees, a temperature |
| OutcomeFacts.NegativeMilesRefused | lec2_flask.py:153-154 | -5 miles to kilometres is refused as a negative length with 400 |
| OutcomeFacts.MilesToKilogramsRefused | lec2_flask.py:143-144 | miles to kilograms is refused with "Cannot convert from length to weight" and 400 |
| OutcomeFacts.UnknownUnitListsKnownOnes | lec2_flask.py:137-138 | a request from an unknown spelling is refused with 422 and a non-empty ascending list of the known spellings |

## Left out

- HTTP plumbing is left out: routing, `request.get_json`, `jsonify`, `make_response` and `error_response` (lec2_flask.py:92-94), and `app.run` (lec2_flask.py:229-231). A request is modelled as whether its body is JSON plus the body's fields. A response is a conversion or an error, together with its status.
- The body is assumed to be a JSON object. A list or string body, where `in` means something else, is not modelled.
- `float(value)` is abstracted: each JSON value carries the number `float` would give, or nothing when it would raise. Which JSON values `float` accepts is not modelled: a numeric string such as `"5"` is represented, as `Json(Some("5"), Some(5.0))`, and `Handle` accepts it as Python does, but nothing in the model says which strings, booleans or other values parse. Infinities and NaN are not modelled. Without NaN the model also does not capture that a NaN length or weight passes the negative-value check at lec2_flask.py:153, because `nan < 0` is false.
- `round(converted, 6)` (lec2_flask.py:190) is binary floating-point rounding and is left out. `convertedValue` is the exact real result.
- All arithmetic is over `real`, not IEEE doubles. As a result the round-trip and identity facts hold exactly.
- The `try`/`except` around the conversion (lec2_flask.py:187-188) is left out. Its division constants are nonzero, so over `real` nothing there can raise.
- Strings.Lower: lower-cases ASCII letters and the Kelvin sign (which Python lower-cases to `k`) and leaves every other character unchanged. Other non-ASCII case mappings are not modelled. No spelling in the tables can be reached through them.
- Strings.Strip: its contract says only that the result has no whitespace at either end. It does not say the result is a slice of the input; TrimStart and TrimEnd state that for each end.
- Handler.Convert calls the Dispatch function rather than spelling out the three `if` chains (lec2_flask.py:158-186) as statements.
- The six helpers (MilesToKm through FToC) carry no contract of their own. HelpersAreMutuallyInverse, HelpersGoThroughBaseUnits and HelperExamples (with BaseKeepsSign for the sign of the base-unit maps) state their properties.
- `help_endpoint` (lec2_flask.py:202-226) is static response data and is not modelled. Its `sorted(list(set(ALLOWED_UNITS.keys())))` is the same list as the one SortedKeysAreAllowedUnitsList computes, the keys being distinct.
