/**
 * The unit registry: the two static tables of accepted unit spellings, one
 * giving each spelling its category (length, weight or temperature), the
 * other its canonical short code (mi, km, lb, kg, c or f), and the two
 * case-insensitive lookups over them.
 */
module Registry {
  import opened Wrappers
  import opened Strings

  const LENGTH := "length"
  const WEIGHT := "weight"
  const TEMPERATURE := "temperature"

  /** Every category a spelling can have. */
  const CATEGORIES: set<string> := {LENGTH, WEIGHT, TEMPERATURE}

  /** Every canonical code a spelling can normalise to. */
  const CODES: set<string> := {"mi", "km", "lb", "kg", "c", "f"}

  /** `ALLOWED_UNITS`: accepted (lower-case) spelling to category. */
  const ALLOWED_UNITS: map<string, string> := map[
    "miles" := LENGTH,
    "mile" := LENGTH,
    "mi" := LENGTH,
    "kilometer" := LENGTH,
    "kilometers" := LENGTH,
    "km" := LENGTH,
    "kilometre" := LENGTH,
    "kilometres" := LENGTH,
    "pounds" := WEIGHT,
    "pound" := WEIGHT,
    "lb" := WEIGHT,
    "lbs" := WEIGHT,
    "kilogram" := WEIGHT,
    "kilograms" := WEIGHT,
    "kg" := WEIGHT,
    "celsius" := TEMPERATURE,
    "c" := TEMPERATURE,
    "fahrenheit" := TEMPERATURE,
    "f" := TEMPERATURE
  ]

  /** `NORMALIZE`: accepted (lower-case) spelling to canonical code. */
  const NORMALIZE: map<string, string> := map[
    "miles" := "mi", "mile" := "mi", "mi" := "mi",
    "kilometer" := "km", "kilometers" := "km", "km" := "km", "kilometre" := "km", "kilometres" := "km",
    "pounds" := "lb", "pound" := "lb", "lbs" := "lb", "lb" := "lb",
    "kilogram" := "kg", "kilograms" := "kg", "kg" := "kg",
    "celsius" := "c", "c" := "c", "fahrenheit" := "f", "f" := "f"
  ]

  /** `get_unit_type`: the category of a spelling, in any letter case. */
  function UnitType(unit: string): (r: Option<string>)
    ensures r.Some? <==> Lower(unit) in ALLOWED_UNITS
    ensures r.Some? ==> r.value in CATEGORIES
  {
    var key := Lower(unit);
    if key in ALLOWED_UNITS then Some(ALLOWED_UNITS[key]) else None
  }

  /** `normalize`: the canonical code of a spelling, in any letter case. */
  function Normalize(unit: string): (r: Option<string>)
    ensures r.Some? <==> Lower(unit) in NORMALIZE
    ensures r.Some? ==> r.value in CODES
  {
    var key := Lower(unit);
    if key in NORMALIZE then Some(NORMALIZE[key]) else None
  }

  /** The category a canonical code belongs to; each code belongs to exactly one. */
  function CodeCategory(code: string): (cat: string)
    requires code in CODES
    ensures cat in CATEGORIES
  {
    if code == "mi" || code == "km" then LENGTH
    else if code == "lb" || code == "kg" then WEIGHT
    else TEMPERATURE
  }

  /**
   * The `allowed_units` list of an unknown-unit error,
   * `sorted(list(ALLOWED_UNITS.keys()))`, written out; `AllowedUnitsListAscends`
   * and `AllowedUnitsListIsSortedKeys` show that it is that list.
   */
  function AllowedUnitsList(): (r: seq<string>)
    ensures |r| == 19
  {
    [ "c", "celsius", "f", "fahrenheit", "kg", "kilogram", "kilograms",
      "kilometer", "kilometers", "kilometre", "kilometres", "km",
      "lb", "lbs", "mi", "mile", "miles", "pound", "pounds" ]
  }

  // ---------------------------------------------------------------------
  // Facts about the tables
  // ---------------------------------------------------------------------

  /** The set of a list's elements. */
  function Elements(s: seq<string>): (e: set<string>)
    ensures forall x :: x in e <==> x in s
  {
    set x | x in s
  }

  /** A list without repeats has as many elements as its set. */
  lemma {:induction false} DistinctElements(s: seq<string>)
    requires Distinct(s)
    ensures |Elements(s)| == |s|
  {
    if s != [] {
      DistinctElements(s[1..]);
      assert Elements(s) == Elements(s[1..]) + {s[0]};
      assert s[0] !in Elements(s[1..]);
    }
  }

  /** The keys of `ALLOWED_UNITS` in the order the table lists them. */
  const KEYS: seq<string> := [
    "miles", "mile", "mi", "kilometer", "kilometers", "km", "kilometre", "kilometres",
    "pounds", "pound", "lb", "lbs", "kilogram", "kilograms", "kg",
    "celsius", "c", "fahrenheit", "f" ]

  /** `KEYS` lists every key of `ALLOWED_UNITS` once. */
  lemma KeysListTheTable()
    ensures Distinct(KEYS)
    ensures forall u :: u in KEYS <==> u in ALLOWED_UNITS
  {
  }

  /** Sorting any list of the table's keys without repeats gives the allowed-units list. */
  lemma SortingKeysGivesAllowedUnitsList(keys: seq<string>)
    requires Distinct(keys)
    requires forall u :: u in keys <==> u in ALLOWED_UNITS
    ensures Sort(keys) == AllowedUnitsList()
  {
    var sorted := Sort(keys);
    PermutationOfDistinct(keys, sorted);
    AllowedUnitsListIsSortedKeys(sorted);
  }

  /** `sorted(list(ALLOWED_UNITS.keys()))` is the allowed-units list. */
  lemma SortedKeysAreAllowedUnitsList()
    ensures Sort(KEYS) == AllowedUnitsList()
  {
    KeysListTheTable();
    SortingKeysGivesAllowedUnitsList(KEYS);
  }

  /** The two tables accept the same spellings. */
  lemma TablesShareKeys()
    ensures ALLOWED_UNITS.Keys == NORMALIZE.Keys
  {
  }

  /** A spelling has a category exactly when it has a canonical code. */
  lemma KnownIffNormalizable(unit: string)
    ensures UnitType(unit).Some? <==> Normalize(unit).Some?
  {
    TablesShareKeys();
  }

  /** The category of a spelling is the category of its canonical code. */
  lemma CategoryFollowsCode(unit: string)
    requires Normalize(unit).Some?
    ensures UnitType(unit) == Some(CodeCategory(Normalize(unit).value))
  {
  }

  /** Each canonical code is itself an accepted spelling, and normalises to itself. */
  lemma CodesAreFixedPoints(code: string)
    requires code in CODES
    ensures IsLowerCase(code)
    ensures Normalize(code) == Some(code)
    ensures UnitType(code) == Some(CodeCategory(code))
  {
    LowerOfLowerCase(code);
  }

  /** Normalisation is idempotent. */
  lemma NormalizeIdempotent(unit: string)
    requires Normalize(unit).Some?
    ensures Normalize(Normalize(unit).value) == Normalize(unit)
  {
    CodesAreFixedPoints(Normalize(unit).value);
  }

  /** A spelling and its canonical code share a category. */
  lemma NormalizePreservesCategory(unit: string)
    requires Normalize(unit).Some?
    ensures UnitType(Normalize(unit).value) == UnitType(unit)
  {
    CodesAreFixedPoints(Normalize(unit).value);
    CategoryFollowsCode(unit);
  }

  /** Both lookups see only the lower-cased spelling. */
  lemma LookupsIgnoreCase(unit: string)
    ensures UnitType(Lower(unit)) == UnitType(unit)
    ensures Normalize(Lower(unit)) == Normalize(unit)
  {
    LowerIdempotent(unit);
  }

  /** Spellings that agree up to letter case resolve identically. */
  lemma SameLowerCaseSameLookup(u: string, v: string)
    requires Lower(u) == Lower(v)
    ensures UnitType(u) == UnitType(v) && Normalize(u) == Normalize(v)
  {
  }

  /** "MILES", "Miles" and "miles" are one unit. */
  lemma MilesInAnyCase()
    ensures UnitType("MILES") == UnitType("Miles") == UnitType("miles") == Some(LENGTH)
    ensures Normalize("MILES") == Normalize("Miles") == Normalize("miles") == Some("mi")
  {
    assert Lower("MILES") == "miles";
    assert Lower("Miles") == "miles";
    assert Lower("miles") == "miles";
  }

  /** The allowed-units list is strictly ascending under Python's string order. */
  lemma AllowedUnitsListAscends()
    ensures IsAscending(AllowedUnitsList()) && IsSorted(AllowedUnitsList()) && Distinct(AllowedUnitsList())
  {
    NeighboursAscend();
    AscendingSteps(AllowedUnitsList());
  }

  /** Each spelling in the allowed-units list is below the next one. */
  lemma NeighboursAscend()
    ensures forall i :: 0 <= i < |AllowedUnitsList()| - 1 ==> Less(AllowedUnitsList()[i], AllowedUnitsList()[i + 1])
  {
    NeighboursAscendFrom0();
    NeighboursAscendFrom6();
    NeighboursAscendFrom12();
  }

  lemma NeighboursAscendFrom0()
    ensures forall i :: 0 <= i < 6 ==> Less(AllowedUnitsList()[i], AllowedUnitsList()[i + 1])
  {
    var r := AllowedUnitsList();
    assert Less("c", "celsius");
    assert Less("celsius", "f");
    assert Less("f", "fahrenheit");
    assert Less("fahrenheit", "kg");
    assert Less("kg", "kilogram");
    assert Less("kilogram", "kilograms");
  }

  lemma NeighboursAscendFrom6()
    ensures forall i :: 6 <= i < 12 ==> Less(AllowedUnitsList()[i], AllowedUnitsList()[i + 1])
  {
    var r := AllowedUnitsList();
    assert Less("kilograms", "kilometer");
    assert Less("kilometer", "kilometers");
    assert Less("kilometers", "kilometre");
    assert Less("kilometre", "kilometres");
    assert Less("kilometres", "km");
    assert Less("km", "lb");
  }

  lemma NeighboursAscendFrom12()
    ensures forall i :: 12 <= i < 18 ==> Less(AllowedUnitsList()[i], AllowedUnitsList()[i + 1])
  {
    var r := AllowedUnitsList();
    assert Less("lb", "lbs");
    assert Less("lbs", "mi");
    assert Less("mi", "mile");
    assert Less("mile", "miles");
    assert Less("miles", "pound");
    assert Less("pound", "pounds");
  }

  /** The allowed-units list holds exactly the accepted spellings. */
  lemma AllowedUnitsListHoldsKeys()
    ensures forall u :: u in AllowedUnitsList() <==> u in ALLOWED_UNITS
  {
  }

  /**
   * The allowed-units list is sorted and lists every accepted spelling once;
   * it is the only list that does, so it is `sorted(list(ALLOWED_UNITS.keys()))`.
   */
  lemma AllowedUnitsListIsSortedKeys(other: seq<string>)
    requires IsSorted(other) && Distinct(other)
    requires forall u :: u in other <==> u in ALLOWED_UNITS
    ensures IsSorted(AllowedUnitsList()) && Distinct(AllowedUnitsList())
    ensures forall u :: u in AllowedUnitsList() <==> u in ALLOWED_UNITS
    ensures |AllowedUnitsList()| == |ALLOWED_UNITS|
    ensures other == AllowedUnitsList()
  {
    AllowedUnitsListAscends();
    AllowedUnitsListHoldsKeys();
    assert ALLOWED_UNITS.Keys == Elements(AllowedUnitsList());
    DistinctElements(AllowedUnitsList());
    SortedDistinctAscends(other);
    AscendingUnique(other, AllowedUnitsList());
  }
}
