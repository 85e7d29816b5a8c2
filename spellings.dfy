/**
 * The spellings that the documented examples use: each needs no trimming,
 * and each resolves to the category and canonical code the tables give it.
 */
module Spellings {
  import opened Wrappers
  import opened Strings
  import opened Registry

  /** `unit` is not blank, needs no trimming, and resolves to `category` and canonical `code`. */
  predicate Resolves(unit: string, category: string, code: string) {
    unit != [] && Strip(unit) == unit && UnitType(unit) == Some(category) && Normalize(unit) == Some(code)
  }

  /** A non-empty word of ASCII lower-case letters, as every table key is. */
  predicate PlainWord(s: string) {
    s != [] && forall i :: 0 <= i < |s| ==> 'a' <= s[i] <= 'z'
  }

  /** A plain word is its own `strip()` and its own `lower()`. */
  lemma PlainWordIsTrimmedAndLowerCase(s: string)
    requires PlainWord(s)
    ensures Strip(s) == s && Lower(s) == s
  {
    StripKeepsTrimmed(s);
    LowerOfLowerCase(s);
  }

  /** A plain word that is a key resolves to what both tables give it. */
  lemma PlainKeyResolves(s: string, category: string, code: string)
    requires PlainWord(s)
    requires s in ALLOWED_UNITS && ALLOWED_UNITS[s] == category
    requires s in NORMALIZE && NORMALIZE[s] == code
    ensures Resolves(s, category, code)
  {
    PlainWordIsTrimmedAndLowerCase(s);
  }

  lemma MilesSpelling() ensures Resolves("mi", LENGTH, "mi") {
    PlainKeyResolves("mi", LENGTH, "mi");
  }

  lemma KilometresSpelling() ensures Resolves("km", LENGTH, "km") {
    PlainKeyResolves("km", LENGTH, "km");
  }

  lemma KilogramsSpelling() ensures Resolves("kg", WEIGHT, "kg") {
    PlainKeyResolves("kg", WEIGHT, "kg");
  }

  lemma PoundsSpelling() ensures Resolves("lb", WEIGHT, "lb") {
    PlainKeyResolves("lb", WEIGHT, "lb");
  }

  lemma CelsiusSpelling() ensures Resolves("celsius", TEMPERATURE, "c") {
    PlainKeyResolves("celsius", TEMPERATURE, "c");
  }

  lemma FahrenheitSpelling() ensures Resolves("fahrenheit", TEMPERATURE, "f") {
    PlainKeyResolves("fahrenheit", TEMPERATURE, "f");
  }

  lemma UnknownSpelling() ensures Strip("banana") == "banana" && UnitType("banana").None? {
    assert PlainWord("banana") && "banana" !in ALLOWED_UNITS;
    PlainWordIsTrimmedAndLowerCase("banana");
  }
}
