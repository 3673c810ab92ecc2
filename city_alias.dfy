/**
 * utils/city_alias.py: the city normaliser used for database filtering.
 * It trims the input and maps a small case-insensitive alias table onto the
 * city names stored in the database; it reports whether the table was used.
 */
module CityAlias {
  import opened Wrappers
  import opened Text

  /** `ALIASES`: lower-cased spelling to the stored city name. */
  const Aliases: map<string, string> := map["bengaluru" := "Bangalore"]

  /**
   * `normalize_city`: `(None, False)` for a missing, empty or all-whitespace
   * city; `(alias, True)` when the trimmed, lower-cased input is in the table;
   * otherwise the trimmed input with its casing kept, and `False`.
   */
  function NormalizeCity(city: Option<string>): (r: (Option<string>, bool))
    ensures r.0.None? <==> (city.None? || AllSpace(city.value))
    ensures r.0.None? ==> !r.1
    ensures r.1 <==> r.0.Some? && Lower(Strip(city.value)) in Aliases
    ensures r.1 ==> r.0 == Some(Aliases[Lower(Strip(city.value))])
    ensures r.0.Some? && !r.1 ==> r.0.value == Strip(city.value)
    ensures r.0.Some? ==> r.0.value != [] && Stripped(r.0.value)
  {
    if city.None? || city.value == "" then
      (None, false)
    else
      var trimmed := Strip(city.value);
      StripAllSpace(city.value);
      if trimmed == "" then
        (None, false)
      else
        var key := Lower(trimmed);
        if key in Aliases && Aliases[key] != "" then
          assert Stripped("Bangalore");
          (Some(Aliases[key]), true)
        else
          (Some(trimmed), false)
  }

  /** "bengaluru" in any casing, with any whitespace around it, becomes ("Bangalore", True). */
  lemma BengaluruInAnyForm(pre: string, w: string, post: string)
    requires AllSpace(pre) && AllSpace(post) && Lower(w) == "bengaluru"
    ensures NormalizeCity(Some(pre + w + post)) == (Some("Bangalore"), true)
  {
    assert LowerChar(w[0]) == 'b' && LowerChar(w[|w| - 1]) == 'u';
    StripPadded(pre, w, post);
  }

  /** Any other non-blank city comes back trimmed, casing preserved, with the flag False. */
  lemma OtherCityKeptTrimmed(s: string)
    requires !AllSpace(s) && Lower(Strip(s)) != "bengaluru"
    ensures NormalizeCity(Some(s)) == (Some(Strip(s)), false)
  {
  }

  /** A trimmed, non-empty city outside the alias table is a fixed point. */
  lemma NormalizeCityFixesCanonical(c: string)
    requires c != [] && Stripped(c) && Lower(c) !in Aliases
    ensures NormalizeCity(Some(c)) == (Some(c), false)
  {
    StripOfStripped(c);
    assert !AllSpace(c) by { assert !IsSpace(c[0]); }
  }

  /** The city component is idempotent: normalising a returned city gives it back. */
  lemma NormalizeCityIdempotent(city: Option<string>)
    requires NormalizeCity(city).0.Some?
    ensures NormalizeCity(NormalizeCity(city).0).0 == NormalizeCity(city).0
  {
    var r := NormalizeCity(city);
    if r.1 {
      AliasIsCanonical();
    } else {
      NormalizeCityFixesCanonical(r.0.value);
    }
  }

  /** The alias's target is a fixed point: it is not itself an alias. */
  lemma AliasIsCanonical()
    ensures NormalizeCity(Some("Bangalore")) == (Some("Bangalore"), false)
  {
    assert Lower("Bangalore")[1] == 'a';
    NormalizeCityFixesCanonical("Bangalore");
  }
}
