/**
 * utils/city_aliases.py: a second, independently scoped normaliser used only
 * for the technician count. It keeps a missing or empty city as it is.
 */
module CityAliases {
  import opened Wrappers
  import opened Text
  import CityAlias

  /** `_TECHNICIAN_CITY_ALIAS`: case-folded spelling to the stored city name. */
  const TechnicianCityAlias: map<string, string> := map["bengaluru" := "Bangalore"]

  /**
   * `normalize_city_for_technician_count`: `None` and `""` come back unchanged;
   * otherwise the alias of the trimmed, case-folded input, or the trimmed input.
   */
  function NormalizeCityForTechnicianCount(city: Option<string>): (r: Option<string>)
    ensures city.None? <==> r.None?
    ensures city == Some("") ==> r == Some("")
    ensures r.Some? ==> Stripped(r.value)
    ensures r.Some? ==> (r.value == [] <==> AllSpace(city.value))
    ensures r.Some? && Lower(Strip(city.value)) !in TechnicianCityAlias ==> r.value == Strip(city.value)
    ensures (r.Some? && city.value != "" && Lower(Strip(city.value)) in TechnicianCityAlias ==>
               r.value == TechnicianCityAlias[Lower(Strip(city.value))])
  {
    if city.None? || city.value == "" then
      city
    else
      var c := Lower(Strip(city.value));
      StripAllSpace(city.value);
      if c in TechnicianCityAlias && TechnicianCityAlias[c] != "" then
        assert Stripped("Bangalore");
        Some(TechnicianCityAlias[c])
      else
        Some(Strip(city.value))
  }

  /** Whitespace-only input gives the empty string, not `None`. */
  lemma BlankGivesEmpty(s: string)
    requires s != [] && AllSpace(s)
    ensures NormalizeCityForTechnicianCount(Some(s)) == Some("")
  {
  }

  /** "bengaluru" in any casing, with any whitespace around it, becomes "Bangalore". */
  lemma BengaluruInAnyForm(pre: string, w: string, post: string)
    requires AllSpace(pre) && AllSpace(post) && Lower(w) == "bengaluru"
    ensures NormalizeCityForTechnicianCount(Some(pre + w + post)) == Some("Bangalore")
  {
    assert LowerChar(w[0]) == 'b' && LowerChar(w[|w| - 1]) == 'u';
    StripPadded(pre, w, post);
  }

  /** A city outside the alias table comes back trimmed, whatever whitespace surrounds it. */
  lemma OrdinaryCityKeptTrimmed(pre: string, w: string, post: string)
    requires AllSpace(pre) && AllSpace(post) && w != "" && Stripped(w) && Lower(w) !in TechnicianCityAlias
    ensures NormalizeCityForTechnicianCount(Some(pre + w + post)) == Some(w)
  {
    var s := pre + w + post;
    StripPadded(pre, w, post);
    assert s != "" by { assert |s| >= |w|; }
  }

  /** "All Cities" is an ordinary city name here: it comes back trimmed. */
  lemma AllCitiesNotSpecial(pre: string, post: string)
    requires AllSpace(pre) && AllSpace(post)
    ensures NormalizeCityForTechnicianCount(Some(pre + "All Cities" + post)) == Some("All Cities")
  {
    assert Lower("All Cities") !in TechnicianCityAlias by { assert Lower("All Cities")[1] == 'l'; }
    OrdinaryCityKeptTrimmed(pre, "All Cities", post);
  }

  /** Neither is "all": it comes back trimmed. */
  lemma AllNotSpecial(pre: string, post: string)
    requires AllSpace(pre) && AllSpace(post)
    ensures NormalizeCityForTechnicianCount(Some(pre + "all" + post)) == Some("all")
  {
    assert Lower("all") !in TechnicianCityAlias by { assert |Lower("all")| == 3; }
    OrdinaryCityKeptTrimmed(pre, "all", post);
  }

  /** A trimmed, non-empty city outside the alias table is a fixed point. */
  lemma FixesCanonical(c: string)
    requires c != [] && Stripped(c) && Lower(c) !in TechnicianCityAlias
    ensures NormalizeCityForTechnicianCount(Some(c)) == Some(c)
  {
    StripOfStripped(c);
  }

  /** Normalising an output again gives the same output. */
  lemma NormalizeIdempotent(city: Option<string>)
    ensures NormalizeCityForTechnicianCount(NormalizeCityForTechnicianCount(city))
         == NormalizeCityForTechnicianCount(city)
  {
    var r := NormalizeCityForTechnicianCount(city);
    if r.Some? && r.value != "" {
      if r.value == "Bangalore" {
        BangaloreIsFixed();
      } else {
        FixesCanonical(r.value);
      }
    }
  }

  /** The alias's target is not itself an alias. */
  lemma BangaloreIsFixed()
    ensures NormalizeCityForTechnicianCount(Some("Bangalore")) == Some("Bangalore")
  {
    assert Lower("Bangalore")[1] == 'a';
    FixesCanonical("Bangalore");
  }

  /**
   * On input that is not blank, this normaliser and `normalize_city` agree on
   * the city (the two tables hold the same single alias).
   */
  lemma AgreesWithNormalizeCity(s: string)
    requires !AllSpace(s)
    ensures NormalizeCityForTechnicianCount(Some(s)) == CityAlias.NormalizeCity(Some(s)).0
  {
  }
}
