/**
 * The point-feature filter: `filterState` and `passesFilters`, which decides
 * whether a point feature is drawn and exported.
 */
module Filtering {
  import opened Values
  import opened Features

  /**
   * `filterState`: the district and ward chosen in the dropdowns and the
   * search text. The empty string places no constraint.
   */
  datatype Filters = Filters(district: string, ward: string, search: string)

  const NoFilters := Filters("", "", "")

  /**
   * `clean(v)`: `null`/`undefined` become the empty string, then `String`,
   * trim, lower-case. It is empty exactly for a missing or blank value, and
   * lower-casing it again changes nothing.
   */
  function Clean(v: Value): (r: string)
    ensures r == "" <==> v.Null? || Blank(ToStr(v))
    ensures Lower(r) == r
  {
    TrimEmptyIffBlank(TextOrEmpty(v));
    LowerIdempotent(Trim(TextOrEmpty(v)));
    Lower(Trim(TextOrEmpty(v)))
  }

  /**
   * `passesFilters(feature)` under the filter state `fs`, its checks in the
   * source's order. Its four early returns amount to three independent
   * constraints that must all hold.
   */
  predicate Passes(fs: Filters, ft: Feature): (b: bool)
    ensures b <==>
      && KeyMatches(fs.district, Get(ft, "District"))
      && KeyMatches(fs.ward, Get(ft, "Ward"))
      && SearchMatches(fs.search, ft)
  {
    var d := Clean(Get(ft, "District"));
    var w := Clean(Get(ft, "Ward"));
    var nm := Clean(NameValue(ft));
    if fs.district != "" && Clean(Str(fs.district)) != d then false
    else if fs.ward != "" && Clean(Str(fs.ward)) != w then false
    else if fs.search != "" && nm != "" && !Contains(nm, Clean(Str(fs.search))) then false
    else if fs.search != "" && nm == "" then false
    else true
  }

  // ---- A declarative reading of the filter ----

  /** A dropdown constraint: none, or equal attribute after cleaning. */
  predicate KeyMatches(wanted: string, attr: Value)
  {
    wanted == "" || Clean(Str(wanted)) == Clean(attr)
  }

  /** The search constraint: none, or the cleaned name exists and holds the cleaned search text. */
  predicate SearchMatches(search: string, ft: Feature)
  {
    search == "" || (Clean(NameValue(ft)) != "" && Contains(Clean(NameValue(ft)), Clean(Str(search))))
  }

  /** With no district, ward or search, every feature passes. */
  lemma NoFiltersPassEverything(ft: Feature)
    ensures Passes(NoFilters, ft)
  {
  }

  /** A district or ward that differs from the feature's after cleaning rejects it. */
  lemma MismatchRejects(fs: Filters, ft: Feature)
    requires || (fs.district != "" && Clean(Str(fs.district)) != Clean(Get(ft, "District")))
             || (fs.ward != "" && Clean(Str(fs.ward)) != Clean(Get(ft, "Ward")))
    ensures !Passes(fs, ft)
  {
  }

  /** A search rejects every feature whose name is missing or blank. */
  lemma SearchRejectsNameless(fs: Filters, ft: Feature)
    requires fs.search != "" && Clean(NameValue(ft)) == ""
    ensures !Passes(fs, ft)
  {
  }

  /** Cleaning ignores case and surrounding whitespace. */
  lemma CleanIgnoresCaseAndPadding(w1: string, s: string, w2: string)
    requires Blank(w1) && Blank(w2)
    ensures Clean(Str(w1 + s + w2)) == Clean(Str(Lower(s)))
  {
    TrimIgnoresPadding(w1, s, w2);
    TrimOfLower(s);
    LowerIdempotent(Trim(s));
  }

  /** Two district choices with the same cleaned text select the same features. */
  lemma DistrictsWithSameCleanTextAgree(fs: Filters, ft: Feature, a: string, b: string)
    requires a != "" && b != "" && Clean(Str(a)) == Clean(Str(b))
    ensures Passes(fs.(district := a), ft) == Passes(fs.(district := b), ft)
  {
  }

  /**
   * The district chosen may differ from another one in case and padding
   * without changing which features pass.
   */
  lemma DistrictMatchIgnoresCaseAndPadding(fs: Filters, ft: Feature, w1: string, d: string, w2: string)
    requires Blank(w1) && Blank(w2) && d != ""
    ensures Passes(fs.(district := w1 + d + w2), ft) == Passes(fs.(district := Lower(d)), ft)
  {
    CleanIgnoresCaseAndPadding(w1, d, w2);
    DistrictsWithSameCleanTextAgree(fs, ft, w1 + d + w2, Lower(d));
  }

  /**
   * A `Names` value that is present but blank hides `Name`: the search then
   * sees no name at all and rejects the feature.
   */
  lemma BlankNamesHidesName(fs: Filters, ft: Feature, w: string)
    requires fs.search != "" && w != "" && Blank(w) && Get(ft, "Names") == Str(w)
    ensures !Passes(fs, ft)
  {
    TrimEmptyIffBlank(w);
  }

  lemma ScenarioTrimPadded()
    ensures Trim("chikwalakwala ") == "chikwalakwala"
  {
    var padded, lower := "chikwalakwala ", "chikwalakwala";
    assert !IsWhitespace('c') && !IsWhitespace('a');
    assert padded[0] == 'c' && lower[|lower| - 1] == 'a';
    assert LeadingBlank(padded) == 0;
    assert TrailingBlank(lower) == 0;
    assert padded[..|padded| - 1] == lower;
    assert TrailingBlank(padded) == 1;
  }

  lemma ScenarioTrimPlain()
    ensures Trim("Chikwalakwala") == "Chikwalakwala"
  {
    var upper := "Chikwalakwala";
    assert !IsWhitespace('C') && !IsWhitespace('a');
    assert upper[0] == 'C' && upper[|upper| - 1] == 'a';
    assert LeadingBlank(upper) == 0;
    assert TrailingBlank(upper) == 0;
  }

  lemma ScenarioLower()
    ensures Lower("Chikwalakwala") == "chikwalakwala" == Lower("chikwalakwala")
  {
  }

  lemma ScenarioCleanText()
    ensures Clean(Str("chikwalakwala ")) == Clean(Str("Chikwalakwala"))
  {
    ScenarioTrimPadded();
    ScenarioTrimPlain();
    ScenarioLower();
  }

  /** A district chosen as "Chikwalakwala" matches a feature whose District is "chikwalakwala ". */
  lemma DistrictScenario()
    ensures Passes(Filters("Chikwalakwala", "", ""), Feature(map["District" := Str("chikwalakwala ")]))
  {
    ScenarioCleanText();
    var ft := Feature(map["District" := Str("chikwalakwala ")]);
    assert Get(ft, "District") == Str("chikwalakwala ");
  }
}
