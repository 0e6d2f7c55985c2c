/**
 * assets/app.js, the index and detail pages: the search and filter
 * predicates of `renderList`, and the schema.org type `injectJsonLd` gives a
 * place.
 *
 * The filters read a typed view of a place: each field the filters use,
 * present or not, with the type the dataset gives it. A place on which the
 * search would throw a TypeError (a name that is not a string, a truthy
 * `cuisines` that is not an array of strings, a truthy neighbourhood that is
 * not a string) has no such view. The choices on the page
 * (the search box, the ticked checkboxes) are a Selection.
 */
module Listings {
  import opened Wrappers
  import opened Text
  import opened JsonValue
  import opened Seqs
  import MissingFieldsReport

  // ---------------------------------------------------------------------
  // The filters of renderList

  /** The fields of a place the filters read. */
  datatype Listing = Listing(
    name: string,                    // `p.name`
    cuisines: Option<seq<string>>,   // `p.cuisines`, when it is an array
    neighborhood: Option<string>,    // `p.location?.neighborhood`
    badges: Option<seq<string>>,     // `p.badges`, when it is an array
    price: Option<string>)           // `p.price_range?.symbol`

  /**
   * What the page holds: the search box's raw value (None when there is no
   * search box) and the values of the ticked award, price, cuisine and
   * neighbourhood checkboxes.
   */
  datatype Selection = Selection(
    search: Option<string>,
    awards: seq<string>,
    prices: seq<string>,
    cuisines: seq<string>,
    neighborhoods: seq<string>)

  /** `searchInput.value.trim().toLowerCase()`; the search applies when it is not empty. */
  function Query(sel: Selection): string {
    if sel.search.Some? then Lower(JsTrim(sel.search.value)) else ""
  }

  /** The search: the query in the lower-cased name, in some cuisine, or in a non-empty neighbourhood. */
  predicate MatchesSearch(p: Listing, q: string) {
    || Contains(Lower(p.name), q)
    || (p.cuisines.Some? && exists i :: 0 <= i < |p.cuisines.value| && Contains(Lower(p.cuisines.value[i]), q))
    || (p.neighborhood.Some? && p.neighborhood.value != [] && Contains(Lower(p.neighborhood.value), q))
  }

  /** The awards filter: the badges are an array holding every selected award. */
  predicate HasAwards(p: Listing, awards: seq<string>) {
    p.badges.Some? && forall a :: a in awards ==> a in p.badges.value
  }

  /** The price filter: the price symbol is one of those selected. */
  predicate PriceIn(p: Listing, prices: seq<string>) {
    p.price.Some? && p.price.value in prices
  }

  /** The cuisines filter: the cuisines are an array sharing some cuisine with the selection. */
  predicate CuisineOverlap(p: Listing, cuisines: seq<string>) {
    p.cuisines.Some? && exists c :: c in p.cuisines.value && c in cuisines
  }

  /** The neighbourhood filter: the neighbourhood is one of those selected. */
  predicate NeighborhoodIn(p: Listing, neighborhoods: seq<string>) {
    p.neighborhood.Some? && p.neighborhood.value in neighborhoods
  }

  /**
   * Filter `k` of the five, in the order `renderList` applies them, as a test
   * of one place; a filter with nothing selected lets every place through.
   */
  predicate Step(sel: Selection, k: nat, p: Listing) {
    if k == 0 then Query(sel) == [] || MatchesSearch(p, Query(sel))
    else if k == 1 then sel.awards == [] || HasAwards(p, sel.awards)
    else if k == 2 then sel.prices == [] || PriceIn(p, sel.prices)
    else if k == 3 then sel.cuisines == [] || CuisineOverlap(p, sel.cuisines)
    else if k == 4 then sel.neighborhoods == [] || NeighborhoodIn(p, sel.neighborhoods)
    else true
  }

  /** The place passes the filters before filter `k`. */
  predicate Through(sel: Selection, k: nat, p: Listing) {
    && (k > 0 ==> Step(sel, 0, p))
    && (k > 1 ==> Step(sel, 1, p))
    && (k > 2 ==> Step(sel, 2, p))
    && (k > 3 ==> Step(sel, 3, p))
    && (k > 4 ==> Step(sel, 4, p))
  }

  /** The place passes every active filter. */
  predicate Passes(sel: Selection, p: Listing) {
    && (Query(sel) == [] || MatchesSearch(p, Query(sel)))
    && (sel.awards == [] || HasAwards(p, sel.awards))
    && (sel.prices == [] || PriceIn(p, sel.prices))
    && (sel.cuisines == [] || CuisineOverlap(p, sel.cuisines))
    && (sel.neighborhoods == [] || NeighborhoodIn(p, sel.neighborhoods))
  }

  /**
   * Applying filter `k` (when it is active) to the places that passed the
   * filters before it leaves the places that pass filter `k` too.
   */
  lemma StepFilter(places: seq<Listing>, sel: Selection, k: nat, results: seq<Listing>, active: bool, f: Listing -> bool)
    requires k < 5
    requires results == Filter(places, p => Through(sel, k, p))
    requires forall p :: Step(sel, k, p) == (!active || f(p))
    ensures (if active then Filter(results, f) else results) == Filter(places, p => Through(sel, k + 1, p))
  {
    if active {
      FilterThen(places, p => Through(sel, k, p), f, p => Through(sel, k + 1, p));
    } else {
      FilterSame(places, p => Through(sel, k, p), p => Through(sel, k + 1, p));
    }
  }

  /** The search, then the awards, price, cuisines and neighbourhood filters, each one step further. */
  lemma SearchStep(places: seq<Listing>, sel: Selection, results: seq<Listing>)
    requires results == Filter(places, p => Through(sel, 0, p))
    ensures (if Query(sel) != [] then Filter(results, p => MatchesSearch(p, Query(sel))) else results)
            == Filter(places, p => Through(sel, 1, p))
  {
    StepFilter(places, sel, 0, results, Query(sel) != [], p => MatchesSearch(p, Query(sel)));
  }

  lemma AwardsStep(places: seq<Listing>, sel: Selection, results: seq<Listing>)
    requires results == Filter(places, p => Through(sel, 1, p))
    ensures (if |sel.awards| > 0 then Filter(results, p => HasAwards(p, sel.awards)) else results)
            == Filter(places, p => Through(sel, 2, p))
  {
    StepFilter(places, sel, 1, results, |sel.awards| > 0, p => HasAwards(p, sel.awards));
  }

  lemma PriceStep(places: seq<Listing>, sel: Selection, results: seq<Listing>)
    requires results == Filter(places, p => Through(sel, 2, p))
    ensures (if |sel.prices| > 0 then Filter(results, p => PriceIn(p, sel.prices)) else results)
            == Filter(places, p => Through(sel, 3, p))
  {
    StepFilter(places, sel, 2, results, |sel.prices| > 0, p => PriceIn(p, sel.prices));
  }

  lemma CuisinesStep(places: seq<Listing>, sel: Selection, results: seq<Listing>)
    requires results == Filter(places, p => Through(sel, 3, p))
    ensures (if |sel.cuisines| > 0 then Filter(results, p => CuisineOverlap(p, sel.cuisines)) else results)
            == Filter(places, p => Through(sel, 4, p))
  {
    StepFilter(places, sel, 3, results, |sel.cuisines| > 0, p => CuisineOverlap(p, sel.cuisines));
  }

  lemma NeighborhoodsStep(places: seq<Listing>, sel: Selection, results: seq<Listing>)
    requires results == Filter(places, p => Through(sel, 4, p))
    ensures (if |sel.neighborhoods| > 0 then Filter(results, p => NeighborhoodIn(p, sel.neighborhoods)) else results)
            == Filter(places, p => Passes(sel, p))
  {
    StepFilter(places, sel, 4, results, |sel.neighborhoods| > 0, p => NeighborhoodIn(p, sel.neighborhoods));
    FilterSame(places, p => Through(sel, 5, p), p => Passes(sel, p));
  }

  /** `renderList`'s filters, each applied to what the one before it left. */
  method FilterPlaces(places: seq<Listing>, sel: Selection) returns (results: seq<Listing>)
    ensures results == Filter(places, p => Passes(sel, p))
  {
    results := places;
    FilterKeepsAll(places, p => Through(sel, 0, p));

    SearchStep(places, sel, results);
    if Query(sel) != [] {
      results := Filter(results, p => MatchesSearch(p, Query(sel)));
    }

    AwardsStep(places, sel, results);
    if |sel.awards| > 0 {
      results := Filter(results, p => HasAwards(p, sel.awards));
    }

    PriceStep(places, sel, results);
    if |sel.prices| > 0 {
      results := Filter(results, p => PriceIn(p, sel.prices));
    }

    CuisinesStep(places, sel, results);
    if |sel.cuisines| > 0 {
      results := Filter(results, p => CuisineOverlap(p, sel.cuisines));
    }

    NeighborhoodsStep(places, sel, results);
    if |sel.neighborhoods| > 0 {
      results := Filter(results, p => NeighborhoodIn(p, sel.neighborhoods));
    }
  }

  /**
   * The filters only remove places and keep the rest in order; a place is
   * shown iff it passes every active filter.
   */
  lemma FilteredPlaces(places: seq<Listing>, sel: Selection)
    ensures IsSubseq(Filter(places, p => Passes(sel, p)), places)
    ensures forall p :: p in Filter(places, p => Passes(sel, p)) <==> p in places && Passes(sel, p)
  {
    FilterIsSubseq(places, p => Passes(sel, p));
    forall p {
      FilterMembers(places, p => Passes(sel, p), p);
    }
  }

  /** With an empty search and nothing ticked, every place is shown. */
  lemma NothingSelectedShowsAll(places: seq<Listing>, search: Option<string>)
    requires search.None? || JsTrim(search.value) == []
    ensures Filter(places, p => Passes(Selection(search, [], [], [], []), p)) == places
  {
    FilterKeepsAll(places, p => Passes(Selection(search, [], [], [], []), p));
  }

  /** Changing the case of a character never makes it white space or stops it being white space. */
  lemma LowerKeepsSpace(c: char)
    ensures IsJsSpace(LowerChar(c)) == IsJsSpace(c)
  {
  }

  lemma {:induction false} TrimStartLower(s: string)
    ensures TrimStart(Lower(s), IsJsSpace) == Lower(TrimStart(s, IsJsSpace))
  {
    if s != [] {
      LowerKeepsSpace(s[0]);
      assert Lower(s)[1..] == Lower(s[1..]);
      if IsJsSpace(s[0]) {
        TrimStartLower(s[1..]);
      }
    }
  }

  lemma {:induction false} TrimEndLower(s: string)
    ensures TrimEnd(Lower(s), IsJsSpace) == Lower(TrimEnd(s, IsJsSpace))
  {
    if s != [] {
      LowerKeepsSpace(s[|s| - 1]);
      assert Lower(s)[..|s| - 1] == Lower(s[..|s| - 1]);
      if IsJsSpace(s[|s| - 1]) {
        TrimEndLower(s[..|s| - 1]);
      }
    }
  }

  lemma LowerTwice(s: string)
    ensures Lower(Lower(s)) == Lower(s)
  {
  }

  /** The search ignores the case of what is typed: `"PIZZA"` finds what `"pizza"` finds. */
  lemma SearchIgnoresCase(sel: Selection)
    requires sel.search.Some?
    ensures Query(sel.(search := Some(Lower(sel.search.value)))) == Query(sel)
  {
    var v := sel.search.value;
    TrimStartLower(v);
    TrimEndLower(TrimStart(v, IsJsSpace));
    LowerTwice(JsTrim(v));
  }

  // ---------------------------------------------------------------------
  // The schema.org type of injectJsonLd

  /** The `switch (category)` of `injectJsonLd`, with `LocalBusiness` as the default. */
  function TypeFor(category: Option<Json>): string {
    if category == Some(JStr("Restaurants")) then "Restaurant"
    else if category == Some(JStr("Hotels")) then "Hotel"
    else if category == Some(JStr("Schools")) then "School"
    else if category == Some(JStr("Malls")) then "ShoppingMall"
    else if category == Some(JStr("Spas")) then "HealthAndBeautyBusiness"
    else if category == Some(JStr("Clinics")) then "MedicalClinic"
    else "LocalBusiness"
  }

  /**
   * `Array.isArray(place.categories) ? place.categories[0] : 'LocalBusiness'`,
   * then the switch. `categories` is None when the place has none.
   */
  function SchemaType(categories: Option<Json>): string {
    var category := if categories.Some? && categories.value.JArr? then
                      (if categories.value.items != [] then Some(categories.value.items[0]) else None)
                    else Some(JStr("LocalBusiness"));
    TypeFor(category)
  }

  /** The category each specific type comes from: the inverse of the switch. */
  function CategoryOfType(t: string): Option<string> {
    if t == "Restaurant" then Some("Restaurants")
    else if t == "Hotel" then Some("Hotels")
    else if t == "School" then Some("Schools")
    else if t == "ShoppingMall" then Some("Malls")
    else if t == "HealthAndBeautyBusiness" then Some("Spas")
    else if t == "MedicalClinic" then Some("Clinics")
    else None
  }

  /** The categories the switch names. */
  const TypedCategories: seq<string> := ["Restaurants", "Hotels", "Schools", "Spas", "Clinics", "Malls"]

  /**
   * A place gets a type other than `LocalBusiness` iff its first category is
   * one the switch names, and CategoryOfType gives that category back.
   */
  lemma SchemaTypeIff(categories: Option<Json>)
    ensures var t := SchemaType(categories);
            && (t != "LocalBusiness" <==>
                  categories.Some? && categories.value.JArr? && categories.value.items != []
                  && categories.value.items[0].JStr? && categories.value.items[0].s in TypedCategories)
            && (t != "LocalBusiness" ==> Some(categories.value.items[0].s) == CategoryOfType(t))
  {
  }

  /** The switch distinguishes the six categories: no two share a type. */
  lemma TypeForInjective(c: string, d: string)
    requires c in TypedCategories && d in TypedCategories && c != d
    ensures TypeFor(Some(JStr(c))) != TypeFor(Some(JStr(d)))
  {
  }

  lemma RequiredKeys<V>(a: V, b: V, c: V, d: V, e: V, f: V)
    ensures Keys([("Restaurants", a), ("Hotels", b), ("Schools", c), ("Spas", d), ("Clinics", e), ("Malls", f)])
            == TypedCategories
  {
  }

  /**
   * The switch and the required-fields table of the missing-fields report name
   * the same six categories, so a category the report checks is never shown as
   * a plain LocalBusiness, and no other category gets a specific type.
   */
  lemma TypedCategoriesAreRequired()
    ensures Keys(MissingFieldsReport.RequiredFields) == TypedCategories
    ensures forall c :: c in Keys(MissingFieldsReport.RequiredFields) <==> TypeFor(Some(JStr(c))) != "LocalBusiness"
  {
    var r := MissingFieldsReport.RequiredFields;
    RequiredKeys(r[0].1, r[1].1, r[2].1, r[3].1, r[4].1, r[5].1);
  }
}
