/**
 * scripts/qa/missing_fields_report.py: for every place of the dataset, the
 * fields its category requires that are absent or empty, collected into a report
 * keyed by slug.
 *
 * The dataset is the value `json.load` returned; reading the file is left out.
 */
module MissingFieldsReport {
  import opened Wrappers
  import opened Text
  import opened JsonValue
  import opened Seqs

  /** `REQUIRED_FIELDS`: the fields each category must fill, in this order. */
  const RequiredFields: seq<(string, seq<string>)> := [
    ("Restaurants", ["cuisines", "price_range", "hours"]),
    ("Hotels", ["price_range", "hours"]),
    ("Schools", ["hours"]),
    ("Spas", ["hours"]),
    ("Clinics", ["hours"]),
    ("Malls", ["hours"])
  ]

  /** The exception that stops the script. */
  datatype ReportError =
    | NotIterable               // `for p in places` over a number, bool or null
    | PlaceNotObject            // `p.get` on something other than a dict
    | CategoryNotSubscriptable  // `[0]` on a truthy number or `true`
    | CategoryKeyError          // `[0]` on a non-empty dict
    | UnhashableCategory        // `REQUIRED_FIELDS.get` with a list or dict
    | MissingSlug               // `p["slug"]` on a place without one
    | UnhashableSlug            // `report[slug]` with a list or dict

  /** `(p.get("categories") or [""])[0]`. */
  function Category(p: seq<(string, Json)>): (r: Result<Json, ReportError>)
    ensures r.Err? ==> PyTruthy(Get(p, "categories"))
  {
    var c := Get(p, "categories");
    if !PyTruthy(c) then Ok(JStr(""))
    else match c
      case JArr(xs) => Ok(xs[0])
      case JStr(s) => Ok(JStr([s[0]]))
      case JObj(_) => Err(CategoryKeyError)
      case _ => Err(CategoryNotSubscriptable)
  }

  /** The category is the first listed one, or "" when `categories` is missing or empty. */
  lemma CategoryIsFirst(p: seq<(string, Json)>)
    requires "categories" !in Keys(p) || Get(p, "categories").JArr?
    ensures var c := Get(p, "categories");
            Category(p) == Ok(if c.JArr? && c.items != [] then c.items[0] else JStr(""))
  {
  }

  /** `REQUIRED_FIELDS.get(category, [])`. */
  function RequiredFor(category: Json): (r: Result<seq<string>, ReportError>)
    ensures r.Err? <==> !PyHashable(category)
    ensures r.Ok? && r.value != [] ==> category.JStr? && category.s in Keys(RequiredFields)
    ensures category.JStr? && category.s in Keys(RequiredFields) ==> r.Ok? && Lookup(RequiredFields, category.s) == Some(r.value)
  {
    if !PyHashable(category) then Err(UnhashableCategory)
    else if category.JStr? then Ok(LookupOr(RequiredFields, category.s, []))
    else Ok([])
  }

  /** `not p.get(field)`: the field is absent, or present but falsy. */
  predicate IsMissing(p: seq<(string, Json)>, field: string) {
    !PyTruthy(Get(p, field))
  }

  /** The `missing` list the inner loop builds. */
  function MissingOf(p: seq<(string, Json)>, fields: seq<string>): seq<string> {
    Filter(fields, f => IsMissing(p, f))
  }

  /** The inner loop: append every required field the place lacks. */
  method MissingFields(p: seq<(string, Json)>, fields: seq<string>) returns (missing: seq<string>)
    ensures missing == MissingOf(p, fields)
  {
    missing := [];
    var i := 0;
    while i < |fields|
      invariant 0 <= i <= |fields|
      invariant missing == MissingOf(p, fields[..i])
    {
      FilterAppend(fields[..i], fields[i], f => IsMissing(p, f));
      assert fields[..i + 1] == fields[..i] + [fields[i]];
      if IsMissing(p, fields[i]) {
        missing := missing + [fields[i]];
      }
      i := i + 1;
    }
    assert fields[..i] == fields;
  }

  /** A field is reported missing iff it is required and absent or falsy; the list keeps the table's order. */
  lemma MissingOfIsRequiredAndFalsy(p: seq<(string, Json)>, fields: seq<string>, f: string)
    ensures f in MissingOf(p, fields) <==> f in fields && IsMissing(p, f)
    ensures IsSubseq(MissingOf(p, fields), fields)
  {
    FilterMembers(fields, g => IsMissing(p, g), f);
    FilterIsSubseq(fields, g => IsMissing(p, g));
  }

  /** What one place contributes: the missing fields of its category. */
  function PlaceMissing(place: Json): Result<seq<string>, ReportError> {
    if !place.JObj? then Err(PlaceNotObject)
    else match Category(place.members)
      case Err(e) => Err(e)
      case Ok(c) => match RequiredFor(c)
        case Err(e) => Err(e)
        case Ok(fields) => Ok(MissingOf(place.members, fields))
  }

  /** A category the table does not list requires nothing, so nothing is missing. */
  lemma UnknownCategoryMissesNothing(place: Json)
    requires place.JObj?
    requires var c := Category(place.members);
             c.Ok? && PyHashable(c.value) && !(c.value.JStr? && c.value.s in Keys(RequiredFields))
    ensures PlaceMissing(place) == Ok([])
  {
  }

  /** The report after one more place: `if missing: report[p["slug"]] = missing`. */
  function AddPlace(report: seq<(Json, seq<string>)>, place: Json): Result<seq<(Json, seq<string>)>, ReportError> {
    match PlaceMissing(place)
    case Err(e) => Err(e)
    case Ok(missing) =>
      if missing == [] then Ok(report)
      else match Lookup(place.members, "slug")
        case None => Err(MissingSlug)
        case Some(slug) => if PyHashable(slug) then Ok(Put(report, slug, missing)) else Err(UnhashableSlug)
  }

  /** The report after the places, one after the other; the first exception stops it. */
  function Report(places: seq<Json>): Result<seq<(Json, seq<string>)>, ReportError> {
    if places == [] then Ok([])
    else match Report(places[..|places| - 1])
      case Err(e) => Err(e)
      case Ok(r) => AddPlace(r, places[|places| - 1])
  }

  /** The outer loop of `main`. */
  method BuildReport(places: seq<Json>) returns (r: Result<seq<(Json, seq<string>)>, ReportError>)
    ensures r == Report(places)
  {
    var report: seq<(Json, seq<string>)> := [];
    var i := 0;
    while i < |places|
      invariant 0 <= i <= |places|
      invariant Report(places[..i]) == Ok(report)
    {
      var p := places[i];
      assert places[..i + 1][..i] == places[..i];
      assert Report(places[..i + 1]) == AddPlace(report, p);
      if !p.JObj? {
        FailureSticks(places, i + 1);
        return Err(PlaceNotObject);
      }
      var category := Category(p.members);
      if category.Err? {
        FailureSticks(places, i + 1);
        return Err(category.error);
      }
      var fields := RequiredFor(category.value);
      if fields.Err? {
        FailureSticks(places, i + 1);
        return Err(fields.error);
      }
      var missing := MissingFields(p.members, fields.value);
      if missing != [] {
        var slug := Lookup(p.members, "slug");
        if slug.None? {
          FailureSticks(places, i + 1);
          return Err(MissingSlug);
        }
        if !PyHashable(slug.value) {
          FailureSticks(places, i + 1);
          return Err(UnhashableSlug);
        }
        report := Put(report, slug.value, missing);
      }
      i := i + 1;
    }
    assert places[..i] == places;
    r := Ok(report);
  }

  /** Once a place has raised, the report stays failed. */
  lemma {:induction false} FailureSticks(places: seq<Json>, k: nat)
    requires k <= |places| && Report(places[..k]).Err?
    ensures Report(places) == Report(places[..k])
    decreases |places| - k
  {
    if k < |places| {
      assert places[..k + 1][..k] == places[..k];
      FailureSticks(places, k + 1);
    } else {
      assert places[..k] == places;
    }
  }

  // ---------------------------------------------------------------------
  // What the report holds

  /** The place carries `slug` and misses at least one required field. */
  predicate Reports(place: Json, slug: Json) {
    && place.JObj? && PlaceMissing(place).Ok? && PlaceMissing(place).value != []
    && Lookup(place.members, "slug") == Some(slug)
  }

  /** The missing list of the last place with this slug that misses something. */
  function LastMissing(places: seq<Json>, slug: Json): Option<seq<string>> {
    LastSome(places, p => if Reports(p, slug) then Some(PlaceMissing(p).value) else None)
  }

  /**
   * A slug is in the report iff some place with that slug misses a required
   * field, and it maps to the missing list of the last such place (a later place
   * with the same slug overwrites an earlier one). No slug occurs twice.
   */
  lemma {:induction false} ReportIsLastMissing(places: seq<Json>, slug: Json)
    requires Report(places).Ok?
    ensures Lookup(Report(places).value, slug) == LastMissing(places, slug)
    ensures DistinctKeys(Report(places).value)
  {
    if places != [] {
      var init := places[..|places| - 1];
      var p := places[|places| - 1];
      ReportIsLastMissing(init, slug);
      assert LastMissing(places, slug)
             == if Reports(p, slug) then Some(PlaceMissing(p).value) else LastMissing(init, slug);
      var r := Report(init).value;
      assert Report(places) == AddPlace(r, p);
      AddPlaceLookup(r, p, slug);
      AddPlaceDistinct(r, p);
    }
  }

  /** One more place sets its slug to its missing list when it misses something. */
  lemma AddPlaceLookup(report: seq<(Json, seq<string>)>, place: Json, slug: Json)
    requires AddPlace(report, place).Ok?
    ensures Lookup(AddPlace(report, place).value, slug)
            == if Reports(place, slug) then Some(PlaceMissing(place).value) else Lookup(report, slug)
  {
    var m := PlaceMissing(place).value;
    if m == [] {
      assert AddPlace(report, place).value == report;
      assert !Reports(place, slug);
    } else {
      var s := Lookup(place.members, "slug").value;
      var after := Put(report, s, m);
      assert AddPlace(report, place).value == after;
      assert Reports(place, slug) <==> s == slug;
    }
  }

  /** One more place keeps the slugs of the report distinct. */
  lemma AddPlaceDistinct(report: seq<(Json, seq<string>)>, place: Json)
    requires AddPlace(report, place).Ok? && DistinctKeys(report)
    ensures DistinctKeys(AddPlace(report, place).value)
  {
    var m := PlaceMissing(place).value;
    if m != [] {
      PutKeepsDistinct(report, Lookup(place.members, "slug").value, m);
    }
  }

  /** Without an exception, no place lacks anything iff the report is empty. */
  lemma {:induction false} EmptyReportIffNothingMissing(places: seq<Json>)
    requires Report(places).Ok?
    ensures Report(places).value == [] <==> NothingMissing(places)
  {
    if places != [] {
      var init := places[..|places| - 1];
      EmptyReportIffNothingMissing(init);
      NothingMissingSnoc(places);
      AddPlaceEmpty(Report(init).value, places[|places| - 1]);
    }
  }

  /** Every place misses nothing its category requires. */
  predicate NothingMissing(places: seq<Json>) {
    forall i :: 0 <= i < |places| ==> PlaceMissing(places[i]) == Ok([])
  }

  lemma NothingMissingSnoc(places: seq<Json>)
    requires places != []
    ensures NothingMissing(places)
            <==> NothingMissing(places[..|places| - 1]) && PlaceMissing(places[|places| - 1]) == Ok([])
  {
    var init := places[..|places| - 1];
    assert places == init + [places[|places| - 1]];
    AllSnoc(init, places[|places| - 1], p => PlaceMissing(p) == Ok([]));
  }

  /** One more place leaves the report empty iff it was empty and the place misses nothing. */
  lemma AddPlaceEmpty(report: seq<(Json, seq<string>)>, place: Json)
    requires AddPlace(report, place).Ok?
    ensures AddPlace(report, place).value == [] <==> report == [] && PlaceMissing(place) == Ok([])
  {
    var m := PlaceMissing(place).value;
    if m != [] {
      var slug := Lookup(place.members, "slug").value;
      assert Lookup(Put(report, slug, m), slug).Some?;
    }
  }

  // ---------------------------------------------------------------------
  // main

  /** What `main` prints. */
  datatype Printed =
    | NoDataFile
    | Crashed(error: ReportError)
    | AllPresent
    | MissingReport(entries: seq<(Json, seq<string>)>)

  /**
   * The lines printed; `show` is `str()` of a slug (for a string slug, the string
   * itself).
   */
  function PrintedLines(out: Printed, show: Json -> string): seq<string> {
    match out
    case NoDataFile => ["No data file found at data/places.json."]
    case Crashed(_) => []
    case AllPresent => ["All required fields present."]
    case MissingReport(entries) =>
      ["Missing fields report:"]
      + seq(|entries|, i requires 0 <= i < |entries| => "  " + show(entries[i].0) + ": " + JoinWith(entries[i].1, ", "))
  }

  /** `main`, with `data` the parsed dataset, or None when the file does not exist. */
  method ReportMain(data: Option<Json>) returns (out: Printed)
    ensures data.None? ==> out == NoDataFile
    ensures data.Some? && PyIter(data.value).None? ==> out == Crashed(NotIterable)
    ensures data.Some? && PyIter(data.value).Some? ==>
              var r := Report(PyIter(data.value).value);
              && (r.Err? ==> out == Crashed(r.error))
              && (r.Ok? ==> out == if r.value == [] then AllPresent else MissingReport(r.value))
  {
    if data.None? {
      return NoDataFile;
    }
    var places := PyIter(data.value);
    if places.None? {
      return Crashed(NotIterable);
    }
    var r := BuildReport(places.value);
    if r.Err? {
      return Crashed(r.error);
    }
    if r.value == [] {
      out := AllPresent;
    } else {
      out := MissingReport(r.value);
    }
  }
}
